/** The bytes of a binary XML document, written out: what the round trip alone would leave open. */
module AbxLayout {
  import opened Common
  import opened ModifiedUtf8
  import opened Abx

  lemma OneByte(v: nat)
    ensures PutBE(v, 1) == [v % 0x100]
  {
    assert PutBE(v / 0x100, 0) == [];
  }

  /** A number's bytes stand most significant first. */
  lemma TwoBytes(v: nat)
    ensures PutBE(v, 2) == [v / 0x100 % 0x100, v % 0x100]
  {
    OneByte(v / 0x100);
  }

  lemma FourBytes(v: nat)
    ensures PutBE(v, 4) == [v / 0x100_0000 % 0x100, v / 0x1_0000 % 0x100, v / 0x100 % 0x100, v % 0x100]
  {
    var w := v / 0x100 / 0x100;
    TwoBytes(w);
    assert PutBE(v / 0x100, 3) == PutBE(w, 2) + [v / 0x100 % 0x100];
    assert w == v / 0x1_0000 && w / 0x100 == v / 0x100_0000;
  }

  /** A number shifted down by `j` bytes. */
  function Shifted(v: nat, j: nat): nat {
    if j == 0 then v else Shifted(v / 0x100, j - 1)
  }

  /** Of any number of bytes, the `j`-th from the end is the low one once `j` are shifted out. */
  lemma {:induction false} ByteFromEnd(v: nat, k: nat, j: nat)
    requires j < k
    ensures PutBE(v, k)[k - 1 - j] == Shifted(v, j) % 0x100
  {
    if j > 0 {
      ByteFromEnd(v / 0x100, k - 1, j - 1);
    }
  }

  /** A text's bytes follow their number, in two bytes; there are at most 65535. */
  lemma TextBytes(s: Text)
    ensures var b := EncodeUtf(s);
            PutUtf(s) == if |b| > 0xffff then None else Some([|b| / 0x100, |b| % 0x100] + b)
  {
    TwoBytes(|EncodeUtf(s)|);
  }

  /** The first use of a string carries it, after two bytes that mark it new, and gives it the next index while there
      is one; */
  lemma FirstUse(s: Text, m: map<Text, nat>)
    requires s !in m && PutUtf(s).Some?
    ensures PutInterned(s, m) == Some(Out([0xff, 0xff] + PutUtf(s).value, if |m| < 0xffff then m[s := |m|] else m))
  {
    TwoBytes(0xffff);
  }

  /** later uses carry the index. */
  lemma LaterUse(s: Text, m: map<Text, nat>)
    requires PutInterned(s, m).Some? && (s in m ==> m[s] < 0xffff) && |m| < 0xffff
    ensures var index := if s in m then m[s] else |m|;
            var after := PutInterned(s, m).value.interned;
            PutInterned(s, after) == Some(Out([index / 0x100, index % 0x100], after))
  {
    TwoBytes(if s in m then m[s] else |m|);
  }

  /** The byte an attribute of each type begins with: 15 below, the type above. */
  function AttributeByte(v: Value): nat {
    match v
    case Null => 0x1f
    case String(_) => 0x2f
    case Interned(_) => 0x3f
    case BytesHex(_) => 0x4f
    case BytesBase64(_) => 0x5f
    case Int(_) => 0x6f
    case IntHex(_) => 0x7f
    case Long(_) => 0x8f
    case LongHex(_) => 0x9f
    case Float(_) => 0xaf
    case Double(_) => 0xbf
    case Bool(true) => 0xcf
    case Bool(false) => 0xdf
  }

  /** Its data: text and interned text, counted bytes, four or eight bytes of a number, or nothing. */
  ghost predicate IsData(v: Value, m: map<Text, nat>, o: Out) {
    match v
    case Null => o == Out([], m)
    case Bool(_) => o == Out([], m)
    case String(s) => PutUtf(s) == Some(o.bytes) && o.interned == m
    case Interned(s) => PutInterned(s, m) == Some(o)
    case BytesHex(b) => o == Out([|b| / 0x100, |b| % 0x100] + b, m)
    case BytesBase64(b) => o == Out([|b| / 0x100, |b| % 0x100] + b, m)
    case Int(n) => o == Out(PutBE(n, 4), m)
    case IntHex(n) => o == Out(PutBE(n, 4), m)
    case Float(n) => o == Out(PutBE(n, 4), m)
    case Long(n) => o == Out(PutBE(n, 8), m)
    case LongHex(n) => o == Out(PutBE(n, 8), m)
    case Double(n) => o == Out(PutBE(n, 8), m)
  }

  /** An attribute is its byte, its name and its data. */
  lemma AttributeBytes(a: Attr, m: map<Text, nat>)
    requires PutAttr(a, m).Some?
    ensures PutInterned(a.name, m).Some?
    ensures var name := PutInterned(a.name, m).value;
            exists data: Out ::
              && IsData(a.value, name.interned, data)
              && PutAttr(a, m) == Some(Out([AttributeByte(a.value)] + name.bytes + data.bytes, data.interned))
  {
    var name := PutInterned(a.name, m).value;
    var data := PutValue(a.value, name.interned).value;
    match a.value {
      case BytesHex(b) => TwoBytes(|b|);
      case BytesBase64(b) => TwoBytes(|b|);
      case _ =>
    }
    assert IsData(a.value, name.interned, data);
  }

  /** A token of text is its event and 0x10, or its event and 0x20 and the text. */
  lemma TokenBytes(event: nat, text: Option<Text>, m: map<Text, nat>)
    requires text.Some? ==> PutUtf(text.value).Some?
    ensures PutNode(Token(event, text), m) ==
            Some(Out(if text.None? then [event + 0x10] else [event + 0x20] + PutUtf(text.value).value, m))
  {
  }

  /** An element is 0x32 and its name, its attributes, its content, and 0x33 and its name. */
  lemma ElementBytes(e: Element, m: map<Text, nat>)
    requires PutElement(e, m).Some?
    ensures PutInterned(e.name, m).Some?
    ensures var name := PutInterned(e.name, m).value;
            && PutAttrs(e.attrs, name.interned).Some?
            && var attrs := PutAttrs(e.attrs, name.interned).value;
               && PutContent(e.content, attrs.interned).Some?
               && var content := PutContent(e.content, attrs.interned).value;
                  && PutInterned(e.name, content.interned).Some?
                  && var end := PutInterned(e.name, content.interned).value;
                     PutElement(e, m) ==
                     Some(Out([0x32] + name.bytes + attrs.bytes + content.bytes + [0x33] + end.bytes, end.interned))
  {
    hide PutInterned, PutAttrs, PutContent;
    var name := PutInterned(e.name, m).value;
    var attrs := PutAttrs(e.attrs, name.interned).value;
    var content := PutContent(e.content, attrs.interned).value;
    var end := PutInterned(e.name, content.interned).value;
    assert PutElement(e, m).value.bytes
           == [0x32] + name.bytes + (attrs.bytes + (content.bytes + ([0x33] + end.bytes)));
    assert [0x32] + name.bytes + (attrs.bytes + (content.bytes + ([0x33] + end.bytes)))
           == [0x32] + name.bytes + attrs.bytes + content.bytes + [0x33] + end.bytes;
  }

  /** A document is "ABX", a zero and 0x10, its elements, and 0x11. */
  lemma DocumentBytes(roots: seq<Element>)
    requires Write(roots).Some?
    ensures PutElements(roots, map[]).Some?
    ensures Write(roots).value == [0x41, 0x42, 0x58, 0x00, 0x10] + PutElements(roots, map[]).value.bytes + [0x11]
  {
    assert MAGIC + [0x10] == [0x41, 0x42, 0x58, 0x00, 0x10];
  }
}
