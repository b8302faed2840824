/** The binary XML writer and reader as the program has them: an output buffer with its intern map, and a
    cursor over the bytes with its intern list. */
module AbxFile {
  import opened Common
  import opened ModifiedUtf8
  import opened Abx
  import opened AbxRead

  class Writer {
    var out: Bytes
    var interned: map<Text, nat>

    constructor ()
      ensures out == MAGIC + [Tag(START_DOCUMENT, 1)] && interned == map[]
    {
      out := MAGIC + [Tag(START_DOCUMENT, 1)];
      interned := map[];
    }

    method Utf(s: Text) returns (ok: bool)
      modifies this
      ensures ok == PutUtf(s).Some?
      ensures ok ==> out == old(out) + PutUtf(s).value && interned == old(interned)
    {
      var bytes := Encode(s);
      ok := |bytes| <= 0xffff;
      if ok {
        out := out + PutBE(|bytes|, 2);
        out := out + bytes;
      }
    }

    method Intern(s: Text) returns (ok: bool)
      modifies this
      ensures ok == PutInterned(s, old(interned)).Some?
      ensures ok ==> var o := PutInterned(s, old(interned)).value; out == old(out) + o.bytes && interned == o.interned
    {
      if s in interned {
        out := out + PutBE(interned[s], 2);
        return true;
      }
      out := out + PutBE(NEW, 2);
      ok := Utf(s);
      if ok {
        var next := |interned|;
        if next < NEW {
          interned := interned[s := next];
        }
      }
    }

    method Sized(b: Bytes) returns (ok: bool)
      modifies this
      ensures ok == PutBytes(b).Some?
      ensures ok ==> out == old(out) + PutBytes(b).value && interned == old(interned)
    {
      ok := |b| <= 0xffff;
      if ok {
        out := out + PutBE(|b|, 2);
        out := out + b;
      }
    }

    method WriteValue(v: Value) returns (ok: bool)
      modifies this
      ensures ok == PutValue(v, old(interned)).Some?
      ensures ok ==> var o := PutValue(v, old(interned)).value; out == old(out) + o.bytes && interned == o.interned
    {
      hide PutBE, PutUtf, PutInterned, PutBytes;
      ok := true;
      assert out + [] == out;
      match v
      case Null =>
      case String(s) => ok := Utf(s);
      case Interned(s) => ok := Intern(s);
      case BytesHex(b) => ok := Sized(b);
      case BytesBase64(b) => ok := Sized(b);
      case Int(n) => out := out + PutBE(n, 4);
      case IntHex(n) => out := out + PutBE(n, 4);
      case Long(n) => out := out + PutBE(n, 8);
      case LongHex(n) => out := out + PutBE(n, 8);
      case Float(n) => out := out + PutBE(n, 4);
      case Double(n) => out := out + PutBE(n, 8);
      case Bool(_) =>
    }

    method WriteTag(event: nat, kind: nat, name: Text) returns (ok: bool)
      modifies this
      ensures ok == PutTag(event, kind, name, old(interned)).Some?
      ensures ok ==> var o := PutTag(event, kind, name, old(interned)).value;
              out == old(out) + o.bytes && interned == o.interned
    {
      hide PutInterned;
      out := out + [Tag(event, kind)];
      ok := Intern(name);
    }

    method WriteAttrs(attrs: seq<Attr>) returns (ok: bool)
      modifies this
      ensures ok == PutAttrs(attrs, old(interned)).Some?
      ensures ok ==> var o := PutAttrs(attrs, old(interned)).value; out == old(out) + o.bytes && interned == o.interned
      decreases |attrs|
    {
      hide PutTag, PutValue;
      ok := true;
      if attrs == [] {
        assert out + [] == out;
        return;
      }
      var a := attrs[0];
      ok := WriteTag(ATTRIBUTE, KindOf(a.value), a.name);
      if ok {
        ok := WriteValue(a.value);
        if ok {
          ok := WriteAttrs(attrs[1..]);
        }
      }
    }

    method WriteNode(n: Node) returns (ok: bool)
      modifies this
      ensures ok == PutNode(n, old(interned)).Some?
      ensures ok ==> var o := PutNode(n, old(interned)).value; out == old(out) + o.bytes && interned == o.interned
      decreases n
    {
      hide PutUtf, PutElement;
      match n {
        case Child(e) =>
          ok := WriteElement(e);
        case Token(event, text) =>
          ok := true;
          if text.None? {
            out := out + [Tag(event, 1)];
          } else {
            out := out + [Tag(event, 2)];
            ok := Utf(text.value);
          }
      }
    }

    method WriteContent(content: seq<Node>) returns (ok: bool)
      modifies this
      ensures ok == PutContent(content, old(interned)).Some?
      ensures ok ==> var o := PutContent(content, old(interned)).value;
              out == old(out) + o.bytes && interned == o.interned
      decreases content
    {
      hide PutNode;
      ok := true;
      if content == [] {
        assert out + [] == out;
        return;
      }
      ok := WriteNode(content[0]);
      if ok {
        ok := WriteContent(content[1..]);
      }
    }

    method WriteElement(e: Element) returns (ok: bool)
      modifies this
      ensures ok == PutElement(e, old(interned)).Some?
      ensures ok ==> var o := PutElement(e, old(interned)).value; out == old(out) + o.bytes && interned == o.interned
      decreases e
    {
      hide PutTag, PutAttrs, PutContent;
      ok := WriteTag(START_TAG, 3, e.name);
      if ok {
        ok := WriteAttrs(e.attrs);
        if ok {
          ok := WriteContent(e.content);
          if ok {
            ok := WriteTag(END_TAG, 3, e.name);
          }
        }
      }
    }
  }

  /** `write_sequence`. */
  method WriteSequence(roots: seq<Element>) returns (r: Option<Bytes>)
    ensures r == Write(roots)
  {
    hide PutElement;
    var w := new Writer();
    ghost var body: Bytes := [];
    var i := 0;
    ghost var all := PutElements(roots, map[]);
    assert roots[0..] == roots;
    assert all.Some? ==> body + all.value.bytes == all.value.bytes;
    while i < |roots|
      invariant i <= |roots| && w.out == MAGIC + [Tag(START_DOCUMENT, 1)] + body
      invariant all == var o := PutElements(roots[i..], w.interned);
                if o.None? then None else Some(Out(body + o.value.bytes, o.value.interned))
    {
      ghost var was := w.interned;
      var ok := w.WriteElement(roots[i]);
      AnotherRoot(roots, i, was, body);
      if !ok {
        return None;
      }
      body := body + PutElement(roots[i], was).value.bytes;
      i := i + 1;
    }
    assert roots[i..] == [] && body + [] == body;
    return Some(w.out + [Tag(END_DOCUMENT, 1)]);
  }

  lemma AnotherRoot(roots: seq<Element>, i: nat, m: map<Text, nat>, body: Bytes)
    requires i < |roots|
    ensures var first, all := PutElement(roots[i], m), PutElements(roots[i..], m);
            && (first.None? ==> all.None?)
            && (first.Some? ==>
                  var o := PutElements(roots[i + 1..], first.value.interned);
                  && (all.None? <==> o.None?)
                  && (o.Some? ==>
                       all.value.interned == o.value.interned
                           && body + all.value.bytes == (body + first.value.bytes) + o.value.bytes))
  {
    hide PutElement;
    assert roots[i..][0] == roots[i] && roots[i..][1..] == roots[i + 1..];
  }

  // ---- reading ----

  class Reader {
    const bytes: Bytes
    var at: nat
    var interned: seq<Text>

    ghost predicate Valid()
      reads this
    {
      at <= |bytes|
    }

    ghost function View(): Cursor
      requires Valid()
      reads this
    {
      Cursor(bytes[at..], interned)
    }

    constructor (bytes: Bytes, at: nat)
      requires at <= |bytes|
      ensures this.bytes == bytes && this.at == at && interned == []
    {
      this.bytes, this.at, interned := bytes, at, [];
    }

    method Slice(n: nat) returns (r: Option<Bytes>)
      requires Valid()
      modifies this
      ensures Valid() && interned == old(interned)
      ensures match GetSlice(old(View()), n) case Got(v, after) => r == Some(v) && View() == after case Bad => r == None
    {
      if at + n > |bytes| {
        return None;
      }
      r := Some(bytes[at..at + n]);
      assert bytes[at..][..n] == bytes[at..at + n] && bytes[at..][n..] == bytes[at + n..];
      at := at + n;
    }

    method Number(k: nat) returns (r: Option<nat>)
      requires Valid()
      modifies this
      ensures Valid() && interned == old(interned)
      ensures match GetNumber(old(View()), k) case Got(v, after) => r == Some(v) && View() == after
              case Bad => r == None
    {
      hide GetBE, GetSlice;
      var b := Slice(k);
      r := if b.None? then None else Some(GetBE(b.value));
    }

    method Sized() returns (r: Option<Bytes>)
      requires Valid()
      modifies this
      ensures Valid()
      ensures match GetBytes(old(View())) case Got(v, after) => r == Some(v) && View() == after case Bad => r == None
    {
      hide GetNumber, GetSlice;
      r := None;
      var len := Number(2);
      if len.Some? {
        r := Slice(len.value);
      }
    }

    method Utf() returns (r: Option<Text>)
      requires Valid()
      modifies this
      ensures Valid()
      ensures match GetUtf(old(View())) case Got(v, after) => r == Some(v) && View() == after case Bad => r == None
    {
      hide GetBytes, DecodeUtf;
      r := None;
      var b := Sized();
      if b.Some? {
        r := Decode(b.value);
      }
    }

    method Intern() returns (r: Option<Text>)
      requires Valid()
      modifies this
      ensures Valid()
      ensures match GetInterned(old(View())) case Got(v, after) => r == Some(v) && View() == after case Bad => r == None
    {
      hide GetNumber, GetUtf;
      var i := Number(2);
      if i.None? {
        return None;
      }
      if i.value == NEW {
        r := Utf();
        if r.Some? && |interned| < NEW {
          interned := interned + [r.value];
        }
      } else if i.value < |interned| {
        r := Some(interned[i.value]);
      } else {
        r := None;
      }
    }

    method TypedValue(kind: nat) returns (r: Option<Value>)
      requires Valid()
      modifies this
      ensures Valid()
      ensures match GetValue(old(View()), kind) case Got(v, after) => r == Some(v) && View() == after
              case Bad => r == None
    {
      hide GetNumber, GetUtf, GetInterned, GetBytes;
      r := None;
      if kind == 1 {
        r := Some(Null);
      } else if kind == 2 || kind == 3 {
        var s: Option<Text>;
        if kind == 2 {
          s := Utf();
        } else {
          s := Intern();
        }
        if s.Some? {
          r := Some(if kind == 2 then String(s.value) else Interned(s.value));
        }
      } else if kind == 4 || kind == 5 {
        var b := Sized();
        if b.Some? {
          r := Some(if kind == 4 then BytesHex(b.value) else BytesBase64(b.value));
        }
      } else if kind == 6 || kind == 7 || kind == 10 {
        var n := Number(4);
        if n.Some? {
          r := Some(if kind == 6 then Int(n.value) else if kind == 7 then IntHex(n.value) else Float(n.value));
        }
      } else if kind == 8 || kind == 9 || kind == 11 {
        var n := Number(8);
        if n.Some? {
          r := Some(if kind == 8 then Long(n.value) else if kind == 9 then LongHex(n.value) else Double(n.value));
        }
      } else if kind == 12 {
        r := Some(Bool(true));
      } else if kind == 13 {
        r := Some(Bool(false));
      }
    }

    /** One token, applied to the elements open and the roots ended. */
    method ReadToken(open: seq<Element>, roots: seq<Element>) returns (r: Outcome)
      requires Valid()
      modifies this
      ensures Valid() && r == Step(Reading(old(View()), open, roots)) && (r.Next? ==> View() == r.reading.at)
    {
      hide GetInterned, GetValue, AddAttr, AddNode, Close;
      if at == |bytes| {
        return Failed;
      }
      var event, kind := bytes[at] % 0x10, bytes[at] / 0x10;
      assert bytes[at..][0] == bytes[at] && bytes[at..][1..] == bytes[at + 1..];
      at := at + 1;
      if event == START_TAG {
        var name := Intern();
        if name.None? {
          return Failed;
        }
        return Next(Reading(Cursor(bytes[at..], interned), open + [Element(name.value, [], [])], roots));
      } else if event == ATTRIBUTE {
        var name := Intern();
        if name.None? {
          return Failed;
        }
        var value := TypedValue(kind);
        if value.None? || open == [] {
          return Failed;
        }
        return Next(Reading(Cursor(bytes[at..], interned), AddAttr(open, Attr(name.value, value.value)), roots));
      } else if event == END_TAG {
        var name := Intern();
        if name.None? || open == [] {
          return Failed;
        }
        var e := open[|open| - 1];
        if e.name != name.value {
          return Failed;
        }
        var (up, ended) := Close(open[..|open| - 1], roots, e);
        return Next(Reading(Cursor(bytes[at..], interned), up, ended));
      } else if event == START_DOCUMENT {
        return Next(Reading(Cursor(bytes[at..], interned), open, roots));
      } else if event == END_DOCUMENT {
        return if open == [] then Done(roots) else Failed;
      } else {
        var v := TypedValue(kind);
        if v.None? || !(v.value.Null? || v.value.String?) {
          return Failed;
        }
        var text := if v.value.Null? then None else Some(v.value.text);
        return Next(Reading(Cursor(bytes[at..], interned), if open == [] then []
            else AddNode(open, Token(event, text)), roots));
      }
    }
  }

  /** `read_sequence`. */
  method ReadSequence(bytes: Bytes) returns (r: Option<seq<Element>>)
    ensures r == Read(bytes)
  {
    hide Step;
    if !(MAGIC <= bytes) {
      return None;
    }
    var reader := new Reader(bytes, |MAGIC|);
    var open: seq<Element>, roots: seq<Element> := [], [];
    while true
      invariant reader.Valid() && reader.bytes == bytes
      invariant Read(bytes) == ReadAll(Reading(reader.View(), open, roots))
      decreases |bytes| - reader.at
    {
      ghost var was := Reading(reader.View(), open, roots);
      var o := reader.ReadToken(open, roots);
      StepShrinks(was);
      match o {
        case Next(next) =>
          open, roots := next.open, next.roots;
        case Done(ended) =>
          return Some(ended);
        case Failed =>
          return None;
      }
    }
  }

  lemma StepShrinks(r: Reading)
    ensures Step(r).Next? ==> |Step(r).reading.at.rest| < |r.at.rest|
  {
  }
}
