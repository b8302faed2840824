/** The binary XML reader (`read_sequence` in `crates/aim-android-xml/src/abx.rs`), and that it reads what
    the writer writes. */
module AbxRead {
  import opened Common
  import opened ModifiedUtf8
  import opened Abx

  /** The reader's cursor: what is left, and the strings interned so far in order. */
  datatype Cursor = Cursor(rest: Bytes, interned: seq<Text>)

  datatype Got<+T> = Got(value: T, after: Cursor) | Bad

  /** `Reader::slice`. */
  function GetSlice(c: Cursor, n: nat): (r: Got<Bytes>)
    ensures r.Got? ==> |r.after.rest| == |c.rest| - n
  {
    if n <= |c.rest| then Got(c.rest[..n], c.(rest := c.rest[n..])) else Bad
  }

  function GetNumber(c: Cursor, k: nat): (r: Got<nat>)
    ensures r.Got? ==> |r.after.rest| == |c.rest| - k
  {
    var b := GetSlice(c, k);
    if b.Bad? then Bad else Got(GetBE(b.value), b.after)
  }

  function GetBytes(c: Cursor): (r: Got<Bytes>)
    ensures r.Got? ==> |r.after.rest| <= |c.rest|
  {
    var len := GetNumber(c, 2);
    if len.Bad? then Bad else GetSlice(len.after, len.value)
  }

  /** `Reader::utf`. */
  function GetUtf(c: Cursor): (r: Got<Text>)
    ensures r.Got? ==> |r.after.rest| <= |c.rest|
  {
    var b := GetBytes(c);
    if b.Bad? then Bad
    else
      var s := DecodeUtf(b.value);
      if s.None? then Bad else Got(s.value, b.after)
  }

  /** `Reader::interned`. */
  function GetInterned(c: Cursor): (r: Got<Text>)
    ensures r.Got? ==> |r.after.rest| <= |c.rest|
  {
    var i := GetNumber(c, 2);
    if i.Bad? then Bad
    else if i.value == NEW then
      var s := GetUtf(i.after);
      if s.Bad? then Bad
      else Got(s.value,
          s.after.(interned := if |s.after.interned| < NEW then s.after.interned + [s.value] else s.after.interned))
    else if i.value < |c.interned| then Got(c.interned[i.value], i.after)
    else Bad
  }

  function AsValue<T>(g: Got<T>, make: T -> Value): (r: Got<Value>)
    ensures r.Got? <==> g.Got?
    ensures r.Got? ==> r.after == g.after && r.value == make(g.value)
  {
    if g.Bad? then Bad else Got(make(g.value), g.after)
  }

  /** `Reader::value`. */
  function GetValue(c: Cursor, kind: nat): (r: Got<Value>)
    ensures r.Got? ==> |r.after.rest| <= |c.rest|
  {
    if kind == 1 then Got(Null, c)
    else if kind == 2 then AsValue(GetUtf(c), (s: Text) => String(s))
    else if kind == 3 then AsValue(GetInterned(c), (s: Text) => Interned(s))
    else if kind == 4 then AsValue(GetBytes(c), (b: Bytes) => BytesHex(b))
    else if kind == 5 then AsValue(GetBytes(c), (b: Bytes) => BytesBase64(b))
    else if kind == 6 then AsValue(GetNumber(c, 4), (n: nat) => Int(n))
    else if kind == 7 then AsValue(GetNumber(c, 4), (n: nat) => IntHex(n))
    else if kind == 8 then AsValue(GetNumber(c, 8), (n: nat) => Long(n))
    else if kind == 9 then AsValue(GetNumber(c, 8), (n: nat) => LongHex(n))
    else if kind == 10 then AsValue(GetNumber(c, 4), (n: nat) => Float(n))
    else if kind == 11 then AsValue(GetNumber(c, 8), (n: nat) => Double(n))
    else if kind == 12 then Got(Bool(true), c)
    else if kind == 13 then Got(Bool(false), c)
    else Bad
  }

  // ---- the token loop ----

  /** The reader between tokens: the elements open, and those that have ended. */
  datatype Reading = Reading(at: Cursor, open: seq<Element>, roots: seq<Element>)

  datatype Outcome = Next(reading: Reading) | Done(roots: seq<Element>) | Failed

  function Last(open: seq<Element>, e: Element): seq<Element>
    requires open != []
  {
    open[|open| - 1 := e]
  }

  function AddAttr(open: seq<Element>, a: Attr): seq<Element>
    requires open != []
  {
    var e := open[|open| - 1];
    Last(open, e.(attrs := e.attrs + [a]))
  }

  function AddNode(open: seq<Element>, n: Node): seq<Element>
    requires open != []
  {
    var e := open[|open| - 1];
    Last(open, e.(content := e.content + [n]))
  }

  /** An element that has ended goes to its parent, or among the roots. */
  function Close(open: seq<Element>, roots: seq<Element>, e: Element): (seq<Element>, seq<Element>) {
    if open == [] then ([], roots + [e]) else (AddNode(open, Child(e)), roots)
  }

  function StartTag(r: Reading, c: Cursor): Outcome {
    var name := GetInterned(c);
    if name.Bad? then Failed else Next(Reading(name.after, r.open + [Element(name.value, [], [])], r.roots))
  }

  function AttributeTag(r: Reading, c: Cursor, kind: nat): Outcome {
    var name := GetInterned(c);
    if name.Bad? then Failed
    else
      var value := GetValue(name.after, kind);
      if value.Bad? || r.open == [] then Failed
      else Next(Reading(value.after, AddAttr(r.open, Attr(name.value, value.value)), r.roots))
  }

  function EndTag(r: Reading, c: Cursor): Outcome {
    var name := GetInterned(c);
    if name.Bad? || r.open == [] then Failed
    else
      var e := r.open[|r.open| - 1];
      if e.name != name.value then Failed
      else
        var (open, roots) := Close(r.open[..|r.open| - 1], r.roots, e);
        Next(Reading(name.after, open, roots))
  }

  function ContentToken(r: Reading, c: Cursor, event: nat, kind: nat): Outcome {
    var v := GetValue(c, kind);
    if v.Bad? || !(v.value.Null? || v.value.String?) then Failed
    else
      var text := if v.value.Null? then None else Some(v.value.text);
      Next(Reading(v.after, if r.open == [] then [] else AddNode(r.open, Token(event, text)), r.roots))
  }

  /** One turn of the loop of `read_sequence`. */
  function Step(r: Reading): (o: Outcome)
    ensures o.Next? ==> |o.reading.at.rest| < |r.at.rest|
  {
    if r.at.rest == [] then Failed
    else
      var event, kind := r.at.rest[0] % 0x10, r.at.rest[0] / 0x10;
      var c := r.at.(rest := r.at.rest[1..]);
      if event == START_TAG then StartTag(r, c)
      else if event == ATTRIBUTE then AttributeTag(r, c, kind)
      else if event == END_TAG then EndTag(r, c)
      else if event == START_DOCUMENT then Next(r.(at := c))
      else if event == END_DOCUMENT then (if r.open == [] then Done(r.roots) else Failed)
      else ContentToken(r, c, event, kind)
  }

  function ReadAll(r: Reading): Option<seq<Element>>
    decreases |r.at.rest|
  {
    match Step(r)
    case Next(next) => ReadAll(next)
    case Done(roots) => Some(roots)
    case Failed => None
  }

  /** `read_sequence`. */
  function Read(bytes: Bytes): Option<seq<Element>> {
    if MAGIC <= bytes then ReadAll(Reading(Cursor(bytes[|MAGIC|..], []), [], [])) else None
  }

  // ---- lockstep ----

  /** The writer's intern map and the reader's intern list are inverses. */
  ghost predicate Lockstep(m: map<Text, nat>, l: seq<Text>) {
    && |m| == |l| <= NEW
    && (forall s {:trigger s in m} :: s in m ==> m[s] < |l| && l[m[s]] == s)
    && (forall i {:trigger l[i]} :: 0 <= i < |l| ==> l[i] in m && m[l[i]] == i)
  }

  lemma LockstepMore(m: map<Text, nat>, l: seq<Text>, s: Text)
    requires Lockstep(m, l) && s !in m && |m| < NEW
    ensures Lockstep(m[s := |m|], l + [s])
  {
    var m', l' := m[s := |m|], l + [s];
    forall t | t in m' ensures m'[t] < |l'| && l'[m'[t]] == t {
      if t != s {
        assert t in m;
      }
    }
    forall i | 0 <= i < |l'| ensures l'[i] in m' && m'[l'[i]] == i {
      if i < |l| {
        assert l[i] in m;
      }
    }
  }

  /** What is read back after it was written, with the two tables in step again. */
  ghost predicate ReadsBack<T>(o: Out, v: T, g: Got<T>, tail: Bytes) {
    g.Got? && g.value == v && g.after.rest == tail && Lockstep(o.interned, g.after.interned)
  }

  lemma SliceBack(b: Bytes, tail: Bytes, l: seq<Text>)
    ensures GetSlice(Cursor(b + tail, l), |b|) == Got(b, Cursor(tail, l))
  {
    assert (b + tail)[..|b|] == b && (b + tail)[|b|..] == tail;
  }

  lemma NumberBack(v: nat, k: nat, tail: Bytes, l: seq<Text>)
    requires v < Pow256(k)
    ensures GetNumber(Cursor(PutBE(v, k) + tail, l), k) == Got(v, Cursor(tail, l))
  {
    SliceBack(PutBE(v, k), tail, l);
    BERoundTrip(v, k);
  }

  lemma BytesBack(b: Bytes, tail: Bytes, l: seq<Text>)
    requires PutBytes(b).Some?
    ensures GetBytes(Cursor(PutBytes(b).value + tail, l)) == Got(b, Cursor(tail, l))
  {
    hide PutBE, GetBE;
    var all := PutBytes(b).value + tail;
    assert all == PutBE(|b|, 2) + (b + tail);
    Sizes();
    NumberBack(|b|, 2, b + tail, l);
    SliceBack(b, tail, l);
  }

  lemma UtfBack(s: Text, tail: Bytes, l: seq<Text>)
    requires IsText(s) && PutUtf(s).Some?
    ensures GetUtf(Cursor(PutUtf(s).value + tail, l)) == Got(s, Cursor(tail, l))
  {
    hide DecodeUtf, EncodeUtf, GetBytes;
    assert PutUtf(s) == PutBytes(EncodeUtf(s));
    BytesBack(EncodeUtf(s), tail, l);
    UtfRoundTrip(s);
  }

  lemma InternedBack(s: Text, m: map<Text, nat>, tail: Bytes, l: seq<Text>)
    requires IsText(s) && Lockstep(m, l) && PutInterned(s, m).Some?
    ensures ReadsBack(PutInterned(s, m).value, s, GetInterned(Cursor(PutInterned(s, m).value.bytes + tail, l)), tail)
  {
    hide PutBE, PutUtf, GetUtf, GetNumber;
    Sizes();
    var o := PutInterned(s, m).value;
    if s in m {
      NumberBack(m[s], 2, tail, l);
    } else {
      var utf := PutUtf(s).value;
      assert o.bytes + tail == PutBE(NEW, 2) + (utf + tail);
      NumberBack(NEW, 2, utf + tail, l);
      UtfBack(s, tail, l);
      if |m| < NEW {
        LockstepMore(m, l, s);
      }
    }
  }

  lemma ValueBack(v: Value, m: map<Text, nat>, tail: Bytes, l: seq<Text>)
    requires ValidValue(v) && Lockstep(m, l) && PutValue(v, m).Some?
    ensures ReadsBack(PutValue(v, m).value, v, GetValue(Cursor(PutValue(v, m).value.bytes + tail, l), KindOf(v)), tail)
  {
    hide PutBE, PutUtf, GetUtf, GetNumber, PutBytes, GetBytes, PutInterned, GetInterned, IsText, AreBytes, Lockstep;
    Sizes();
    assert [] + tail == tail;
    match v
    case Null =>
    case String(s) => UtfBack(s, tail, l);
    case Interned(s) => InternedBack(s, m, tail, l);
    case BytesHex(b) => BytesBack(b, tail, l);
    case BytesBase64(b) => BytesBack(b, tail, l);
    case Int(n) => NumberBack(n, 4, tail, l);
    case IntHex(n) => NumberBack(n, 4, tail, l);
    case Long(n) => NumberBack(n, 8, tail, l);
    case LongHex(n) => NumberBack(n, 8, tail, l);
    case Float(n) => NumberBack(n, 4, tail, l);
    case Double(n) => NumberBack(n, 8, tail, l);
    case Bool(_) =>
  }

  // ---- whole documents ----

  lemma TagParts(event: nat, kind: nat)
    requires event < 0x10
    ensures Tag(event, kind) % 0x10 == event && Tag(event, kind) / 0x10 == kind
  {
  }

  /** One token read, the loop goes on. */
  lemma OneToken(r: Reading, next: Reading)
    requires Step(r) == Next(next)
    ensures ReadAll(r) == ReadAll(next)
  {
  }

  lemma StartBack(name: Text, m: map<Text, nat>, tail: Bytes, l: seq<Text>, open: seq<Element>, roots: seq<Element>)
      returns (l': seq<Text>)
    requires IsText(name) && Lockstep(m, l) && PutTag(START_TAG, 3, name, m).Some?
    ensures var o := PutTag(START_TAG, 3, name, m).value;
            && Lockstep(o.interned, l')
            && ReadAll(Reading(Cursor(o.bytes + tail, l), open, roots)) ==
                 ReadAll(Reading(Cursor(tail, l'), open + [Element(name, [], [])], roots))
  {
    hide ReadAll, PutInterned, GetInterned, IsText, Lockstep;
    var n := PutInterned(name, m).value;
    var all := [Tag(START_TAG, 3)] + n.bytes + tail;
    InternedBack(name, m, tail, l);
    TagParts(START_TAG, 3);
    assert all[1..] == n.bytes + tail;
    l' := GetInterned(Cursor(n.bytes + tail, l)).after.interned;
    OneToken(Reading(Cursor(all, l), open, roots), Reading(Cursor(tail, l'), open + [Element(name, [], [])], roots));
  }

  lemma EndBack(e: Element, m: map<Text, nat>, tail: Bytes, l: seq<Text>, open: seq<Element>, roots: seq<Element>)
      returns (l': seq<Text>)
    requires IsText(e.name) && Lockstep(m, l) && PutTag(END_TAG, 3, e.name, m).Some?
    ensures var o := PutTag(END_TAG, 3, e.name, m).value;
            && Lockstep(o.interned, l')
            && ReadAll(Reading(Cursor(o.bytes + tail, l), open + [e], roots))
               == ReadAll(Reading(Cursor(tail, l'), Close(open, roots, e).0, Close(open, roots, e).1))
  {
    hide ReadAll, PutInterned, GetInterned, IsText, Lockstep, Close;
    var n := PutInterned(e.name, m).value;
    var all := [Tag(END_TAG, 3)] + n.bytes + tail;
    InternedBack(e.name, m, tail, l);
    TagParts(END_TAG, 3);
    assert all[1..] == n.bytes + tail;
    assert (open + [e])[..|open|] == open;
    l' := GetInterned(Cursor(n.bytes + tail, l)).after.interned;
    OneToken(Reading(Cursor(all, l), open + [e], roots),
        Reading(Cursor(tail, l'), Close(open, roots, e).0, Close(open, roots, e).1));
  }

  lemma AttrBack(a: Attr, m: map<Text, nat>, tail: Bytes, l: seq<Text>, open: seq<Element>, roots: seq<Element>)
      returns (l': seq<Text>)
    requires IsText(a.name) && ValidValue(a.value) && Lockstep(m, l) && PutAttr(a, m).Some? && open != []
    ensures var o := PutAttr(a, m).value;
            && Lockstep(o.interned, l')
            && ReadAll(Reading(Cursor(o.bytes + tail, l), open, roots)) ==
                 ReadAll(Reading(Cursor(tail, l'), AddAttr(open, a), roots))
  {
    hide ReadAll, PutInterned, GetInterned, PutValue, GetValue, ValidValue, IsText, Lockstep, AddAttr;
    var n := PutInterned(a.name, m).value;
    var v := PutValue(a.value, n.interned).value;
    var all := PutAttr(a, m).value.bytes + tail;
    InternedBack(a.name, m, v.bytes + tail, l);
    var l1 := GetInterned(Cursor(n.bytes + (v.bytes + tail), l)).after.interned;
    ValueBack(a.value, n.interned, tail, l1);
    TagParts(ATTRIBUTE, KindOf(a.value));
    assert all[0] == Tag(ATTRIBUTE, KindOf(a.value)) && all[1..] == n.bytes + (v.bytes + tail);
    l' := GetValue(Cursor(v.bytes + tail, l1), KindOf(a.value)).after.interned;
    OneToken(Reading(Cursor(all, l), open, roots), Reading(Cursor(tail, l'), AddAttr(open, a), roots));
  }

  lemma TokenBack(event: nat, text: Option<Text>, tail: Bytes, l: seq<Text>, open: seq<Element>, roots: seq<Element>)
    requires 3 < event < 15 && (text.Some? ==> IsText(text.value)) && PutToken(event, text).Some? && open != []
    ensures ReadAll(Reading(Cursor(PutToken(event, text).value + tail, l), open, roots))
            == ReadAll(Reading(Cursor(tail, l), AddNode(open, Token(event, text)), roots))
  {
    hide ReadAll, PutUtf, GetUtf, IsText, AddNode;
    var all := PutToken(event, text).value + tail;
    if text.None? {
      TagParts(event, 1);
      assert all[1..] == tail;
    } else {
      TagParts(event, 2);
      UtfBack(text.value, tail, l);
      assert all[1..] == PutUtf(text.value).value + tail;
    }
    OneToken(Reading(Cursor(all, l), open, roots), Reading(Cursor(tail, l), AddNode(open, Token(event, text)), roots));
  }

  /** The element being read, with attributes or content added. */
  function WithAttrs(open: seq<Element>, attrs: seq<Attr>): seq<Element>
    requires open != []
  {
    var e := open[|open| - 1];
    Last(open, e.(attrs := e.attrs + attrs))
  }

  function WithContent(open: seq<Element>, content: seq<Node>): seq<Element>
    requires open != []
  {
    var e := open[|open| - 1];
    Last(open, e.(content := e.content + content))
  }

  lemma NothingAdded(open: seq<Element>)
    requires open != []
    ensures WithAttrs(open, []) == open && WithContent(open, []) == open
  {
    var e := open[|open| - 1];
    assert e.attrs + [] == e.attrs && e.content + [] == e.content;
  }

  lemma AttrsAdded(open: seq<Element>, a: Attr, more: seq<Attr>)
    requires open != []
    ensures WithAttrs(AddAttr(open, a), more) == WithAttrs(open, [a] + more)
  {
    var e := open[|open| - 1];
    assert (e.attrs + [a]) + more == e.attrs + ([a] + more);
  }

  lemma ContentAdded(open: seq<Element>, n: Node, more: seq<Node>)
    requires open != []
    ensures WithContent(AddNode(open, n), more) == WithContent(open, [n] + more)
  {
    var e := open[|open| - 1];
    assert (e.content + [n]) + more == e.content + ([n] + more);
  }

  lemma {:induction false} AttrsBack(attrs: seq<Attr>, m: map<Text, nat>, tail: Bytes, l: seq<Text>, open: seq<Element>,
      roots: seq<Element>)
    returns (l': seq<Text>)
    requires ValidAttrs(attrs) && Lockstep(m, l) && PutAttrs(attrs, m).Some? && open != []
    ensures var o := PutAttrs(attrs, m).value;
            && Lockstep(o.interned, l')
            && ReadAll(Reading(Cursor(o.bytes + tail, l), open, roots)) ==
                 ReadAll(Reading(Cursor(tail, l'), WithAttrs(open, attrs), roots))
    decreases |attrs|
  {
    hide ReadAll, Lockstep, PutAttr, IsText, ValidValue;
    if attrs == [] {
      assert [] + tail == tail;
      NothingAdded(open);
      l' := l;
    } else {
      var first := PutAttr(attrs[0], m).value;
      var others := PutAttrs(attrs[1..], first.interned).value;
      assert (first.bytes + others.bytes) + tail == first.bytes + (others.bytes + tail);
      var l1 := AttrBack(attrs[0], m, others.bytes + tail, l, open, roots);
      l' := AttrsBack(attrs[1..], first.interned, tail, l1, AddAttr(open, attrs[0]), roots);
      assert [attrs[0]] + attrs[1..] == attrs;
      AttrsAdded(open, attrs[0], attrs[1..]);
    }
  }

  lemma {:induction false} NodeBack(n: Node, m: map<Text, nat>, tail: Bytes, l: seq<Text>, open: seq<Element>,
      roots: seq<Element>)
    returns (l': seq<Text>)
    requires ValidNode(n) && Lockstep(m, l) && PutNode(n, m).Some? && open != []
    ensures var o := PutNode(n, m).value;
            && Lockstep(o.interned, l')
            && ReadAll(Reading(Cursor(o.bytes + tail, l), open, roots)) ==
                 ReadAll(Reading(Cursor(tail, l'), AddNode(open, n), roots))
    decreases n, 0
  {
    hide ReadAll, Lockstep, IsText, AddNode, PutToken, PutElement;
    match n
    case Child(e) => l' := ElementBack(e, m, tail, l, open, roots);
    case Token(event, text) =>
      TokenBack(event, text, tail, l, open, roots);
      l' := l;
  }

  lemma {:induction false} ContentBack(content: seq<Node>, m: map<Text, nat>, tail: Bytes, l: seq<Text>,
      open: seq<Element>, roots: seq<Element>)
    returns (l': seq<Text>)
    requires (forall n {:trigger n in content} :: n in content ==> ValidNode(n)) && Lockstep(m, l)
             && PutContent(content, m).Some? && open != []
    ensures var o := PutContent(content, m).value;
            && Lockstep(o.interned, l')
            && ReadAll(Reading(Cursor(o.bytes + tail, l), open, roots)) ==
                 ReadAll(Reading(Cursor(tail, l'), WithContent(open, content), roots))
    decreases content
  {
    hide ReadAll, Lockstep, PutNode, ValidNode;
    if content == [] {
      assert [] + tail == tail;
      NothingAdded(open);
      l' := l;
    } else {
      var first := PutNode(content[0], m).value;
      var others := PutContent(content[1..], first.interned).value;
      assert (first.bytes + others.bytes) + tail == first.bytes + (others.bytes + tail);
      assert content[0] in content;
      var l1 := NodeBack(content[0], m, others.bytes + tail, l, open, roots);
      forall n | n in content[1..] ensures ValidNode(n) {
        assert n in content;
      }
      l' := ContentBack(content[1..], first.interned, tail, l1, AddNode(open, content[0]), roots);
      assert [content[0]] + content[1..] == content;
      ContentAdded(open, content[0], content[1..]);
    }
  }

  /** An element written is read into its parent, or among the roots. */
  lemma {:induction false} ElementBack(e: Element, m: map<Text, nat>, tail: Bytes, l: seq<Text>, open: seq<Element>,
      roots: seq<Element>)
    returns (l': seq<Text>)
    requires ValidElement(e) && Lockstep(m, l) && PutElement(e, m).Some?
    ensures var o := PutElement(e, m).value;
            && Lockstep(o.interned, l')
            && ReadAll(Reading(Cursor(o.bytes + tail, l), open, roots))
               == ReadAll(Reading(Cursor(tail, l'), Close(open, roots, e).0, Close(open, roots, e).1))
    decreases e
  {
    hide ReadAll, Lockstep, PutTag, PutAttrs, PutContent, IsText, ValidAttrs, Close;
    var start := PutTag(START_TAG, 3, e.name, m).value;
    var attrs := PutAttrs(e.attrs, start.interned).value;
    var content := PutContent(e.content, attrs.interned).value;
    var end := PutTag(END_TAG, 3, e.name, content.interned).value;
    var afterContent := end.bytes + tail;
    var afterAttrs := content.bytes + afterContent;
    var afterStart := attrs.bytes + afterAttrs;
    assert (start.bytes + (attrs.bytes + (content.bytes + end.bytes))) + tail == start.bytes + afterStart;
    var e0 := Element(e.name, [], []);
    var l1 := StartBack(e.name, m, afterStart, l, open, roots);
    var l2 := AttrsBack(e.attrs, start.interned, afterAttrs, l1, open + [e0], roots);
    var e1 := Element(e.name, e.attrs, []);
    assert [] + e.attrs == e.attrs;
    assert WithAttrs(open + [e0], e.attrs) == open + [e1];
    var l3 := ContentBack(e.content, attrs.interned, afterContent, l2, open + [e1], roots);
    assert [] + e.content == e.content;
    assert WithContent(open + [e1], e.content) == open + [e];
    l' := EndBack(e, content.interned, tail, l3, open, roots);
  }

  lemma {:induction false} ElementsBack(elements: seq<Element>, m: map<Text, nat>, tail: Bytes, l: seq<Text>,
      roots: seq<Element>)
    returns (l': seq<Text>)
    requires (forall e {:trigger e in elements} :: e in elements ==> ValidElement(e)) && Lockstep(m, l)
             && PutElements(elements, m).Some?
    ensures var o := PutElements(elements, m).value;
            ReadAll(Reading(Cursor(o.bytes + tail, l), [], roots)) ==
                ReadAll(Reading(Cursor(tail, l'), [], roots + elements))
    decreases |elements|
  {
    hide ReadAll, Lockstep, PutElement, ValidElement;
    if elements == [] {
      assert [] + tail == tail && roots + [] == roots;
      l' := l;
    } else {
      var first := PutElement(elements[0], m).value;
      var others := PutElements(elements[1..], first.interned).value;
      assert (first.bytes + others.bytes) + tail == first.bytes + (others.bytes + tail);
      assert elements[0] in elements;
      var l1 := ElementBack(elements[0], m, others.bytes + tail, l, [], roots);
      forall e | e in elements[1..] ensures ValidElement(e) {
        assert e in elements;
      }
      l' := ElementsBack(elements[1..], first.interned, tail, l1, roots + [elements[0]]);
      assert roots + [elements[0]] + elements[1..] == roots + elements;
    }
  }

  /** For every forest, what `write_sequence` writes `read_sequence` reads back. */
  lemma RoundTrip(roots: seq<Element>)
    requires (forall e {:trigger e in roots} :: e in roots ==> ValidElement(e)) && Write(roots).Some?
    ensures Read(Write(roots).value) == Some(roots)
  {
    hide ValidElement, PutElements;
    var body := PutElements(roots, map[]).value;
    var bytes := Write(roots).value;
    var tail := [Tag(END_DOCUMENT, 1)];
    assert Lockstep(map[], []);
    assert bytes[|MAGIC|..] == [Tag(START_DOCUMENT, 1)] + (body.bytes + tail);
    TagParts(START_DOCUMENT, 1);
    TagParts(END_DOCUMENT, 1);
    var first := Reading(Cursor([Tag(START_DOCUMENT, 1)] + (body.bytes + tail), []), [], []);
    assert first.at.rest[1..] == body.bytes + tail;
    OneToken(first, Reading(Cursor(body.bytes + tail, []), [], []));
    var l := ElementsBack(roots, map[], tail, [], []);
    assert [] + roots == roots;
    assert Step(Reading(Cursor(tail, l), [], roots)) == Done(roots);
  }
}
