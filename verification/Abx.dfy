/** Binary XML (`crates/aim-android-xml/src/abx.rs`): the writer and the reader on values.

    Numbers are kept as their bit patterns, which is all the format moves. */
module Abx {
  import opened Common
  import opened ModifiedUtf8

  type Text = seq<nat>
  type Bytes = seq<nat>

  datatype Value =
    | Null
    | String(text: Text)
    | Interned(text: Text)
    | BytesHex(bytes: Bytes)
    | BytesBase64(bytes: Bytes)
    | Int(bits: nat)
    | IntHex(bits: nat)
    | Long(bits: nat)
    | LongHex(bits: nat)
    | Float(bits: nat)
    | Double(bits: nat)
    | Bool(on: bool)

  datatype Attr = Attr(name: Text, value: Value)
  datatype Node = Child(element: Element) | Token(event: nat, text: Option<Text>)
  datatype Element = Element(name: Text, attrs: seq<Attr>, content: seq<Node>)

  const MAGIC: Bytes := [0x41, 0x42, 0x58, 0]
  const START_DOCUMENT: nat := 0
  const END_DOCUMENT: nat := 1
  const START_TAG: nat := 2
  const END_TAG: nat := 3
  const ATTRIBUTE: nat := 15

  /** The index that marks a new string; also how many a document can intern. */
  const NEW: nat := 0xffff

  const WORD: nat := 0x1_0000_0000

  ghost predicate AreBytes(b: Bytes) {
    forall i {:trigger b[i]} :: 0 <= i < |b| ==> b[i] < 0x100
  }

  ghost predicate ValidValue(v: Value) {
    match v
    case String(s) => IsText(s)
    case Interned(s) => IsText(s)
    case BytesHex(b) => AreBytes(b)
    case BytesBase64(b) => AreBytes(b)
    case Int(n) => n < WORD
    case IntHex(n) => n < WORD
    case Long(n) => n < WORD * WORD
    case LongHex(n) => n < WORD * WORD
    case Float(n) => n < WORD
    case Double(n) => n < WORD * WORD
    case _ => true
  }

  ghost predicate ValidAttrs(attrs: seq<Attr>) {
    forall i {:trigger attrs[i]} :: 0 <= i < |attrs| ==> IsText(attrs[i].name) && ValidValue(attrs[i].value)
  }

  /** Content tokens use the event codes that are not the format's own. */
  ghost predicate ValidNode(n: Node) {
    match n
    case Child(e) => ValidElement(e)
    case Token(event, text) => 3 < event < 15 && (text.Some? ==> IsText(text.value))
  }

  ghost predicate ValidElement(e: Element) {
    IsText(e.name) && ValidAttrs(e.attrs) && forall n {:trigger n in e.content} :: n in e.content ==> ValidNode(n)
  }

  // ---- numbers ----

  function PutBE(v: nat, k: nat): (r: Bytes)
    ensures |r| == k
  {
    if k == 0 then [] else PutBE(v / 0x100, k - 1) + [v % 0x100]
  }

  function GetBE(b: Bytes): nat {
    if b == [] then 0 else GetBE(b[..|b| - 1]) * 0x100 + b[|b| - 1]
  }

  function Pow256(k: nat): nat {
    if k == 0 then 1 else Pow256(k - 1) * 0x100
  }

  lemma {:induction false} BERoundTrip(v: nat, k: nat)
    requires v < Pow256(k)
    ensures GetBE(PutBE(v, k)) == v
  {
    if k > 0 {
      var b := PutBE(v, k);
      BERoundTrip(v / 0x100, k - 1);
      assert b[..|b| - 1] == PutBE(v / 0x100, k - 1);
    }
  }

  lemma Sizes()
    ensures Pow256(2) == 0x10000 && Pow256(4) == WORD && Pow256(8) == WORD * WORD
  {
    assert Pow256(3) == 0x1000000;
    assert Pow256(4) == WORD;
    assert Pow256(6) == WORD * 0x10000;
  }

  // ---- the writer ----

  /** What is written, and the strings interned after it. */
  datatype Out = Out(bytes: Bytes, interned: map<Text, nat>)

  /** `Writer::len`. */
  function PutLen(n: nat): Option<Bytes> {
    if n <= 0xffff then Some(PutBE(n, 2)) else None
  }

  /** `Writer::utf`. */
  function PutUtf(s: Text): Option<Bytes> {
    var b := EncodeUtf(s);
    var len := PutLen(|b|);
    if len.None? then None else Some(len.value + b)
  }

  /** `Writer::interned`. */
  function PutInterned(s: Text, m: map<Text, nat>): Option<Out> {
    if s in m then Some(Out(PutBE(m[s], 2), m))
    else
      var utf := PutUtf(s);
      if utf.None? then None
      else Some(Out(PutBE(NEW, 2) + utf.value, if |m| < NEW then m[s := |m|] else m))
  }

  function PutBytes(b: Bytes): Option<Bytes> {
    var len := PutLen(|b|);
    if len.None? then None else Some(len.value + b)
  }

  function With(b: Option<Bytes>, m: map<Text, nat>): Option<Out> {
    if b.None? then None else Some(Out(b.value, m))
  }

  function KindOf(v: Value): nat {
    match v
    case Null => 1
    case String(_) => 2
    case Interned(_) => 3
    case BytesHex(_) => 4
    case BytesBase64(_) => 5
    case Int(_) => 6
    case IntHex(_) => 7
    case Long(_) => 8
    case LongHex(_) => 9
    case Float(_) => 10
    case Double(_) => 11
    case Bool(on) => if on then 12 else 13
  }

  function PutValue(v: Value, m: map<Text, nat>): Option<Out> {
    match v
    case Null => Some(Out([], m))
    case String(s) => With(PutUtf(s), m)
    case Interned(s) => PutInterned(s, m)
    case BytesHex(b) => With(PutBytes(b), m)
    case BytesBase64(b) => With(PutBytes(b), m)
    case Int(n) => Some(Out(PutBE(n, 4), m))
    case IntHex(n) => Some(Out(PutBE(n, 4), m))
    case Long(n) => Some(Out(PutBE(n, 8), m))
    case LongHex(n) => Some(Out(PutBE(n, 8), m))
    case Float(n) => Some(Out(PutBE(n, 4), m))
    case Double(n) => Some(Out(PutBE(n, 8), m))
    case Bool(_) => Some(Out([], m))
  }

  /** A token's byte: its event below, its value's type above. */
  function Tag(event: nat, kind: nat): nat {
    event + 0x10 * kind
  }

  /** One thing written after another. */
  function Then(a: Option<Out>, b: Option<Out>): Option<Out> {
    if a.None? || b.None? then None else Some(Out(a.value.bytes + b.value.bytes, b.value.interned))
  }

  function State(a: Option<Out>, m: map<Text, nat>): map<Text, nat> {
    if a.None? then m else a.value.interned
  }

  function PutTag(event: nat, kind: nat, name: Text, m: map<Text, nat>): Option<Out> {
    var n := PutInterned(name, m);
    if n.None? then None else Some(Out([Tag(event, kind)] + n.value.bytes, n.value.interned))
  }

  /** `Writer::attribute`. */
  function PutAttr(a: Attr, m: map<Text, nat>): Option<Out> {
    var name := PutTag(ATTRIBUTE, KindOf(a.value), a.name, m);
    Then(name, PutValue(a.value, State(name, m)))
  }

  function PutAttrs(attrs: seq<Attr>, m: map<Text, nat>): Option<Out> {
    if attrs == [] then Some(Out([], m))
    else
      var first := PutAttr(attrs[0], m);
      Then(first, PutAttrs(attrs[1..], State(first, m)))
  }

  function PutToken(event: nat, text: Option<Text>): Option<Bytes> {
    if text.None? then Some([Tag(event, 1)])
    else
      var utf := PutUtf(text.value);
      if utf.None? then None else Some([Tag(event, 2)] + utf.value)
  }

  function PutNode(n: Node, m: map<Text, nat>): Option<Out>
    decreases n
  {
    match n
    case Child(e) => PutElement(e, m)
    case Token(event, text) => With(PutToken(event, text), m)
  }

  function PutContent(content: seq<Node>, m: map<Text, nat>): Option<Out>
    decreases content
  {
    if content == [] then Some(Out([], m))
    else
      var first := PutNode(content[0], m);
      Then(first, PutContent(content[1..], State(first, m)))
  }

  /** `Writer::element`: its start tag, attributes, content and end tag. */
  function PutElement(e: Element, m: map<Text, nat>): Option<Out>
    decreases e
  {
    var start := PutTag(START_TAG, 3, e.name, m);
    var attrs := PutAttrs(e.attrs, State(start, m));
    var content := PutContent(e.content, State(attrs, m));
    Then(start, Then(attrs, Then(content, PutTag(END_TAG, 3, e.name, State(content, m)))))
  }

  function PutElements(roots: seq<Element>, m: map<Text, nat>): Option<Out> {
    if roots == [] then Some(Out([], m))
    else
      var first := PutElement(roots[0], m);
      Then(first, PutElements(roots[1..], State(first, m)))
  }

  /** `write_sequence`. */
  function Write(roots: seq<Element>): Option<Bytes> {
    var body := PutElements(roots, map[]);
    if body.None? then None else Some(MAGIC + [Tag(START_DOCUMENT, 1)] + body.value.bytes + [Tag(END_DOCUMENT, 1)])
  }
}
