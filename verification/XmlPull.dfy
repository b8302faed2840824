/** Capturing a document while pulling its events (`crates/aim-android-xml/src/pull.rs`, `Pull` in
    `crates/aim-android-xml/src/abx.rs`) agrees with reading its tree. */
module XmlPull {
  import opened Common
  import opened ModifiedUtf8
  import opened Abx
  import opened AbxRead
  import opened XmlNext

  // ---- pulling tokens from bytes ----

  /** The attributes that follow a start tag. */
  function PullAttrs(c: Cursor, attrs: seq<Attr>): (r: Got<seq<Attr>>)
    ensures r.Got? ==> |r.after.rest| <= |c.rest|
    decreases |c.rest|
  {
    if c.rest == [] then Bad
    else if c.rest[0] % 0x10 != ATTRIBUTE then Got(attrs, c)
    else
      var name := GetInterned(c.(rest := c.rest[1..]));
      if name.Bad? then Bad
      else
        var value := GetValue(name.after, c.rest[0] / 0x10);
        if value.Bad? then Bad else PullAttrs(value.after, attrs + [Attr(name.value, value.value)])
  }

  /** `Pull::token` inside a document, before an entity is resolved. */
  function Pull(c: Cursor): Got<Item> {
    if c.rest == [] then Bad
    else
      var event := c.rest[0] % 0x10;
      var rest := c.(rest := c.rest[1..]);
      if event == START_TAG then
        var name := GetInterned(rest);
        if name.Bad? then Bad
        else
          var attrs := PullAttrs(name.after, []);
          if attrs.Bad? then Bad else Got(Start(name.value, attrs.value), attrs.after)
      else if event == END_TAG then
        var name := GetInterned(rest);
        if name.Bad? then Bad else Got(End(name.value), name.after)
      else if event == START_DOCUMENT then Got(Content(START_DOCUMENT, None), rest)
      else if 4 <= event <= 10 then
        var text := GetUtf(rest);
        if text.Bad? then Bad else Got(Content(event, Some(text.value)), text.after)
      else Bad
  }

  /** Pulling from `c` gives these tokens and leaves `d`. */
  ghost predicate Gives(c: Cursor, items: seq<Item>, d: Cursor)
    decreases |items|
  {
    if items == [] then c == d
    else Pull(c).Got? && Pull(c).value == items[0] && Gives(Pull(c).after, items[1..], d)
  }

  lemma {:induction false} GivesMore(c: Cursor, a: seq<Item>, d: Cursor, b: seq<Item>, e: Cursor)
    requires Gives(c, a, d) && Gives(d, b, e)
    ensures Gives(c, a + b, e)
    decreases |a|
  {
    hide Pull;
    if a == [] {
      assert a + b == b;
    } else {
      GivesMore(Pull(c).after, a[1..], d, b, e);
      assert (a + b)[0] == a[0] && (a + b)[1..] == a[1..] + b;
    }
  }

  /** Tokens the pull parser knows: with text, event codes 4 to 10. */
  ghost predicate Pullable(n: Node) {
    match n
    case Child(e) => PullableIn(e)
    case Token(event, text) => 4 <= event <= 10 && text.Some?
  }

  ghost predicate PullableIn(e: Element) {
    forall n {:trigger n in e.content} :: n in e.content ==> Pullable(n)
  }

  lemma {:induction false} AttrsPulled(attrs: seq<Attr>, m: map<Text, nat>, tail: Bytes, l: seq<Text>,
      before: seq<Attr>) returns (l': seq<Text>)
    requires ValidAttrs(attrs) && Lockstep(m, l) && PutAttrs(attrs, m).Some? && tail != []
             && tail[0] % 0x10 != ATTRIBUTE
    ensures var o := PutAttrs(attrs, m).value;
            Lockstep(o.interned, l')
                && PullAttrs(Cursor(o.bytes + tail, l), before) == Got(before + attrs, Cursor(tail, l'))
    decreases |attrs|
  {
    hide Lockstep, IsText, ValidValue, PutInterned, GetInterned, PutValue, GetValue;
    if attrs == [] {
      assert [] + tail == tail && before + [] == before;
      l' := l;
    } else {
      var a := attrs[0];
      var n := PutInterned(a.name, m).value;
      var v := PutValue(a.value, n.interned).value;
      var others := PutAttrs(attrs[1..], v.interned).value;
      var all, rest := PutAttrs(attrs, m).value.bytes + tail, others.bytes + tail;
      InternedBack(a.name, m, v.bytes + rest, l);
      var l1 := GetInterned(Cursor(n.bytes + (v.bytes + rest), l)).after.interned;
      ValueBack(a.value, n.interned, rest, l1);
      TagParts(ATTRIBUTE, KindOf(a.value));
      assert all[0] == Tag(ATTRIBUTE, KindOf(a.value)) && all[1..] == n.bytes + (v.bytes + rest);
      var l2 := GetValue(Cursor(v.bytes + rest, l1), KindOf(a.value)).after.interned;
      l' := AttrsPulled(attrs[1..], v.interned, tail, l2, before + [a]);
      assert before + [a] + attrs[1..] == before + attrs;
    }
  }

  lemma StartPulled(name: Text, attrs: seq<Attr>, m: map<Text, nat>, tail: Bytes, l: seq<Text>) returns (l': seq<Text>)
    requires IsText(name) && ValidAttrs(attrs) && Lockstep(m, l) && tail != [] && tail[0] % 0x10 != ATTRIBUTE
    requires PutTag(START_TAG, 3, name, m).Some? && PutAttrs(attrs, PutTag(START_TAG, 3, name, m).value.interned).Some?
    ensures var s := PutTag(START_TAG, 3, name, m).value;
            var o := PutAttrs(attrs, s.interned).value;
            Lockstep(o.interned, l')
                && Gives(Cursor(s.bytes + (o.bytes + tail), l), [Start(name, attrs)], Cursor(tail, l'))
  {
    hide Lockstep, IsText, ValidAttrs, PutInterned, GetInterned, PutAttrs, PullAttrs;
    var n := PutInterned(name, m).value;
    var s := PutTag(START_TAG, 3, name, m).value;
    var o := PutAttrs(attrs, s.interned).value;
    var rest := o.bytes + tail;
    InternedBack(name, m, rest, l);
    var l1 := GetInterned(Cursor(n.bytes + rest, l)).after.interned;
    l' := AttrsPulled(attrs, s.interned, tail, l1, []);
    assert [] + attrs == attrs;
    TagParts(START_TAG, 3);
    assert (s.bytes + rest)[1..] == n.bytes + rest;
  }

  lemma EndPulled(name: Text, m: map<Text, nat>, tail: Bytes, l: seq<Text>) returns (l': seq<Text>)
    requires IsText(name) && Lockstep(m, l) && PutTag(END_TAG, 3, name, m).Some?
    ensures var o := PutTag(END_TAG, 3, name, m).value;
            Lockstep(o.interned, l') && Gives(Cursor(o.bytes + tail, l), [End(name)], Cursor(tail, l'))
  {
    hide Lockstep, IsText, PutInterned, GetInterned;
    var n := PutInterned(name, m).value;
    InternedBack(name, m, tail, l);
    l' := GetInterned(Cursor(n.bytes + tail, l)).after.interned;
    TagParts(END_TAG, 3);
    assert (PutTag(END_TAG, 3, name, m).value.bytes + tail)[1..] == n.bytes + tail;
  }

  lemma TokenPulled(event: nat, text: Text, tail: Bytes, l: seq<Text>)
    requires 4 <= event <= 10 && IsText(text) && PutToken(event, Some(text)).Some?
    ensures Gives(Cursor(PutToken(event, Some(text)).value + tail, l), [Content(event, Some(text))], Cursor(tail, l))
  {
    hide IsText, PutUtf, GetUtf;
    TagParts(event, 2);
    UtfBack(text, tail, l);
    assert (PutToken(event, Some(text)).value + tail)[1..] == PutUtf(text).value + tail;
  }

  /** What follows a start tag's attributes is not an attribute. */
  lemma NotAttribute(content: seq<Node>, m: map<Text, nat>, tail: Bytes)
    requires (forall n {:trigger n in content} :: n in content ==> Pullable(n)) && PutContent(content, m).Some?
    requires tail != [] && tail[0] % 0x10 != ATTRIBUTE
    ensures PutContent(content, m).value.bytes + tail != []
            && (PutContent(content, m).value.bytes + tail)[0] % 0x10 != ATTRIBUTE
  {
    hide PutUtf, PutInterned, PutAttrs;
    if content == [] {
      assert [] + tail == tail;
    } else {
      assert content[0] in content;
      TagParts(START_TAG, 3);
      match content[0]
      case Child(e) => assert PutElement(e, m).value.bytes[0] == Tag(START_TAG, 3);
      case Token(event, text) => TagParts(event, 2);
    }
  }

  lemma {:induction false} NodePulled(n: Node, m: map<Text, nat>, tail: Bytes, l: seq<Text>) returns (l': seq<Text>)
    requires ValidNode(n) && Pullable(n) && Lockstep(m, l) && PutNode(n, m).Some?
    ensures var o := PutNode(n, m).value;
            Lockstep(o.interned, l') && Gives(Cursor(o.bytes + tail, l), FlatNode(n), Cursor(tail, l'))
    decreases n
  {
    hide Lockstep, Gives, PutToken, PutElement, Flat;
    match n
    case Child(e) => l' := ElementPulled(e, m, tail, l);
    case Token(event, text) =>
      TokenPulled(event, text.value, tail, l);
      l' := l;
  }

  lemma {:induction false} ContentPulled(content: seq<Node>, m: map<Text, nat>, tail: Bytes, l: seq<Text>)
      returns (l': seq<Text>)
    requires forall n {:trigger n in content} :: n in content ==> ValidNode(n) && Pullable(n)
    requires Lockstep(m, l) && PutContent(content, m).Some?
    ensures var o := PutContent(content, m).value;
            Lockstep(o.interned, l') && Gives(Cursor(o.bytes + tail, l), FlatContent(content), Cursor(tail, l'))
    decreases content
  {
    hide Lockstep, PutNode, FlatNode, ValidNode, Pullable, Pull;
    if content == [] {
      assert [] + tail == tail;
      l' := l;
    } else {
      hide Gives;
      var first := PutNode(content[0], m).value;
      var others := PutContent(content[1..], first.interned).value;
      assert (first.bytes + others.bytes) + tail == first.bytes + (others.bytes + tail);
      assert content[0] in content;
      var l1 := NodePulled(content[0], m, others.bytes + tail, l);
      forall n | n in content[1..] ensures ValidNode(n) && Pullable(n) {
        assert n in content;
      }
      l' := ContentPulled(content[1..], first.interned, tail, l1);
      GivesMore(Cursor(first.bytes + (others.bytes + tail), l), FlatNode(content[0]), Cursor(others.bytes + tail, l1),
          FlatContent(content[1..]), Cursor(tail, l'));
    }
  }

  /** Pulling a written element gives its tokens in order. */
  lemma {:induction false} ElementPulled(e: Element, m: map<Text, nat>, tail: Bytes, l: seq<Text>)
      returns (l': seq<Text>)
    requires ValidElement(e) && PullableIn(e) && Lockstep(m, l) && PutElement(e, m).Some?
    ensures var o := PutElement(e, m).value;
            Lockstep(o.interned, l') && Gives(Cursor(o.bytes + tail, l), Flat(e), Cursor(tail, l'))
    decreases e
  {
    hide Lockstep, PutTag, PutAttrs, PutContent, IsText, ValidAttrs, Gives, ValidNode, Pullable, FlatContent;
    var start := PutTag(START_TAG, 3, e.name, m).value;
    var attrs := PutAttrs(e.attrs, start.interned).value;
    var content := PutContent(e.content, attrs.interned).value;
    var end := PutTag(END_TAG, 3, e.name, content.interned).value;
    var t1 := end.bytes + tail;
    var t2 := content.bytes + t1;
    assert PutElement(e, m).value.bytes + tail == start.bytes + (attrs.bytes + t2);
    EndIsNotAttribute(e.name, content.interned, tail);
    NotAttribute(e.content, attrs.interned, t1);
    var l1 := StartPulled(e.name, e.attrs, m, t2, l);
    var l2 := ContentPulled(e.content, attrs.interned, t1, l1);
    l' := EndPulled(e.name, content.interned, tail, l2);
    GivesMore(Cursor(t2, l1), FlatContent(e.content), Cursor(t1, l2), [End(e.name)], Cursor(tail, l'));
    GivesMore(Cursor(start.bytes + (attrs.bytes + t2), l), [Start(e.name, e.attrs)], Cursor(t2, l1),
        FlatContent(e.content) + [End(e.name)], Cursor(tail, l'));
    assert [Start(e.name, e.attrs)] + (FlatContent(e.content) + [End(e.name)]) == Flat(e);
  }

  lemma EndIsNotAttribute(name: Text, m: map<Text, nat>, tail: Bytes)
    requires PutTag(END_TAG, 3, name, m).Some?
    ensures var b := PutTag(END_TAG, 3, name, m).value.bytes + tail; b != [] && b[0] % 0x10 != ATTRIBUTE
  {
    hide PutInterned;
    TagParts(END_TAG, 3);
  }

  // ---- capturing ----

  datatype Document = Document(stack: seq<Element>, root: Option<Element>, complete: bool)

  const EMPTY := Document([], None, false)

  /** `Document::close`. */
  function CloseTop(d: Document): Document {
    if d.stack == [] then d
    else
      var e, below := d.stack[|d.stack| - 1], d.stack[..|d.stack| - 1];
      if below == [] then Document([], Some(e), true) else d.(stack := AddNode(below, Child(e)))
  }

  /** `Document::token`. */
  function Take(d: Document, t: Item): Document {
    if d.complete then d
    else match t
      case Start(name, attrs) => d.(stack := d.stack + [Element(name, attrs, [])])
      case End(_) => CloseTop(d)
      case Content(event, text) => if d.stack == [] then d else d.(stack := AddNode(d.stack, Token(event, text)))
  }

  /** The pull reader of a binary document, its tokens still to come. */
  datatype Pulling = Pulling(items: seq<Item>, depth: int, endTag: bool, doc: Document)

  datatype Reported = Reported(event: Event, after: Pulling) | Nothing

  /** The run of text `next_event` coalesces, each token captured as it is taken. */
  function JoinTake(p: Pulling, combined: Text): (r: Option<(Text, Pulling)>)
    ensures r.Some? ==> |r.value.1.items| <= |p.items|
    decreases |p.items|
  {
    if p.items == [] || !Joins(p.items[0]) then Some((combined, p))
    else
      var t := Resolved(p.items[0], true);
      if t.None? then None
      else JoinTake(p.(items := p.items[1..], doc := Take(p.doc, t.value)), if IsTextual(t.value)
          then combined + TextOf(t.value) else combined)
  }

  /** The loop of `next_event`. */
  function Loop(p: Pulling): (r: Reported)
    ensures r.Reported? ==> |r.after.items| < |p.items|
    decreases |p.items|
  {
    if p.items == [] then Nothing
    else
      var t := Resolved(p.items[0], true);
      if t.None? then Nothing
      else
        var q := p.(items := p.items[1..], doc := Take(p.doc, t.value));
        if t.value.Start? then Reported(StartEvent(t.value.name, t.value.attrs), q.(depth := q.depth + 1))
        else if t.value.End? then Reported(EndEvent(t.value.name), q.(endTag := true))
        else if BeginsText(t.value, true) then
          var run := JoinTake(q, TextOf(t.value));
          if run.None? then Nothing
          else if run.value.0 != [] then Reported(TextEvent(run.value.0), run.value.1)
          else Loop(run.value.1)
        else Loop(q)
  }

  /** `next`. */
  function NextEvent(p: Pulling): (r: Reported)
    ensures r.Reported? ==> |r.after.items| < |p.items|
  {
    Loop(if p.endTag then p.(depth := p.depth - 1, endTag := false) else p)
  }

  /** Calling `next` until the root ends; nothing if a call fails or the tokens run out. */
  function DriveToRootEnd(p: Pulling): Option<Pulling>
    decreases |p.items|
  {
    var r := NextEvent(p);
    if r.Nothing? then None
    else if r.event.EndEvent? && r.after.depth == 1 then Some(r.after)
    else DriveToRootEnd(r.after)
  }

  // ---- the same, one token at a time ----

  datatype Stop = Stop(items: seq<Item>, doc: Document)

  function UpToRootEnd(items: seq<Item>, level: int, doc: Document): Option<Stop>
    decreases |items|
  {
    if items == [] then None
    else
      var t := Resolved(items[0], true);
      if t.None? then None
      else
        var d := Take(doc, t.value);
        if t.value.End? && level == 1 then Some(Stop(items[1..], d))
        else UpToRootEnd(items[1..], if t.value.Start? then level + 1 else if t.value.End? then level - 1 else level, d)
  }

  lemma {:induction false} JoinUpTo(p: Pulling, combined: Text, level: int)
    ensures var run := JoinTake(p, combined);
            && (run.None? ==> UpToRootEnd(p.items, level, p.doc).None?)
            && (run.Some? ==>
                 UpToRootEnd(p.items, level, p.doc) == UpToRootEnd(run.value.1.items, level, run.value.1.doc)
                              && run.value.1.depth == p.depth && run.value.1.endTag == p.endTag)
    decreases |p.items|
  {
    hide Take, EntityValue;
    if p.items != [] && Joins(p.items[0]) {
      var t := Resolved(p.items[0], true);
      if t.Some? {
        JoinUpTo(p.(items := p.items[1..], doc := Take(p.doc, t.value)), if IsTextual(t.value)
            then combined + TextOf(t.value) else combined, level);
      }
    }
  }

  /** How many elements are open. */
  function Level(p: Pulling): int {
    if p.endTag then p.depth - 1 else p.depth
  }

  lemma {:induction false} LoopUpTo(p: Pulling)
    requires !p.endTag
    ensures var r := Loop(p);
            UpToRootEnd(p.items, p.depth, p.doc) ==
            if r.Nothing? then None
            else if r.event.EndEvent? && r.after.depth == 1 then Some(Stop(r.after.items, r.after.doc))
            else UpToRootEnd(r.after.items, Level(r.after), r.after.doc)
    decreases |p.items|
  {
    hide Take, EntityValue;
    if p.items != [] {
      var t := Resolved(p.items[0], true);
      if t.Some? && t.value.Content? {
        var q := p.(items := p.items[1..], doc := Take(p.doc, t.value));
        if BeginsText(t.value, true) {
          JoinUpTo(q, TextOf(t.value), p.depth);
          var run := JoinTake(q, TextOf(t.value));
          if run.Some? && run.value.0 == [] {
            LoopUpTo(run.value.1);
          }
        } else {
          LoopUpTo(q);
        }
      }
    }
  }

  /** Driving by events takes the tokens up to the one that ends the root. */
  lemma {:induction false} DriveUpTo(p: Pulling)
    ensures var d := DriveToRootEnd(p);
            UpToRootEnd(p.items, Level(p), p.doc) == if d.None? then None else Some(Stop(d.value.items, d.value.doc))
    decreases |p.items|
  {
    hide Take, EntityValue, UpToRootEnd, Loop;
    LoopUpTo(if p.endTag then p.(depth := p.depth - 1, endTag := false) else p);
    var r := NextEvent(p);
    if r.Reported? && !(r.event.EndEvent? && r.after.depth == 1) {
      DriveUpTo(r.after);
    }
  }

  // ---- what is captured ----

  /** A token as the capture keeps it: an entity is its character data. */
  function ShownToken(event: nat, text: Option<Text>): Node {
    var t := Resolved(Content(event, text), true);
    if t.Some? then Token(t.value.event, t.value.text) else Token(event, text)
  }

  function ShownNode(n: Node): Node
    decreases n
  {
    match n
    case Child(e) => Child(Shown(e))
    case Token(event, text) => ShownToken(event, text)
  }

  function ShownContent(content: seq<Node>): seq<Node>
    decreases content
  {
    if content == [] then [] else [ShownNode(content[0])] + ShownContent(content[1..])
  }

  function Shown(e: Element): Element
    decreases e
  {
    e.(content := ShownContent(e.content))
  }

  ghost predicate Inside(d: Document) {
    !d.complete && d.stack != [] && d.root.None?
  }

  function Added(d: Document, content: seq<Node>): Document
    requires d.stack != []
  {
    d.(stack := WithContent(d.stack, content))
  }

  lemma AddedMore(d: Document, n: Node, more: seq<Node>)
    requires d.stack != []
    ensures Added(Added(d, [n]), more) == Added(d, [n] + more) && Added(d, []) == d
            && Added(d, [n]).stack == AddNode(d.stack, n)
  {
    NothingAdded(d.stack);
    ContentAdded(d.stack, n, more);
    assert WithContent(d.stack, [n]) == AddNode(d.stack, n);
  }

  /** Taking an element's tokens adds the element, as shown, to the one around it. */
  lemma {:induction false} NodeTaken(n: Node, tail: seq<Item>, level: int, d: Document)
    requires AllResolve(FlatNode(n), true) && Inside(d) && level >= 1
    ensures UpToRootEnd(FlatNode(n) + tail, level, d) == UpToRootEnd(tail, level, Added(d, [ShownNode(n)]))
    decreases n
  {
    match n
    case Child(e) =>
      hide UpToRootEnd, ShownContent, FlatContent;
      var inner := Document(d.stack + [Element(e.name, e.attrs, [])], None, false);
      FlatParts(e, tail);
      StartTaken(e.name, e.attrs, FlatContent(e.content) + ([End(e.name)] + tail), level, d);
      ContentTakenIn(n, [End(e.name)] + tail, level + 1, inner);
      var full := Added(inner, ShownContent(e.content));
      assert [] + ShownContent(e.content) == ShownContent(e.content);
      assert full.stack == d.stack + [Shown(e)];
      EndTaken(e.name, tail, level + 1, full);
      assert full.stack[..|full.stack| - 1] == d.stack;
      AddedMore(d, Child(Shown(e)), []);
    case Token(event, text) => TokenTaken(event, text, tail, level, d);
  }

  lemma TokenTaken(event: nat, text: Option<Text>, tail: seq<Item>, level: int, d: Document)
    requires AllResolve(FlatNode(Token(event, text)), true) && Inside(d) && level >= 1
    ensures UpToRootEnd(FlatNode(Token(event, text)) + tail, level, d)
            == UpToRootEnd(tail, level, Added(d, [ShownNode(Token(event, text))]))
  {
    hide EntityValue;
    var t := Content(event, text);
    assert t in FlatNode(Token(event, text));
    assert Resolved(t, true).Some?;
    assert ([t] + tail)[1..] == tail;
    AddedMore(d, ShownToken(event, text), []);
  }

  lemma StartTaken(name: Text, attrs: seq<Attr>, tail: seq<Item>, level: int, d: Document)
    requires !d.complete
    ensures UpToRootEnd([Start(name, attrs)] + tail, level, d)
            == UpToRootEnd(tail, level + 1, d.(stack := d.stack + [Element(name, attrs, [])]))
  {
    assert ([Start(name, attrs)] + tail)[1..] == tail;
  }

  lemma EndTaken(name: Text, tail: seq<Item>, level: int, d: Document)
    requires level > 1 && !d.complete
    ensures UpToRootEnd([End(name)] + tail, level, d) == UpToRootEnd(tail, level - 1, CloseTop(d))
  {
    assert ([End(name)] + tail)[1..] == tail;
  }

  lemma {:induction false} ContentTakenIn(n: Node, tail: seq<Item>, level: int, d: Document)
    requires n.Child? && AllResolve(FlatNode(n), true) && Inside(d) && level >= 1
    ensures UpToRootEnd(FlatContent(n.element.content) + tail, level, d) ==
            UpToRootEnd(tail, level, Added(d, ShownContent(n.element.content)))
    decreases n, 0
  {
    hide Resolved;
    var e := n.element;
    forall t | t in FlatContent(e.content) ensures Resolved(t, true).Some? {
      assert t in Flat(e);
    }
    ContentTaken(e.content, tail, level, d);
  }

  lemma {:induction false} ContentTaken(content: seq<Node>, tail: seq<Item>, level: int, d: Document)
    requires AllResolve(FlatContent(content), true) && Inside(d) && level >= 1
    ensures UpToRootEnd(FlatContent(content) + tail, level, d) ==
            UpToRootEnd(tail, level, Added(d, ShownContent(content)))
    decreases content
  {
    hide UpToRootEnd, FlatNode, Resolved, ShownNode, Added;
    if content == [] {
      assert FlatContent(content) + tail == tail;
      AddedMore(d, Token(0, None), []);
    } else {
      var n, rest := content[0], content[1..];
      FlatFirst(content);
      Assoc(FlatNode(n), FlatContent(rest), tail);
      forall t | t in FlatNode(n) || t in FlatContent(rest) ensures Resolved(t, true).Some? {
        assert t in FlatContent(content);
      }
      NodeTaken(n, FlatContent(rest) + tail, level, d);
      AddedInside(d, ShownNode(n));
      ContentTaken(rest, tail, level, Added(d, [ShownNode(n)]));
      AddedMore(d, ShownNode(n), ShownContent(rest));
    }
  }

  lemma AddedInside(d: Document, n: Node)
    requires Inside(d)
    ensures Inside(Added(d, [n]))
  {
  }

  /** Driving over a whole document captures it. */
  lemma RootTaken(e: Element, tail: seq<Item>)
    requires AllResolve(Flat(e), true)
    ensures UpToRootEnd(Flat(e) + tail, 0, EMPTY) == Some(Stop(tail, Document([], Some(Shown(e)), true)))
  {
    hide ShownContent, FlatContent, UpToRootEnd;
    var inner := Document([Element(e.name, e.attrs, [])], None, false);
    FlatParts(e, tail);
    StartTaken(e.name, e.attrs, FlatContent(e.content) + ([End(e.name)] + tail), 0, EMPTY);
    assert EMPTY.stack + [Element(e.name, e.attrs, [])] == inner.stack;
    ContentTakenIn(Child(e), [End(e.name)] + tail, 1, inner);
    var full := Added(inner, ShownContent(e.content));
    assert [] + ShownContent(e.content) == ShownContent(e.content);
    assert full.stack == [Shown(e)];
    RootEndTaken(e.name, tail, full);
  }

  lemma RootEndTaken(name: Text, tail: seq<Item>, d: Document)
    requires !d.complete && |d.stack| == 1
    ensures UpToRootEnd([End(name)] + tail, 1, d) == Some(Stop(tail, Document([], Some(d.stack[0]), true)))
  {
    assert ([End(name)] + tail)[1..] == tail;
    assert d.stack[..0] == [];
  }

  // ---- entities that mean nothing ----

  lemma {:induction false} NodeFails(n: Node, tail: seq<Item>, level: int, d: Document)
    requires !AllResolve(FlatNode(n), true) && Inside(d) && level >= 1
    ensures UpToRootEnd(FlatNode(n) + tail, level, d).None?
    decreases n
  {
    match n
    case Child(e) =>
      hide UpToRootEnd, FlatContent;
      FlatParts(e, tail);
      StartTaken(e.name, e.attrs, FlatContent(e.content) + ([End(e.name)] + tail), level, d);
      InnerFails(e);
      ContentFailsTaking(e.content, [End(e.name)] + tail, level + 1,
          Document(d.stack + [Element(e.name, e.attrs, [])], None, false));
    case Token(event, text) =>
      hide EntityValue;
      assert ([Content(event, text)] + tail)[0] == Content(event, text);
  }

  lemma InnerFails(e: Element)
    requires !AllResolve(Flat(e), true)
    ensures !AllResolve(FlatContent(e.content), true)
  {
    hide EntityValue;
    var t :| t in Flat(e) && Resolved(t, true).None?;
    assert t in FlatContent(e.content);
  }

  lemma {:induction false} ContentFailsTaking(content: seq<Node>, tail: seq<Item>, level: int, d: Document)
    requires !AllResolve(FlatContent(content), true) && Inside(d) && level >= 1
    ensures UpToRootEnd(FlatContent(content) + tail, level, d).None?
    decreases content
  {
    hide UpToRootEnd, FlatNode, Resolved, ShownNode, Added;
    var n, rest := content[0], content[1..];
    FlatFirst(content);
    Assoc(FlatNode(n), FlatContent(rest), tail);
    if AllResolve(FlatNode(n), true) {
      NodeTaken(n, FlatContent(rest) + tail, level, d);
      AddedInside(d, ShownNode(n));
      ContentFailsTaking(rest, tail, level, Added(d, [ShownNode(n)]));
    } else {
      NodeFails(n, FlatContent(rest) + tail, level, d);
    }
  }

  lemma RootFails(e: Element, tail: seq<Item>)
    requires !AllResolve(Flat(e), true)
    ensures UpToRootEnd(Flat(e) + tail, 0, EMPTY).None?
  {
    hide UpToRootEnd, FlatContent;
    FlatParts(e, tail);
    StartTaken(e.name, e.attrs, FlatContent(e.content) + ([End(e.name)] + tail), 0, EMPTY);
    InnerFails(e);
    ContentFailsTaking(e.content, [End(e.name)] + tail, 1,
        Document(EMPTY.stack + [Element(e.name, e.attrs, [])], None, false));
  }

  // ---- the captured document normalises as the tree does ----

  lemma TokenShown(event: nat, text: Option<Text>, pending: bool)
    requires Resolved(Content(event, text), true).Some?
    ensures KeepToken(event, text, true, pending).Some?
    ensures KeepNode(ShownToken(event, text), true, pending) == KeepToken(event, text, true, pending)
  {
    hide EntityValue;
  }

  lemma {:induction false} NodeShown(n: Node, pending: bool)
    requires AllResolve(FlatNode(n), true)
    ensures KeepNode(n, true, pending).Some? && KeepNode(ShownNode(n), true, pending) == KeepNode(n, true, pending)
    decreases n
  {
    match n
    case Child(e) => NormalShown(e);
    case Token(event, text) =>
      assert Content(event, text) in FlatNode(n);
      TokenShown(event, text, pending);
  }

  lemma {:induction false} ContentShown(content: seq<Node>, pending: bool)
    requires AllResolve(FlatContent(content), true)
    ensures NormalContent(content, true, pending).Some?
    ensures NormalContent(ShownContent(content), true, pending) == NormalContent(content, true, pending)
    decreases content
  {
    if content != [] {
      hide KeepNode, ShownNode, FlatNode, Resolved;
      var n, rest := content[0], content[1..];
      forall t | t in FlatNode(n) || t in FlatContent(rest) ensures Resolved(t, true).Some? {
        assert t in FlatContent(content);
      }
      NodeShown(n, pending);
      ContentShown(rest, KeepNode(n, true, pending).value.pending);
      assert ShownContent(content)[1..] == ShownContent(rest);
    }
  }

  lemma {:induction false} NormalShown(e: Element)
    requires AllResolve(Flat(e), true)
    ensures Normal(e, true).Some? && Normal(Shown(e), true) == Normal(e, true)
    decreases e
  {
    hide Resolved;
    forall t | t in FlatContent(e.content) ensures Resolved(t, true).Some? {
      assert t in Flat(e);
    }
    ContentShown(e.content, false);
  }

  // ---- agreement ----

  /** `read_next` of a binary document with one root. */
  function ReadNext(bytes: Bytes): Option<Element> {
    var roots := Read(bytes);
    if roots.None? || |roots.value| != 1 then None else Normal(roots.value[0], true)
  }

  /** Driving the reader to the root's end and taking the document. */
  function Captured(items: seq<Item>): Option<Element> {
    var p := DriveToRootEnd(Pulling(items, 0, false, EMPTY));
    if p.None? || !p.value.doc.complete || p.value.doc.root.None? then None else Normal(p.value.doc.root.value, true)
  }

  lemma CapturedIs(e: Element, tail: seq<Item>)
    ensures Captured(Flat(e) + tail) == Normal(e, true)
  {
    hide DriveToRootEnd, UpToRootEnd, Flat, AllResolve, Normal, Shown;
    DriveUpTo(Pulling(Flat(e) + tail, 0, false, EMPTY));
    if AllResolve(Flat(e), true) {
      RootTaken(e, tail);
      NormalShown(e);
    } else {
      RootFails(e, tail);
      if Normal(e, true).Some? {
        ElementResolves(e, true);
      }
    }
  }

  /** For every written document the pull parser knows: pulling gives its tokens, and the document captured on the way
      to the root's end is the one `read_next` reads, entities and failures included. */
  lemma CaptureAgrees(e: Element) returns (interned: seq<Text>)
    requires ValidElement(e) && PullableIn(e) && Write([e]).Some?
    ensures var bytes := Write([e]).value;
            && |bytes| > 5 && Gives(Cursor(bytes[5..], []), Flat(e), Cursor([Tag(END_DOCUMENT, 1)], interned))
            && (forall tail: seq<Item> {:trigger Flat(e) + tail} :: Captured(Flat(e) + tail) == ReadNext(bytes))
  {
    hide ValidElement, PullableIn, PutElement, Gives, Flat, Captured, Normal, Read;
    RoundTrip([e]);
    var bytes := Write([e]).value;
    var o := PutElement(e, map[]).value;
    assert [e][1..] == [];
    assert PutElements([], o.interned) == Some(Out([], o.interned));
    assert o.bytes + [] == o.bytes;
    assert bytes == MAGIC + [Tag(START_DOCUMENT, 1)] + o.bytes + [Tag(END_DOCUMENT, 1)];
    assert bytes[5..] == o.bytes + [Tag(END_DOCUMENT, 1)];
    assert Lockstep(map[], []);
    interned := ElementPulled(e, map[], [Tag(END_DOCUMENT, 1)], []);
    forall tail: seq<Item> ensures Captured(Flat(e) + tail) == ReadNext(bytes) {
      CapturedIs(e, tail);
    }
    NonEmpty(e, map[]);
  }

  lemma NonEmpty(e: Element, m: map<Text, nat>)
    requires PutElement(e, m).Some?
    ensures |PutElement(e, m).value.bytes| > 0
  {
    hide PutInterned, PutAttrs, PutContent;
  }

  // ---- what can be pulled ----

  ghost predicate FromPull(t: Item) {
    t.Content? ==> t == Content(START_DOCUMENT, None) || (4 <= t.event <= 10 && t.text.Some?)
  }

  lemma {:induction false} GivenFromPull(c: Cursor, items: seq<Item>, d: Cursor)
    requires Gives(c, items, d)
    ensures forall t {:trigger t in items} :: t in items ==> FromPull(t)
    decreases |items|
  {
    if items != [] {
      hide GetInterned, PullAttrs, GetUtf;
      GivenFromPull(Pull(c).after, items[1..], d);
      assert FromPull(items[0]);
      assert items == [items[0]] + items[1..];
    }
  }

  lemma {:induction false} NodeFromPull(n: Node)
    requires ValidNode(n) && forall t {:trigger t in FlatNode(n)} :: t in FlatNode(n) ==> FromPull(t)
    ensures Pullable(n)
    decreases n
  {
    match n
    case Child(e) =>
      assert FlatNode(n) == Flat(e);
      forall t | t in Flat(e) ensures FromPull(t) {
        assert t in FlatNode(n);
      }
      ElementFromPull(e);
    case Token(event, text) =>
      assert Content(event, text) in FlatNode(n);
  }

  lemma {:induction false} ContentFromPull(content: seq<Node>)
    requires forall n {:trigger n in content} :: n in content ==> ValidNode(n)
    requires forall t {:trigger t in FlatContent(content)} :: t in FlatContent(content) ==> FromPull(t)
    ensures forall n {:trigger n in content} :: n in content ==> Pullable(n)
    decreases content
  {
    if content != [] {
      hide FromPull, Pullable, ValidNode, FlatNode;
      var n, rest := content[0], content[1..];
      forall m | m in rest ensures m in content {
      }
      assert n in content && content == [n] + rest;
      forall t | t in FlatNode(n) || t in FlatContent(rest) ensures FromPull(t) {
        assert t in FlatContent(content);
      }
      NodeFromPull(n);
      ContentFromPull(rest);
    }
  }

  lemma {:induction false} ElementFromPull(e: Element)
    requires ValidElement(e) && forall t {:trigger t in Flat(e)} :: t in Flat(e) ==> FromPull(t)
    ensures PullableIn(e)
    decreases e
  {
    hide FromPull, Pullable, ValidNode;
    forall t | t in FlatContent(e.content) ensures FromPull(t) {
      assert t in Flat(e);
    }
    ContentFromPull(e.content);
  }

  /** The tokens of a written document can be pulled exactly when each has text and a code the parser knows; any other
      token is read by the tree reader but misread, or refused, by the pull parser. */
  lemma PulledIffPullable(e: Element)
    requires ValidElement(e) && Write([e]).Some?
    ensures |Write([e]).value| > 5
    ensures (exists d: Cursor :: Gives(Cursor(Write([e]).value[5..], []), Flat(e), d)) <==> PullableIn(e)
  {
    hide Gives, Flat, ValidElement, PullableIn, PutElement, Read, Captured, FromPull;
    WrittenLength(e);
    var c := Cursor(Write([e]).value[5..], []);
    if d: Cursor :| Gives(c, Flat(e), d) {
      GivenFromPull(c, Flat(e), d);
      ElementFromPull(e);
    }
    if PullableIn(e) {
      var interned := CaptureAgrees(e);
    }
  }

  lemma {:induction false} PullableIsPossible(e: Element)
    requires PullableIn(e)
    ensures PossibleIn(e, true)
    decreases e
  {
    forall n | n in e.content ensures Possible(n, true) {
      assert Pullable(n);
      if n.Child? {
        PullableIsPossible(n.element);
      }
    }
  }

  /** Of every written document whose tokens can be pulled, `next()` reports what it reports of the normal form, and
      fails exactly when there is none. */
  lemma NormalReportsWhatIsPulled(e: Element, d: Cursor)
    requires ValidElement(e) && Write([e]).Some? && |Write([e]).value| > 5
    requires Gives(Cursor(Write([e]).value[5..], []), Flat(e), d)
    ensures Normal(e, true).None? <==> Events(Flat(e), true).None?
    ensures Normal(e, true).Some? ==> Events(Flat(Normal(e, true).value), true) == Events(Flat(e), true)
  {
    hide *;
    PulledIffPullable(e);
    PullableIsPossible(e);
    NormalReportsTheSame(e, true);
  }

  lemma WrittenLength(e: Element)
    requires Write([e]).Some?
    ensures |Write([e]).value| > 5
  {
    hide PutElement;
    assert [e][1..] == [];
    NonEmpty(e, map[]);
  }

  // ---- written normal forms ----

  lemma EntityIsText(name: Text)
    requires EntityValue(name).Some?
    ensures IsText(EntityValue(name).value)
  {
  }

  lemma TokenValid(event: nat, text: Option<Text>, binary: bool, pending: bool)
    requires ValidNode(Token(event, text)) && KeepToken(event, text, binary, pending).Some?
    ensures forall n {:trigger n in KeepToken(event, text, binary, pending).value.nodes} ::
              n in KeepToken(event, text, binary, pending).value.nodes ==> ValidNode(n)
  {
    hide EntityValue;
    if text.Some? && EntityValue(text.value).Some? {
      EntityIsText(text.value);
    }
  }

  lemma {:induction false} NodeValid(n: Node, binary: bool, pending: bool)
    requires ValidNode(n) && KeepNode(n, binary, pending).Some?
    ensures forall m {:trigger m in KeepNode(n, binary, pending).value.nodes} ::
            m in KeepNode(n, binary, pending).value.nodes ==> ValidNode(m)
    decreases n
  {
    match n
    case Child(e) => NormalValid(e, binary);
    case Token(event, text) => TokenValid(event, text, binary, pending);
  }

  lemma {:induction false} ContentValid(content: seq<Node>, binary: bool, pending: bool)
    requires (forall n {:trigger n in content} :: n in content ==> ValidNode(n))
             && NormalContent(content, binary, pending).Some?
    ensures forall n {:trigger n in NormalContent(content, binary, pending).value} ::
              n in NormalContent(content, binary, pending).value ==> ValidNode(n)
    decreases content
  {
    if content != [] {
      hide KeepNode, ValidNode;
      var n, rest := content[0], content[1..];
      forall m | m in rest ensures m in content {
      }
      assert n in content;
      NodeValid(n, binary, pending);
      ContentValid(rest, binary, KeepNode(n, binary, pending).value.pending);
    }
  }

  /** The normal form of a document that can be written can be written as well. */
  lemma {:induction false} NormalValid(e: Element, binary: bool)
    requires ValidElement(e) && Normal(e, binary).Some?
    ensures ValidElement(Normal(e, binary).value)
    decreases e
  {
    hide ValidNode;
    ContentValid(e.content, binary, false);
  }

  /** A written normal form reads as itself. */
  lemma ReadNextFixed(e: Element, binary: bool)
    requires ValidElement(e) && (!binary ==> TextualIn(e)) && Normal(e, binary).Some?
             && Write([Normal(e, binary).value]).Some?
    ensures ReadNext(Write([Normal(e, binary).value]).value) == Some(Normal(e, binary).value)
  {
    hide Read, Write, Normal, ValidElement, TextualIn;
    var n := Normal(e, binary).value;
    NormalValid(e, binary);
    RoundTrip([n]);
    NormalTwice(e, binary);
  }
}
