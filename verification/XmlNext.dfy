/** What `next()` reports of a document, and the normal form that keeps it (`normalize_next` in
    `crates/aim-android-xml/src/lib.rs`, `next_event` and `entity` in `crates/aim-android-xml/src/pull.rs`).

    Documents are element trees as the readers give them; a text document's tree has text, character data,
    comments and processing instructions only. */
module XmlNext {
  import opened Common
  import opened ModifiedUtf8
  import opened Abx

  const TEXT: nat := 4
  const CDSECT: nat := 5
  const ENTITY_REF: nat := 6
  const PROCESSING_INSTRUCTION: nat := 8
  const COMMENT: nat := 9

  // ---- entities ----

  function Digits(s: Text): Option<nat> {
    if s == [] then None
    else if !(48 <= s[|s| - 1] <= 57) then None
    else if |s| == 1 then Some(s[0] - 48)
    else
      var high := Digits(s[..|s| - 1]);
      if high.None? then None else Some(high.value * 10 + (s[|s| - 1] - 48))
  }

  /** `str::parse::<i32>`. */
  function ParseInt(s: Text): Option<int> {
    if s != [] && s[0] == 45 then
      var v := Digits(s[1..]);
      var n: int := if v.Some? then v.value else 0;
      if v.Some? && n <= 0x8000_0000 then Some(-n) else None
    else
      var v := Digits(if s != [] && s[0] == 43 then s[1..] else s);
      if v.Some? && v.value <= 0x7fff_ffff then Some(v.value) else None
  }

  const LT: Text := [108, 116]
  const GT: Text := [103, 116]
  const AMP: Text := [97, 109, 112]
  const APOS: Text := [97, 112, 111, 115]
  const QUOT: Text := [113, 117, 111, 116]

  /** `entity`: a named character, or a decimal reference cut to one UTF-16 unit. */
  function EntityValue(name: Text): Option<Text> {
    if name == LT then Some([60])
    else if name == GT then Some([62])
    else if name == AMP then Some([38])
    else if name == APOS then Some([39])
    else if name == QUOT then Some([34])
    else if name == [] || name[0] != 35 then None
    else
      var v := ParseInt(name[1..]);
      if v.None? then None
      else
        var unit := v.value % 0x10000;
        if IsChar(unit) then Some([unit]) else None
  }

  /** The five names. */
  lemma NamedEntities()
    ensures EntityValue(Ascii("lt")) == Some(Ascii("<")) && EntityValue(Ascii("gt")) == Some(Ascii(">"))
    ensures EntityValue(Ascii("amp")) == Some(Ascii("&")) && EntityValue(Ascii("quot")) == Some(Ascii("\""))
    ensures EntityValue(Ascii("apos")) == Some(Ascii("'"))
  {
    assert Ascii("lt") == LT && Ascii("gt") == GT && Ascii("amp") == AMP && Ascii("apos") == APOS
           && Ascii("quot") == QUOT;
    assert Ascii("<") == [60] && Ascii(">") == [62] && Ascii("&") == [38] && Ascii("'") == [39] && Ascii("\"") == [34];
    assert LT[0] != GT[0] && |LT| == |GT| == 2 && |AMP| == 3 && |APOS| == |QUOT| == 4 && APOS[0] != QUOT[0];
  }

  lemma {:induction false} DigitsOfDecimal(n: nat)
    ensures Digits(Decimal(n)) == Some(n)
  {
    if n >= 10 {
      DigitsOfDecimal(n / 10);
      var r := Decimal(n);
      assert r[..|r| - 1] == Decimal(n / 10);
    }
  }

  /** A reference to a number is the character of its low 16 bits, if they are one; to a number past 31 bits it is
      none. */
  lemma NumberedEntity(n: nat)
    ensures EntityValue(Ascii("#") + Decimal(n)) ==
            if n <= 0x7fff_ffff && IsChar(n % 0x10000) then Some([n % 0x10000]) else None
    ensures n <= 0xffff && IsChar(n) ==> EntityValue(Ascii("#") + Decimal(n)) == Some([n])
  {
    hide Decimal, Digits, IsChar;
    DigitsOfDecimal(n);
    var name := Ascii("#") + Decimal(n);
    assert name[0] == 35 && name[1..] == Decimal(n);
    assert LT[0] != 35 && GT[0] != 35 && AMP[0] != 35 && APOS[0] != 35 && QUOT[0] != 35;
  }

  /** A negative one counts back from the end of the 16 bits. */
  lemma NegativeEntity(n: nat)
    ensures EntityValue(Ascii("#-") + Decimal(n)) ==
            if n <= 0x8000_0000 && IsChar((0x1_0000_0000 - n) % 0x10000)
            then Some([(0x1_0000_0000 - n) % 0x10000]) else None
  {
    hide Decimal, Digits, IsChar;
    DigitsOfDecimal(n);
    var name := Ascii("#-") + Decimal(n);
    assert name[0] == 35 && name[1..] == [45] + Decimal(n) && name[1..][1..] == Decimal(n);
    assert LT[0] != 35 && GT[0] != 35 && AMP[0] != 35 && APOS[0] != 35 && QUOT[0] != 35;
    if n <= 0x8000_0000 {
      assert (0 - n) % 0x10000 == (0x1_0000_0000 - n) % 0x10000;
    }
  }

  // ---- the normal form ----

  /** What the pending text becomes, and the nodes kept. */
  datatype Kept = Kept(pending: bool, nodes: seq<Node>)

  /** One node of `normalize_next`'s loop that is not an element. */
  function KeepToken(event: nat, text: Option<Text>, binary: bool, pending: bool): Option<Kept> {
    if event == TEXT then Some(Kept(true, [Token(event, text)]))
    else if event == CDSECT then
      if !binary || pending then Some(Kept(true, [Token(TEXT, text)])) else Some(Kept(pending, []))
    else if event == ENTITY_REF && text.Some? && binary then
      var value := EntityValue(text.value);
      if value.None? then None
      else if !pending then Some(Kept(pending, []))
      else Some(Kept(pending, [Token(TEXT, Some(value.value))]))
    else if event == COMMENT || event == PROCESSING_INSTRUCTION then Some(Kept(pending, [Token(event, text)]))
    else Some(Kept(false, [Token(event, text)]))
  }

  function KeepNode(n: Node, binary: bool, pending: bool): Option<Kept>
    decreases n
  {
    match n
    case Child(e) =>
      var child := Normal(e, binary);
      if child.None? then None else Some(Kept(false, [Child(child.value)]))
    case Token(event, text) => KeepToken(event, text, binary, pending)
  }

  function NormalContent(content: seq<Node>, binary: bool, pending: bool): Option<seq<Node>>
    decreases content
  {
    if content == [] then Some([])
    else
      var first := KeepNode(content[0], binary, pending);
      if first.None? then None
      else
        var rest := NormalContent(content[1..], binary, first.value.pending);
        if rest.None? then None else Some(first.value.nodes + rest.value)
  }

  /** `normalize_next`. */
  function Normal(e: Element, binary: bool): Option<Element>
    decreases e
  {
    var content := NormalContent(e.content, binary, false);
    if content.None? then None else Some(e.(content := content.value))
  }

  // ---- what next() reports ----

  datatype Item = Start(name: Text, attrs: seq<Attr>) | End(name: Text) | Content(event: nat, text: Option<Text>)

  datatype Event = StartEvent(name: Text, attrs: seq<Attr>) | EndEvent(name: Text) | TextEvent(text: Text)

  function FlatNode(n: Node): seq<Item>
    decreases n
  {
    match n
    case Child(e) => Flat(e)
    case Token(event, text) => [Content(event, text)]
  }

  function FlatContent(content: seq<Node>): seq<Item>
    decreases content
  {
    if content == [] then [] else FlatNode(content[0]) + FlatContent(content[1..])
  }

  /** The tokens of an element in document order. */
  function Flat(e: Element): seq<Item>
    decreases e
  {
    [Start(e.name, e.attrs)] + FlatContent(e.content) + [End(e.name)]
  }

  /** The token as it is read: a binary document's entity is resolved to character data. */
  function Resolved(t: Item, binary: bool): Option<Item> {
    if t.Content? && t.event == ENTITY_REF && t.text.Some? && binary then
      var value := EntityValue(t.text.value);
      if value.None? then None else Some(Content(CDSECT, Some(value.value)))
    else Some(t)
  }

  /** What coalesces with text, by the raw event that is peeked at. */
  predicate Joins(t: Item) {
    t.Content? && t.event in {TEXT, CDSECT, ENTITY_REF, COMMENT, PROCESSING_INSTRUCTION}
  }

  function TextOf(t: Item): Text
    requires t.Content?
  {
    if t.text.Some? then t.text.value else []
  }

  predicate IsTextual(t: Item) {
    t.Content? && t.event in {TEXT, CDSECT}
  }

  datatype Joined = Joined(text: Text, rest: seq<Item>)

  /** The rest of a run of text. */
  function Join(items: seq<Item>, binary: bool, combined: Text): (r: Option<Joined>)
    ensures r.Some? ==> |r.value.rest| <= |items|
  {
    if items == [] || !Joins(items[0]) then Some(Joined(combined, items))
    else
      var t := Resolved(items[0], binary);
      if t.None? then None
      else Join(items[1..], binary, if IsTextual(t.value) then combined + TextOf(t.value) else combined)
  }

  predicate BeginsText(t: Item, binary: bool) {
    t.Content? && (t.event == TEXT || (t.event == CDSECT && !binary))
  }

  /** All that repeated calls of `next()` report, or nothing if one fails. */
  function Events(items: seq<Item>, binary: bool): Option<seq<Event>>
    decreases |items|
  {
    if items == [] then Some([])
    else
      var t := Resolved(items[0], binary);
      if t.None? then None
      else if t.value.Start? then Before([StartEvent(t.value.name, t.value.attrs)], Events(items[1..], binary))
      else if t.value.End? then Before([EndEvent(t.value.name)], Events(items[1..], binary))
      else if BeginsText(t.value, binary) then
        var run := Join(items[1..], binary, TextOf(t.value));
        if run.None? then None
        else Before(Flush(Some(run.value.text)), Events(run.value.rest, binary))
      else Events(items[1..], binary)
  }

  function Before(events: seq<Event>, rest: Option<seq<Event>>): Option<seq<Event>> {
    if rest.None? then None else Some(events + rest.value)
  }

  /** A run of text is reported if it is not empty. */
  function Flush(run: Option<Text>): seq<Event> {
    if run.Some? && run.value != [] then [TextEvent(run.value)] else []
  }

  // ---- what the text of a binary document is ----

  /** A token that can stand in a run of text: text (4), character data (5), a reference to a known entity (6), an
      instruction (8) or a comment (9). */
  predicate InRun(t: Item) {
    t.Content? && t.event in {4, 5, 6, 8, 9} && (t.event == 6 && t.text.Some? ==> EntityValue(t.text.value).Some?)
  }

  /** What it adds: its text or the entity's character; instructions and comments add nothing. */
  function Shown(t: Item): Text
    requires InRun(t)
  {
    if t.text.None? || t.event in {8, 9} then []
    else if t.event == 6 then EntityValue(t.text.value).value
    else t.text.value
  }

  function ShownAll(run: seq<Item>): Text
    requires forall t :: t in run ==> InRun(t)
  {
    if run == [] then [] else Shown(run[0]) + ShownAll(run[1..])
  }

  lemma {:induction false} RunJoined(run: seq<Item>, rest: seq<Item>, combined: Text)
    requires forall t :: t in run ==> InRun(t)
    requires rest == [] || !(rest[0].Content? && rest[0].event in {4, 5, 6, 8, 9})
    ensures Join(run + rest, true, combined) == Some(Joined(combined + ShownAll(run), rest))
  {
    if run == [] {
      assert run + rest == rest && combined + [] == combined;
    } else {
      var all := run + rest;
      assert run[0] in run && all[0] == run[0] && all[1..] == run[1..] + rest;
      RunJoined(run[1..], rest, combined + Shown(run[0]));
      assert combined + Shown(run[0]) + ShownAll(run[1..]) == combined + ShownAll(run);
      assert combined + [] == combined;
    }
  }

  /** Text and all that can follow it in a run is reported at once, if there is any. */
  lemma TextReported(first: Item, run: seq<Item>, rest: seq<Item>)
    requires first.Content? && first.event == 4 && forall t :: t in run ==> InRun(t)
    requires rest == [] || !(rest[0].Content? && rest[0].event in {4, 5, 6, 8, 9})
    ensures var text := Shown(first) + ShownAll(run);
            Events([first] + run + rest, true) ==
            Before(if text == [] then [] else [TextEvent(text)], Events(rest, true))
  {
    var items := [first] + run + rest;
    assert items[0] == first && items[1..] == run + rest;
    RunJoined(run, rest, Shown(first));
  }

  /** Outside a run no other content is reported. */
  lemma NothingReported(t: Item, rest: seq<Item>)
    requires t.Content? && t.event != 4 && (t.event == 6 && t.text.Some? ==> EntityValue(t.text.value).Some?)
    ensures Events([t] + rest, true) == Events(rest, true)
  {
    assert ([t] + rest)[1..] == rest;
  }

  // ---- the same, one token at a time ----

  /** `run` is the text being coalesced, if any. */
  function Scan(items: seq<Item>, binary: bool, run: Option<Text>): Option<seq<Event>>
    decreases |items|
  {
    if items == [] then Some(Flush(run))
    else
      var raw, t := items[0], Resolved(items[0], binary);
      if t.None? then None
      else if run.Some? && Joins(raw) then
        Scan(items[1..], binary, Some(if IsTextual(t.value) then run.value + TextOf(t.value) else run.value))
      else if t.value.Start?
          then Before(Flush(run) + [StartEvent(t.value.name, t.value.attrs)], Scan(items[1..], binary, None))
      else if t.value.End? then Before(Flush(run) + [EndEvent(t.value.name)], Scan(items[1..], binary, None))
      else if BeginsText(t.value, binary) then Before(Flush(run), Scan(items[1..], binary, Some(TextOf(t.value))))
      else Before(Flush(run), Scan(items[1..], binary, None))
  }

  lemma {:induction false} JoinScan(items: seq<Item>, binary: bool, combined: Text)
    ensures var run := Join(items, binary, combined);
            Scan(items, binary, Some(combined)) ==
            if run.None? then None else Before(Flush(Some(run.value.text)), Scan(run.value.rest, binary, None))
  {
    if items != [] && Joins(items[0]) {
      var t := Resolved(items[0], binary);
      if t.Some? {
        JoinScan(items[1..], binary, if IsTextual(t.value) then combined + TextOf(t.value) else combined);
      }
    } else if items != [] {
      NotJoined(items, binary, combined);
    } else {
      assert Flush(Some(combined)) + [] == Flush(Some(combined));
    }
  }

  lemma NotJoined(items: seq<Item>, binary: bool, combined: Text)
    requires items != [] && !Joins(items[0])
    ensures Scan(items, binary, Some(combined)) == Before(Flush(Some(combined)), Scan(items, binary, None))
  {
    hide EntityValue;
    var rest := Scan(items[1..], binary, None);
    assert Flush(None) == [];
    if rest.Some? {
      assert forall e: seq<Event> :: [] + e == e;
      assert forall e: seq<Event> ::
             (Flush(Some(combined)) + e) + rest.value == Flush(Some(combined)) + (e + rest.value);
    }
  }

  /** Reporting text a run at a time is reporting it a token at a time. */
  lemma {:induction false} EventsScan(items: seq<Item>, binary: bool)
    ensures Events(items, binary) == Scan(items, binary, None)
    decreases |items|
  {
    if items != [] {
      var t := Resolved(items[0], binary);
      if t.Some? {
        assert forall e: seq<Event> :: [] + e == e;
        if BeginsText(t.value, binary) {
          JoinScan(items[1..], binary, TextOf(t.value));
          var run := Join(items[1..], binary, TextOf(t.value));
          if run.Some? {
            EventsScan(run.value.rest, binary);
          }
        } else {
          EventsScan(items[1..], binary);
        }
      }
    }
  }

  // ---- the normal form keeps what next() reports ----

  /** Two token sequences, one of the document and one of a binary one, that report the same from any point of a run. */
  ghost predicate Same(a: seq<Item>, b: seq<Item>, binary: bool) {
    forall run: Option<Text> {:trigger Scan(a, binary, run)} :: Scan(a, binary, run) == Scan(b, true, run)
  }

  lemma SameAfter(t: Item, a: seq<Item>, b: seq<Item>, binary: bool)
    requires Scan(a, binary, None) == Scan(b, true, None) && !t.Content?
    ensures Same([t] + a, [t] + b, binary)
  {
    forall run: Option<Text> ensures Scan([t] + a, binary, run) == Scan([t] + b, true, run) {
      assert ([t] + a)[1..] == a && ([t] + b)[1..] == b;
    }
  }

  /** What a text document's tree can hold: text, character data, comments and processing instructions. */
  ghost predicate Textual(n: Node) {
    match n
    case Child(e) => TextualIn(e)
    case Token(event, _) => event in {TEXT, CDSECT, COMMENT, PROCESSING_INSTRUCTION}
  }

  ghost predicate TextualIn(e: Element) {
    forall n {:trigger n in e.content} :: n in e.content ==> Textual(n)
  }

  /** A text document's tree, or a binary one whose entities have names. */
  ghost predicate Possible(n: Node, binary: bool) {
    match n
    case Child(e) => PossibleIn(e, binary)
    case Token(event, text) => if binary then event == ENTITY_REF ==> text.Some? else Textual(n)
  }

  ghost predicate PossibleIn(e: Element, binary: bool) {
    forall n {:trigger n in e.content} :: n in e.content ==> Possible(n, binary)
  }

  /** The text a token leaves pending. */
  function RunAfter(event: nat, text: Option<Text>, binary: bool, run: Option<Text>): Option<Text> {
    var t := Resolved(Content(event, text), binary);
    if t.None? then None
    else if run.Some? && Joins(Content(event, text))
        then Some(if IsTextual(t.value) then run.value + TextOf(t.value) else run.value)
    else if BeginsText(t.value, binary) then Some(TextOf(t.value))
    else None
  }

  lemma TokenScan(event: nat, text: Option<Text>, binary: bool, run: Option<Text>, tail: seq<Item>)
    requires Resolved(Content(event, text), binary).Some?
    ensures Scan([Content(event, text)] + tail, binary, run) ==
            var after := RunAfter(event, text, binary, run);
            if run.Some? && Joins(Content(event, text)) then Scan(tail, binary, after)
                else Before(Flush(run), Scan(tail, binary, after))
  {
    hide EntityValue;
    assert ([Content(event, text)] + tail)[1..] == tail;
  }

  /** A token and what is kept of it report the same, and leave the same text pending. */
  lemma TokenKept(event: nat, text: Option<Text>, binary: bool, run: Option<Text>, a: seq<Item>, b: seq<Item>)
    requires Possible(Token(event, text), binary) && KeepToken(event, text, binary, run.Some?).Some?
    requires var after := RunAfter(event, text, binary, run); Scan(a, binary, after) == Scan(b, true, after)
    ensures var k := KeepToken(event, text, binary, run.Some?).value;
            && k.pending == RunAfter(event, text, binary, run).Some?
            && Scan([Content(event, text)] + a, binary, run) == Scan(FlatContent(k.nodes) + b, true, run)
  {
    hide EntityValue, Scan;
    var k := KeepToken(event, text, binary, run.Some?).value;
    TokenScan(event, text, binary, run, a);
    if k.nodes == [] {
      assert FlatContent(k.nodes) + b == b;
      if Scan(a, binary, None).Some? {
        assert [] + Scan(a, binary, None).value == Scan(a, binary, None).value;
      }
    } else {
      var n := k.nodes[0];
      assert k.nodes == [n] && k.nodes[1..] == [];
      assert FlatContent(k.nodes) + b == [Content(n.event, n.text)] + b;
      TokenScan(n.event, n.text, true, run, b);
    }
  }

  lemma {:induction false} FlatAppend(a: seq<Node>, b: seq<Node>)
    ensures FlatContent(a + b) == FlatContent(a) + FlatContent(b)
    decreases |a|
  {
    if a == [] {
      assert a + b == b;
    } else {
      FlatAppend(a[1..], b);
      assert (a + b)[0] == a[0] && (a + b)[1..] == a[1..] + b;
    }
  }

  // ---- documents next() fails on ----

  /** A failure further on is a failure. */
  lemma {:induction false} FailsLater(items: seq<Item>, tail: seq<Item>, binary: bool, run: Option<Text>)
    requires forall r: Option<Text> {:trigger Scan(tail, binary, r)} :: Scan(tail, binary, r).None?
    ensures Scan(items + tail, binary, run).None?
    decreases |items|
  {
    if items == [] {
      assert items + tail == tail;
    } else {
      hide EntityValue;
      assert (items + tail)[0] == items[0] && (items + tail)[1..] == items[1..] + tail;
      var t := Resolved(items[0], binary);
      if t.Some? {
        FailsLater(items[1..], tail, binary, None);
        if t.value.Content? {
          FailsLater(items[1..], tail, binary, Some(TextOf(t.value)));
          if run.Some? {
            FailsLater(items[1..], tail, binary,
                Some(if IsTextual(t.value) then run.value + TextOf(t.value) else run.value));
          }
        }
      }
    }
  }

  lemma FailsAfterEnd(name: Text, tail: seq<Item>, binary: bool)
    requires Scan(tail, binary, None).None?
    ensures forall r: Option<Text> {:trigger Scan([End(name)] + tail, binary, r)} ::
            Scan([End(name)] + tail, binary, r).None?
  {
    forall r: Option<Text> ensures Scan([End(name)] + tail, binary, r).None? {
      assert ([End(name)] + tail)[1..] == tail;
    }
  }

  lemma PendingIs(event: nat, text: Option<Text>, binary: bool, run: Option<Text>)
    requires Possible(Token(event, text), binary) && KeepToken(event, text, binary, run.Some?).Some?
    ensures Resolved(Content(event, text), binary).Some?
    ensures KeepToken(event, text, binary, run.Some?).value.pending == RunAfter(event, text, binary, run).Some?
  {
    hide EntityValue;
  }

  lemma BadEntity(event: nat, text: Option<Text>, binary: bool, pending: bool, run: Option<Text>, tail: seq<Item>)
    requires KeepToken(event, text, binary, pending).None?
    ensures Scan([Content(event, text)] + tail, binary, run).None?
  {
    hide EntityValue;
  }

  /** The element's own tokens, then the rest. */
  lemma FlatParts(e: Element, tail: seq<Item>)
    ensures Flat(e) + tail == [Start(e.name, e.attrs)] + (FlatContent(e.content) + ([End(e.name)] + tail))
  {
  }

  lemma ScanStart(name: Text, attrs: seq<Attr>, tail: seq<Item>, binary: bool, run: Option<Text>)
    ensures Scan([Start(name, attrs)] + tail, binary, run) ==
            Before(Flush(run) + [StartEvent(name, attrs)], Scan(tail, binary, None))
  {
    assert ([Start(name, attrs)] + tail)[1..] == tail;
  }

  lemma {:induction false} ContentFails(content: seq<Node>, binary: bool, run: Option<Text>, tail: seq<Item>)
    requires (forall n {:trigger n in content} :: n in content ==> Possible(n, binary))
             && NormalContent(content, binary, run.Some?).None?
    ensures Scan(FlatContent(content) + tail, binary, run).None?
    decreases content
  {
    var n, rest := content[0], content[1..];
    assert n in content;
    forall m | m in rest ensures Possible(m, binary) {
      assert m in content;
    }
    var after := FlatContent(rest) + tail;
    assert FlatContent(content) + tail == FlatNode(n) + after;
    hide Scan, KeepToken, Resolved;
    match n
    case Child(e) =>
      FlatParts(e, after);
      ScanStart(e.name, e.attrs, FlatContent(e.content) + ([End(e.name)] + after), binary, run);
      if Normal(e, binary).None? {
        ChildFails(n, binary, [End(e.name)] + after);
      } else {
        ContentFails(rest, binary, None, tail);
        FailsAfterEnd(e.name, after, binary);
        FailsLater(FlatContent(e.content), [End(e.name)] + after, binary, None);
      }
    case Token(event, text) =>
      if KeepToken(event, text, binary, run.Some?).None? {
        BadEntity(event, text, binary, run.Some?, run, after);
      } else {
        PendingIs(event, text, binary, run);
        ContentFails(rest, binary, RunAfter(event, text, binary, run), tail);
        TokenScan(event, text, binary, run, after);
      }
  }

  lemma {:induction false} ChildFails(n: Node, binary: bool, tail: seq<Item>)
    requires n.Child? && Possible(n, binary) && Normal(n.element, binary).None?
    ensures Scan(FlatContent(n.element.content) + tail, binary, None).None?
    decreases n
  {
    assert PossibleIn(n.element, binary);
    ContentFails(n.element.content, binary, None, tail);
  }

  // ---- documents it reads ----

  lemma {:induction false} ChildKept(n: Node, binary: bool, run: Option<Text>, a: seq<Item>, b: seq<Item>)
    requires n.Child? && Possible(n, binary) && Normal(n.element, binary).Some?
             && Scan(a, binary, None) == Scan(b, true, None)
    ensures Scan(FlatNode(n) + a, binary, run) == Scan(Flat(Normal(n.element, binary).value) + b, true, run)
    decreases n
  {
    hide Scan, Same, FlatContent, NormalContent;
    var e, child := n.element, Normal(n.element, binary).value;
    assert PossibleIn(e, binary);
    var end, end' := [End(e.name)] + a, [End(e.name)] + b;
    SameAfter(End(e.name), a, b, binary);
    ContentKept(e.content, binary, None, end, end');
    FlatParts(e, a);
    FlatParts(child, b);
    ScanStart(e.name, e.attrs, FlatContent(e.content) + end, binary, run);
    ScanStart(e.name, e.attrs, FlatContent(child.content) + end', true, run);
  }

  lemma KeptParts(content: seq<Node>, binary: bool, pending: bool, a: seq<Item>, b: seq<Item>)
    requires content != [] && NormalContent(content, binary, pending).Some?
    ensures KeepNode(content[0], binary, pending).Some?
    ensures var k := KeepNode(content[0], binary, pending).value;
            var kept := NormalContent(content[1..], binary, k.pending);
            && kept.Some?
            && FlatContent(content) + a == FlatNode(content[0]) + (FlatContent(content[1..]) + a)
            && FlatContent(NormalContent(content, binary, pending).value) + b ==
                 FlatContent(k.nodes) + (FlatContent(kept.value) + b)
  {
    hide KeepNode, FlatNode, FlatContent;
    var k := KeepNode(content[0], binary, pending).value;
    var kept := NormalContent(content[1..], binary, k.pending).value;
    FlatFirst(content);
    Assoc(FlatNode(content[0]), FlatContent(content[1..]), a);
    FlatAppend(k.nodes, kept);
    Assoc(FlatContent(k.nodes), FlatContent(kept), b);
  }

  lemma Assoc<T>(a: seq<T>, b: seq<T>, c: seq<T>)
    ensures (a + b) + c == a + (b + c)
  {
  }

  lemma FlatFirst(content: seq<Node>)
    requires content != []
    ensures FlatContent(content) == FlatNode(content[0]) + FlatContent(content[1..])
  {
  }

  lemma NothingKept(binary: bool, run: Option<Text>, a: seq<Item>, b: seq<Item>)
    requires Same(a, b, binary)
    ensures NormalContent([], binary, run.Some?) == Some([])
    ensures Scan(FlatContent([]) + a, binary, run) == Scan(FlatContent([]) + b, true, run)
  {
    assert FlatContent([]) + a == a && FlatContent([]) + b == b;
  }

  lemma KeptNode(n: Node, binary: bool, pending: bool)
    requires KeepNode(n, binary, pending).Some?
    ensures n.Child? ==>
            Normal(n.element, binary).Some?
                && KeepNode(n, binary, pending).value == Kept(false, [Child(Normal(n.element, binary).value)])
    ensures n.Token? ==> KeepNode(n, binary, pending) == KeepToken(n.event, n.text, binary, pending)
    ensures n.Token? ==> FlatNode(n) == [Content(n.event, n.text)]
  {
  }

  lemma {:induction false} ContentKept(content: seq<Node>, binary: bool, run: Option<Text>, a: seq<Item>, b: seq<Item>)
    requires (forall n {:trigger n in content} :: n in content ==> Possible(n, binary)) && Same(a, b, binary)
    requires NormalContent(content, binary, run.Some?).Some?
    ensures Scan(FlatContent(content) + a, binary, run) ==
            Scan(FlatContent(NormalContent(content, binary, run.Some?).value) + b, true, run)
    decreases content
  {
    hide *;
    if content == [] {
      NothingKept(binary, run, a, b);
    } else {
      var n, rest := content[0], content[1..];
      assert n in content;
      forall m | m in rest ensures Possible(m, binary) {
        assert m in content;
      }
      KeptParts(content, binary, run.Some?, a, b);
      KeptNode(n, binary, run.Some?);
      var k := KeepNode(n, binary, run.Some?).value;
      var after, after' := FlatContent(rest) + a, FlatContent(NormalContent(rest, binary, k.pending).value) + b;
      if n.Child? {
        ContentKept(rest, binary, None, a, b);
        ChildKept(n, binary, run, after, after');
        FlatOne(Child(Normal(n.element, binary).value));
      } else {
        PendingIs(n.event, n.text, binary, run);
        ContentKept(rest, binary, RunAfter(n.event, n.text, binary, run), a, b);
        TokenKept(n.event, n.text, binary, run, after, after');
      }
    }
  }

  lemma FlatOne(n: Node)
    ensures FlatContent([n]) == FlatNode(n) && (n.Child? ==> FlatNode(n) == Flat(n.element))
  {
    assert [n][1..] == [];
    assert FlatContent([n]) == FlatNode(n) + FlatContent([]);
  }

  ghost predicate AllResolve(items: seq<Item>, binary: bool) {
    forall t {:trigger Resolved(t, binary)} :: t in items ==> Resolved(t, binary).Some?
  }

  lemma {:induction false} ScanSucceeds(items: seq<Item>, binary: bool, run: Option<Text>)
    requires AllResolve(items, binary)
    ensures Scan(items, binary, run).Some?
    decreases |items|
  {
    if items != [] {
      hide EntityValue;
      assert items[0] in items;
      forall t | t in items[1..] ensures Resolved(t, binary).Some? {
        assert t in items;
      }
      var t := Resolved(items[0], binary).value;
      ScanSucceeds(items[1..], binary, None);
      if t.Content? {
        ScanSucceeds(items[1..], binary, Some(TextOf(t)));
        if run.Some? {
          ScanSucceeds(items[1..], binary, Some(if IsTextual(t) then run.value + TextOf(t) else run.value));
        }
      }
    }
  }

  /** A normal form exists only if every entity means something. */
  lemma {:induction false} ContentResolves(content: seq<Node>, binary: bool, pending: bool)
    requires NormalContent(content, binary, pending).Some?
    ensures AllResolve(FlatContent(content), binary)
    decreases content
  {
    hide EntityValue;
    if content != [] {
      var n := content[0];
      NodeResolves(n, binary, pending);
      ContentResolves(content[1..], binary, KeepNode(n, binary, pending).value.pending);
    }
  }

  lemma {:induction false} NodeResolves(n: Node, binary: bool, pending: bool)
    requires KeepNode(n, binary, pending).Some?
    ensures AllResolve(FlatNode(n), binary)
    decreases n
  {
    match n
    case Child(e) => ElementResolves(e, binary);
    case Token(event, text) => TokenResolves(event, text, binary, pending);
  }

  lemma TokenResolves(event: nat, text: Option<Text>, binary: bool, pending: bool)
    requires KeepToken(event, text, binary, pending).Some?
    ensures AllResolve([Content(event, text)], binary)
  {
    hide EntityValue;
  }

  lemma {:induction false} ElementResolves(e: Element, binary: bool)
    requires Normal(e, binary).Some?
    ensures AllResolve(Flat(e), binary)
    decreases e
  {
    ContentResolves(e.content, binary, false);
  }

  /** The normal form of a document, read as a binary one, reports through `next()` what the document does; and there is
      no normal form exactly when `next()` fails on the document. */
  lemma NormalReportsTheSame(e: Element, binary: bool)
    requires PossibleIn(e, binary)
    ensures Normal(e, binary).None? <==> Events(Flat(e), binary).None?
    ensures Normal(e, binary).Some? ==> Events(Flat(Normal(e, binary).value), true) == Events(Flat(e), binary)
  {
    hide Scan, Events, NormalContent, FlatContent;
    EventsScan(Flat(e), binary);
    assert Flat(e) + [] == Flat(e);
    FlatParts(e, []);
    var end := [End(e.name)] + [];
    ScanStart(e.name, e.attrs, FlatContent(e.content) + end, binary, None);
    if NormalContent(e.content, binary, false).None? {
      ContentFails(e.content, binary, None, end);
    } else {
      var n := Normal(e, binary).value;
      EventsScan(Flat(n), true);
      assert Flat(n) + [] == Flat(n);
      FlatParts(n, []);
      ScanStart(e.name, e.attrs, FlatContent(n.content) + end, true, None);
      Empties(binary);
      SameAfter(End(e.name), [], [], binary);
      ContentKept(e.content, binary, None, end, end);
      ElementResolves(e, binary);
      ScanSucceeds(Flat(e), binary, None);
    }
  }

  lemma Empties(binary: bool)
    ensures Scan([], binary, None) == Scan([], true, None)
  {
  }

  /** An entity without a name ends the pending text of the normal form but not a run of text, so the condition
      above is needed: character data after it is then lost. */
  lemma NamelessEntityDiffers()
    ensures exists e: Element ::
            Normal(e, true).Some? && Events(Flat(Normal(e, true).value), true) != Events(Flat(e), true)
  {
    var a, b, c := Token(TEXT, Some([97])), Token(ENTITY_REF, None), Token(CDSECT, Some([98]));
    var e, n := Element([120], [], [a, b, c]), Element([120], [], [a, b]);
    NamelessNormal(a, b, c);
    assert Normal(e, true) == Some(n);
    FlatTwo(a, b);
    FlatThree(a, b, c);
    NamelessEvents(Flat(e), Flat(n));
    assert Normal(e, true).Some? && Events(Flat(Normal(e, true).value), true) != Events(Flat(e), true);
  }

  lemma NamelessNormal(a: Node, b: Node, c: Node)
    requires a == Token(TEXT, Some([97])) && b == Token(ENTITY_REF, None) && c == Token(CDSECT, Some([98]))
    ensures NormalContent([a, b, c], true, false) == Some([a, b])
  {
    var none: seq<Node> := [];
    assert [a, b, c][1..] == [b, c] && [b, c][1..] == [c] && [c][1..] == none;
    assert KeepNode(a, true, false) == Some(Kept(true, [a])) && KeepNode(b, true, true) == Some(Kept(false, [b]));
    assert KeepNode(c, true, false) == Some(Kept(false, none));
    assert NormalContent(none, true, false) == Some(none);
    assert none + none == none;
    assert NormalContent([c], true, false) == Some(none);
    assert [b] + none == [b];
    assert NormalContent([b, c], true, true) == Some([b]);
    assert [a] + [b] == [a, b];
  }

  lemma FlatTwo(a: Node, b: Node)
    requires a.Token? && b.Token?
    ensures FlatContent([a, b]) == [Content(a.event, a.text), Content(b.event, b.text)]
  {
    var none: seq<Node> := [];
    assert [a, b][1..] == [b] && [b][1..] == none && FlatContent(none) == [];
    assert FlatContent([b]) == FlatNode(b) + FlatContent(none);
  }

  lemma FlatThree(a: Node, b: Node, c: Node)
    requires a.Token? && b.Token? && c.Token?
    ensures FlatContent([a, b, c]) == [Content(a.event, a.text), Content(b.event, b.text), Content(c.event, c.text)]
  {
    assert [a, b, c][1..] == [b, c];
    FlatTwo(b, c);
  }

  lemma NamelessEvents(long: seq<Item>, short: seq<Item>)
    requires long ==
             [Start([120], []), Content(TEXT, Some([97])), Content(ENTITY_REF, None), Content(CDSECT, Some([98])),
                 End([120])]
    requires short == [Start([120], []), Content(TEXT, Some([97])), Content(ENTITY_REF, None), End([120])]
    ensures Events(long, true) != Events(short, true)
  {
    hide EntityValue;
    EventsScan(long, true);
    EventsScan(short, true);
    var start := [StartEvent([120], [])];
    ScanTail([120], [97, 98]);
    ScanTail([120], [97]);
    assert long[4..] == [End([120])] == short[3..];
    assert [97] + [98] == [97, 98];
    assert long[3..][1..] == long[4..] && long[2..][1..] == long[3..] && long[1..][1..] == long[2..];
    assert short[2..][1..] == short[3..] && short[1..][1..] == short[2..];
    assert Scan(long[3..], true, Some([97])) == Scan(long[4..], true, Some([97, 98]));
    assert Scan(long[2..], true, Some([97])) == Scan(long[3..], true, Some([97]));
    assert Scan(short[2..], true, Some([97])) == Scan(short[3..], true, Some([97]));
    assert Scan(long[1..], true, None) == Before([], Scan(long[2..], true, Some([97])));
    assert Scan(short[1..], true, None) == Before([], Scan(short[2..], true, Some([97])));
    assert Flush(None) + start == start;
    assert Scan(long, true, None) == Before(start, Scan(long[1..], true, None));
    assert Scan(short, true, None) == Before(start, Scan(short[1..], true, None));
    assert Events(long, true).value[1] == TextEvent([97, 98]);
    assert Events(short, true).value[1] == TextEvent([97]);
    assert [97, 98] != [97] by {
      assert |[97, 98]| != |[97]|;
    }
  }

  lemma ScanTail(name: Text, run: Text)
    requires run != []
    ensures Scan([End(name)], true, Some(run)) == Some([TextEvent(run), EndEvent(name)])
  {
    var none: seq<Item> := [];
    assert [End(name)][1..] == none;
    assert Scan(none, true, None) == Some([]);
    var events := [TextEvent(run), EndEvent(name)];
    assert Flush(Some(run)) + [EndEvent(name)] == events && events + [] == events;
  }

  // ---- normal forms stay ----

  lemma TokenTwice(event: nat, text: Option<Text>, binary: bool, pending: bool)
    requires (!binary ==> Textual(Token(event, text))) && KeepToken(event, text, binary, pending).Some?
    ensures var k := KeepToken(event, text, binary, pending).value;
            |k.nodes| <= 1 && (k.nodes != [] ==> KeepNode(k.nodes[0], true, pending) == Some(k))
                && (k.nodes == [] ==> k.pending == pending)
  {
    hide EntityValue;
  }

  lemma {:induction false} NodeTwice(n: Node, binary: bool, pending: bool)
    requires (!binary ==> Textual(n)) && KeepNode(n, binary, pending).Some?
    ensures var k := KeepNode(n, binary, pending).value;
            |k.nodes| <= 1 && (k.nodes != [] ==> KeepNode(k.nodes[0], true, pending) == Some(k))
                && (k.nodes == [] ==> k.pending == pending)
    decreases n
  {
    match n
    case Child(e) => NormalTwice(e, binary);
    case Token(event, text) => TokenTwice(event, text, binary, pending);
  }

  lemma {:induction false} ContentTwice(content: seq<Node>, binary: bool, pending: bool)
    requires (!binary ==> forall n {:trigger n in content} :: n in content ==> Textual(n))
             && NormalContent(content, binary, pending).Some?
    ensures var k := NormalContent(content, binary, pending).value; NormalContent(k, true, pending) == Some(k)
    decreases content
  {
    if content != [] {
      hide KeepNode;
      var n, rest := content[0], content[1..];
      assert n in content;
      forall m | m in rest ensures m in content {
      }
      NodeTwice(n, binary, pending);
      var k := KeepNode(n, binary, pending).value;
      ContentTwice(rest, binary, k.pending);
      var kept := NormalContent(rest, binary, k.pending).value;
      if k.nodes == [] {
        assert k.nodes + kept == kept;
      } else {
        var all := k.nodes + kept;
        assert all[0] == k.nodes[0] && all[1..] == kept;
      }
    }
  }

  /** A normal form, normalised again as binary, is itself. */
  lemma {:induction false} NormalTwice(e: Element, binary: bool)
    requires (!binary ==> TextualIn(e)) && Normal(e, binary).Some?
    ensures Normal(Normal(e, binary).value, true) == Some(Normal(e, binary).value)
    decreases e
  {
    ContentTwice(e.content, binary, false);
  }

  // ---- the loop ----

  lemma {:induction false} NormalMore(content: seq<Node>, i: nat, binary: bool, pending: bool)
    requires i < |content|
    ensures NormalContent(content[i..], binary, pending) ==
            var first := KeepNode(content[i], binary, pending);
            if first.None? then None
            else
              var rest := NormalContent(content[i + 1..], binary, first.value.pending);
              if rest.None? then None else Some(first.value.nodes + rest.value)
  {
    hide KeepNode;
    assert content[i..][0] == content[i] && content[i..][1..] == content[i + 1..];
  }

  /** `normalize_next`, its content drained and rebuilt. */
  method NormalizeNext(e: Element, binary: bool) returns (r: Option<Element>)
    ensures r == Normal(e, binary)
    decreases e
  {
    var pending := false;
    var content: seq<Node> := [];
    var i := 0;
    ghost var all := NormalContent(e.content, binary, false);
    assert e.content[0..] == e.content;
    assert all.Some? ==> [] + all.value == all.value;
    while i < |e.content|
      invariant i <= |e.content|
      invariant all == var rest := NormalContent(e.content[i..], binary, pending);
                if rest.None? then None else Some(content + rest.value)
    {
      NormalMore(e.content, i, binary, pending);
      var k: Option<Kept>;
      match e.content[i] {
        case Child(child) =>
          var normal := NormalizeNext(child, binary);
          if normal.None? {
            return None;
          }
          k := Some(Kept(false, [Child(normal.value)]));
        case Token(event, text) =>
          k := KeepToken(event, text, binary, pending);
          if k.None? {
            return None;
          }
      }
      assert k == KeepNode(e.content[i], binary, pending);
      ghost var rest := NormalContent(e.content[i + 1..], binary, k.value.pending);
      if rest.Some? {
        assert content + (k.value.nodes + rest.value) == (content + k.value.nodes) + rest.value;
      }
      pending, content := k.value.pending, content + k.value.nodes;
      i := i + 1;
    }
    assert e.content[i..] == [] && content + [] == content;
    return Some(e.(content := content));
  }
}
