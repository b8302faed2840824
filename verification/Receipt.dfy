/** The identity receipt of a derived image (`compute` in `crates/aim-android-image/src/identity.rs`) is
    unambiguous. Strings are their bytes. */
module Receipt {
  import opened Common

  type Bytes = seq<nat>

  datatype Kind = Add | Replace | Remove

  datatype Source = Source(declared: Bytes, sha256: Bytes)

  /** The parts of a plan's step the receipt records. */
  datatype Step = Step(kind: Kind, path: Bytes, source: Option<Source>, reason: Option<Bytes>)

  const SPACE: nat := 32
  const COLON: nat := 58
  const NEWLINE: nat := 10

  function KindWord(k: Kind): Bytes {
    match k
    case Add => [97, 100, 100]
    case Replace => [114, 101, 112, 108, 97, 99, 101]
    case Remove => [114, 101, 109, 111, 118, 101]
  }

  /** `field`: length-prefixed text. */
  function Field(text: Bytes): Bytes {
    Decimal(|text|) + [COLON] + text
  }

  function Declared(s: Step): Bytes {
    if s.source.Some? then s.source.value.declared else []
  }

  function Reason(s: Step): Bytes {
    if s.reason.Some? then s.reason.value else []
  }

  function Entry(s: Step): Bytes {
    KindWord(s.kind) + [SPACE] + Field(s.path) + [SPACE] + Field(Declared(s)) + [SPACE] + Field(Reason(s)) + [NEWLINE]
  }

  function Entries(steps: seq<Step>): Bytes {
    if steps == [] then [] else Entry(steps[0]) + Entries(steps[1..])
  }

  function Sources(steps: seq<Step>): seq<Source> {
    if steps == [] then []
    else (if steps[0].source.Some? then [steps[0].source.value] else []) + Sources(steps[1..])
  }

  function SourceLine(s: Source): Bytes {
    Field(s.declared) + [SPACE] + s.sha256 + [NEWLINE]
  }

  function SourceLines(sources: seq<Source>): Bytes {
    if sources == [] then [] else SourceLine(sources[0]) + SourceLines(sources[1..])
  }

  // "aim-android-image identity v1", "original ", "entries ", "sources "
  const HEADER: Bytes := [97, 105, 109, 45, 97, 110, 100, 114, 111, 105, 100, 45, 105, 109, 97, 103, 101, 32, 105, 100,
      101, 110, 116, 105, 116, 121, 32, 118, 49]
  const ORIGINAL: Bytes := [111, 114, 105, 103, 105, 110, 97, 108, 32]
  const ENTRIES: Bytes := [101, 110, 116, 114, 105, 101, 115, 32]
  const SOURCES: Bytes := [115, 111, 117, 114, 99, 101, 115, 32]

  function Head(original: Bytes, n: nat): Bytes {
    HEADER + [NEWLINE] + ORIGINAL + original + [NEWLINE] + ENTRIES + Decimal(n) + [NEWLINE]
  }

  function Middle(n: nat): Bytes {
    SOURCES + Decimal(n) + [NEWLINE]
  }

  /** The receipt `compute` hashes. */
  function Receipt(original: Bytes, steps: seq<Step>): Bytes {
    Head(original, |steps|) + Entries(steps) + Middle(|Sources(steps)|) + SourceLines(Sources(steps))
  }

  /** The lines of the receipt, in words. */
  lemma ReceiptText(original: Bytes, steps: seq<Step>)
    ensures Receipt(original, steps) ==
            Ascii("aim-android-image identity v1\noriginal ") + original
            + Ascii("\nentries ") + Decimal(|steps|) + Ascii("\n") + Entries(steps)
            + Ascii("sources ") + Decimal(|Sources(steps)|) + Ascii("\n") + SourceLines(Sources(steps))
  {
    hide Decimal, Entries, Sources, SourceLines;
    assert Ascii("aim-android-image identity v1\noriginal ") == HEADER + [NEWLINE] + ORIGINAL;
    assert Ascii("\nentries ") == [NEWLINE] + ENTRIES;
    assert Ascii("sources ") == SOURCES && Ascii("\n") == [NEWLINE];
  }

  /** A counted text. */
  lemma FieldText(text: Bytes)
    ensures Field(text) == Decimal(|text|) + Ascii(":") + text
  {
    assert Ascii(":") == [COLON];
  }

  /** A step's line: its kind and three counted texts, of its path, source and reason. */
  lemma EntryText(s: Step)
    ensures Entry(s) ==
            Ascii(match s.kind case Add => "add" case Replace => "replace" case Remove => "remove")
            + Ascii(" ") + Field(s.path)
            + Ascii(" ") + Field(if s.source.Some? then s.source.value.declared else [])
            + Ascii(" ") + Field(if s.reason.Some? then s.reason.value else []) + Ascii("\n")
  {
    hide Field;
    assert Ascii(match s.kind case Add => "add" case Replace => "replace" case Remove => "remove") == KindWord(s.kind);
    assert Ascii(" ") == [SPACE] && Ascii("\n") == [NEWLINE];
  }

  // ---- reading it back is possible in one way only ----

  /** Text up to a delimiter it does not contain. */
  lemma {:induction false} SplitOnce(a: Bytes, x: Bytes, b: Bytes, y: Bytes, d: nat)
    requires d !in a && d !in b && a + [d] + x == b + [d] + y
    ensures a == b && x == y
    decreases |a|
  {
    var all, other := a + [d] + x, b + [d] + y;
    assert all[0] == if a == [] then d else a[0];
    assert other[0] == if b == [] then d else b[0];
    if a == [] {
      assert x == all[1..] && y == other[1..];
    } else {
      assert all[1..] == a[1..] + [d] + x && other[1..] == b[1..] + [d] + y;
      SplitOnce(a[1..], x, b[1..], y, d);
      assert a == [a[0]] + a[1..] && b == [b[0]] + b[1..];
    }
  }

  lemma SamePrefix(p: Bytes, x: Bytes, y: Bytes)
    requires p + x == p + y
    ensures x == y
  {
    assert x == (p + x)[|p|..] && y == (p + y)[|p|..];
  }

  function Number(s: Bytes): int {
    if s == [] then 0
    else
      var digit: int := s[|s| - 1];
      Number(s[..|s| - 1]) * 10 + (digit - 48)
  }

  lemma {:induction false} DecimalReads(n: nat)
    ensures Number(Decimal(n)) == n && forall c {:trigger c in Decimal(n)} :: c in Decimal(n) ==> 48 <= c <= 57
  {
    if n < 10 {
      assert [48 + n][..0] == [];
    } else {
      DecimalReads(n / 10);
      var d := Decimal(n);
      assert d[..|d| - 1] == Decimal(n / 10);
    }
  }

  lemma NumberOnce(m: nat, x: Bytes, n: nat, y: Bytes, d: nat)
    requires !(48 <= d <= 57) && Decimal(m) + [d] + x == Decimal(n) + [d] + y
    ensures m == n && x == y
  {
    DecimalReads(m);
    DecimalReads(n);
    SplitOnce(Decimal(m), x, Decimal(n), y, d);
  }

  /** A field ends where its length says, whatever bytes it holds. */
  lemma FieldOnce(a: Bytes, x: Bytes, b: Bytes, y: Bytes)
    requires Field(a) + x == Field(b) + y
    ensures a == b && x == y
  {
    hide Decimal;
    assert Field(a) + x == Decimal(|a|) + [COLON] + (a + x);
    assert Field(b) + y == Decimal(|b|) + [COLON] + (b + y);
    NumberOnce(|a|, a + x, |b|, b + y, COLON);
    assert a == (a + x)[..|a|] && b == (b + y)[..|b|];
    SamePrefix(a, x, y);
  }

  lemma FieldThen(a: Bytes, x: Bytes, b: Bytes, y: Bytes, d: nat)
    requires Field(a) + ([d] + x) == Field(b) + ([d] + y)
    ensures a == b && x == y
  {
    hide Field;
    FieldOnce(a, [d] + x, b, [d] + y);
    SamePrefix([d], x, y);
  }

  lemma KindOnce(k: Kind, x: Bytes, l: Kind, y: Bytes)
    requires KindWord(k) + [SPACE] + x == KindWord(l) + [SPACE] + y
    ensures k == l && x == y
  {
    SplitOnce(KindWord(k), x, KindWord(l), y, SPACE);
    assert KindWord(k)[2] == KindWord(l)[2] && |KindWord(k)| == |KindWord(l)|;
  }

  lemma EntryParts(s: Step, x: Bytes)
    ensures Entry(s) + x == KindWord(s.kind) + [SPACE] +
            (Field(s.path) + ([SPACE] + (Field(Declared(s)) + ([SPACE] + (Field(Reason(s)) + ([NEWLINE] + x))))))
  {
    hide Field, KindWord;
  }

  /** The entries of two steps agree. */
  ghost predicate SameEntry(s: Step, t: Step) {
    s.kind == t.kind && s.path == t.path && Declared(s) == Declared(t) && Reason(s) == Reason(t)
  }

  lemma EntryOnce(s: Step, x: Bytes, t: Step, y: Bytes)
    requires Entry(s) + x == Entry(t) + y
    ensures SameEntry(s, t) && x == y
  {
    hide Entry, Field, KindWord, Declared, Reason;
    EntryParts(s, x);
    EntryParts(t, y);
    var s3, t3 := Field(Reason(s)) + ([NEWLINE] + x), Field(Reason(t)) + ([NEWLINE] + y);
    var s2, t2 := Field(Declared(s)) + ([SPACE] + s3), Field(Declared(t)) + ([SPACE] + t3);
    var s1, t1 := Field(s.path) + ([SPACE] + s2), Field(t.path) + ([SPACE] + t2);
    KindOnce(s.kind, s1, t.kind, t1);
    FieldThen(s.path, s2, t.path, t2, SPACE);
    FieldThen(Declared(s), s3, Declared(t), t3, SPACE);
    FieldThen(Reason(s), x, Reason(t), y, NEWLINE);
  }

  lemma {:induction false} EntriesOnce(ss: seq<Step>, x: Bytes, ts: seq<Step>, y: Bytes)
    requires |ss| == |ts| && Entries(ss) + x == Entries(ts) + y
    ensures x == y && forall i {:trigger ss[i]} :: 0 <= i < |ss| ==> SameEntry(ss[i], ts[i])
  {
    hide Entry, SameEntry;
    if ss == [] {
      assert Entries(ss) + x == x && Entries(ts) + y == y;
    } else {
      assert Entries(ss) + x == Entry(ss[0]) + (Entries(ss[1..]) + x);
      assert Entries(ts) + y == Entry(ts[0]) + (Entries(ts[1..]) + y);
      EntryOnce(ss[0], Entries(ss[1..]) + x, ts[0], Entries(ts[1..]) + y);
      EntriesOnce(ss[1..], x, ts[1..], y);
      forall i | 0 <= i < |ss| ensures SameEntry(ss[i], ts[i]) {
        if i > 0 {
          assert ss[i] == ss[1..][i - 1] && ts[i] == ts[1..][i - 1];
        }
      }
    }
  }

  lemma SourceOnce(s: Source, x: Bytes, t: Source, y: Bytes)
    requires NEWLINE !in s.sha256 && NEWLINE !in t.sha256 && SourceLine(s) + x == SourceLine(t) + y
    ensures s == t && x == y
  {
    hide Field;
    assert SourceLine(s) + x == Field(s.declared) + ([SPACE] + (s.sha256 + [NEWLINE] + x));
    assert SourceLine(t) + y == Field(t.declared) + ([SPACE] + (t.sha256 + [NEWLINE] + y));
    FieldThen(s.declared, s.sha256 + [NEWLINE] + x, t.declared, t.sha256 + [NEWLINE] + y, SPACE);
    SplitOnce(s.sha256, x, t.sha256, y, NEWLINE);
  }

  ghost predicate LineFree(sources: seq<Source>) {
    forall s {:trigger s in sources} :: s in sources ==> NEWLINE !in s.sha256
  }

  lemma {:induction false} SourcesOnce(ss: seq<Source>, ts: seq<Source>)
    requires |ss| == |ts| && LineFree(ss) && LineFree(ts) && SourceLines(ss) == SourceLines(ts)
    ensures ss == ts
  {
    if ss != [] {
      hide SourceLine;
      assert ss[0] in ss && ts[0] in ts;
      SourceOnce(ss[0], SourceLines(ss[1..]), ts[0], SourceLines(ts[1..]));
      forall s | s in ss[1..] ensures s in ss {
      }
      forall s | s in ts[1..] ensures s in ts {
      }
      SourcesOnce(ss[1..], ts[1..]);
      assert ss == [ss[0]] + ss[1..] && ts == [ts[0]] + ts[1..];
    }
  }

  // ---- equal receipts, equal plans ----

  /** Declared sources and reasons are not empty, and hashes are on one line. */
  ghost predicate Proper(steps: seq<Step>) {
    forall s {:trigger s in steps} :: s in steps ==>
      && (s.source.Some? ==> s.source.value.declared != [] && NEWLINE !in s.source.value.sha256)
      && (s.reason.Some? ==> s.reason.value != [])
  }

  /** Hashes are on one line. */
  ghost predicate OneLine(steps: seq<Step>) {
    forall s {:trigger s in steps} :: s in steps && s.source.Some? ==> NEWLINE !in s.source.value.sha256
  }

  lemma {:induction false} SourcesLineFree(steps: seq<Step>)
    requires OneLine(steps)
    ensures LineFree(Sources(steps))
  {
    if steps != [] {
      assert steps[0] in steps;
      forall s | s in steps[1..] ensures s in steps {
      }
      SourcesLineFree(steps[1..]);
    }
  }

  /** Steps with the same entry have a source both or neither, and a reason both or neither. */
  ghost predicate Definite(ss: seq<Step>, ts: seq<Step>) {
    forall i {:trigger ss[i]} :: 0 <= i < |ss| && i < |ts| && SameEntry(ss[i], ts[i]) ==>
      (ss[i].source.Some? <==> ts[i].source.Some?) && (ss[i].reason.Some? <==> ts[i].reason.Some?)
  }

  lemma {:induction false} StepsOnce(ss: seq<Step>, ts: seq<Step>)
    requires |ss| == |ts| && Definite(ss, ts) && Sources(ss) == Sources(ts)
    requires forall i {:trigger ss[i]} :: 0 <= i < |ss| ==> SameEntry(ss[i], ts[i])
    ensures ss == ts
  {
    if ss != [] {
      var s, t := ss[0], ts[0];
      assert SameEntry(s, t);
      assert s.source.Some? <==> t.source.Some?;
      if s.source.Some? {
        assert Sources(ss)[0] == s.source.value && Sources(ts)[0] == t.source.value;
        assert Sources(ss)[1..] == Sources(ss[1..]) && Sources(ts)[1..] == Sources(ts[1..]);
      } else {
        assert Sources(ss) == Sources(ss[1..]) && Sources(ts) == Sources(ts[1..]);
      }
      forall i | 0 <= i < |ss[1..]| ensures ss[1..][i] == ss[i + 1] && ts[1..][i] == ts[i + 1] {
      }
      StepsOnce(ss[1..], ts[1..]);
      assert ss == [s] + ss[1..] && ts == [t] + ts[1..];
    }
  }

  /** What a receipt records of a plan. */
  ghost predicate SameRecord(ss: seq<Step>, ts: seq<Step>) {
    |ss| == |ts| && Sources(ss) == Sources(ts) && forall i {:trigger ss[i]} :: 0 <= i < |ss| ==> SameEntry(ss[i], ts[i])
  }

  /** Two receipts are the same exactly when they record the same, whatever bytes paths, sources and reasons hold. */
  lemma SameReceipt(o: Bytes, ss: seq<Step>, p: Bytes, ts: seq<Step>)
    requires NEWLINE !in o && NEWLINE !in p && OneLine(ss) && OneLine(ts)
    ensures Receipt(o, ss) == Receipt(p, ts) <==> o == p && SameRecord(ss, ts)
  {
    if Receipt(o, ss) == Receipt(p, ts) {
      ReceiptRecords(o, ss, p, ts);
    }
    if o == p && SameRecord(ss, ts) {
      EntriesSame(ss, ts);
    }
  }

  lemma ReceiptRecords(o: Bytes, ss: seq<Step>, p: Bytes, ts: seq<Step>)
    requires NEWLINE !in o && NEWLINE !in p && OneLine(ss) && OneLine(ts)
    requires Receipt(o, ss) == Receipt(p, ts)
    ensures o == p && SameRecord(ss, ts)
  {
    hide Decimal, Entries, Sources, SourceLines, OneLine, Head, Middle;
    var s4, t4 := SourceLines(Sources(ss)), SourceLines(Sources(ts));
    var s3, t3 := Middle(|Sources(ss)|) + s4, Middle(|Sources(ts)|) + t4;
    assert Receipt(o, ss) == Head(o, |ss|) + (Entries(ss) + s3);
    assert Receipt(p, ts) == Head(p, |ts|) + (Entries(ts) + t3);
    HeadOnce(o, |ss|, Entries(ss) + s3, p, |ts|, Entries(ts) + t3);
    EntriesOnce(ss, s3, ts, t3);
    MiddleOnce(|Sources(ss)|, s4, |Sources(ts)|, t4);
    SourcesLineFree(ss);
    SourcesLineFree(ts);
    SourcesOnce(Sources(ss), Sources(ts));
  }

  lemma {:induction false} EntriesSame(ss: seq<Step>, ts: seq<Step>)
    requires |ss| == |ts| && forall i {:trigger ss[i]} :: 0 <= i < |ss| ==> SameEntry(ss[i], ts[i])
    ensures Entries(ss) == Entries(ts)
  {
    if ss != [] {
      forall i | 0 <= i < |ss[1..]| ensures SameEntry(ss[1..][i], ts[1..][i]) {
        assert ss[1..][i] == ss[i + 1] && ts[1..][i] == ts[i + 1];
      }
      EntriesSame(ss[1..], ts[1..]);
      var s := ss[0];
      assert SameEntry(s, ts[0]);
    }
  }

  /** Plans that leave it open for no entry whether it has a source or a reason have the same receipt only if
      they are the same. */
  lemma DefiniteReceipt(o: Bytes, ss: seq<Step>, p: Bytes, ts: seq<Step>)
    requires NEWLINE !in o && NEWLINE !in p && OneLine(ss) && OneLine(ts) && Definite(ss, ts)
    requires Receipt(o, ss) == Receipt(p, ts)
    ensures o == p && ss == ts
  {
    ReceiptRecords(o, ss, p, ts);
    StepsOnce(ss, ts);
  }

  /** What a manifest can say: additions and replacements have a source, removals none; reasons are not empty. */
  ghost predicate Parsed(steps: seq<Step>) {
    forall s {:trigger s in steps} :: s in steps ==>
      && (s.source.Some? <==> s.kind != Remove)
      && (s.reason.Some? ==> s.reason.value != [])
  }

  /** Plans read from manifests have the same receipt only if they are the same, whatever bytes they hold. */
  lemma ReceiptIsUnambiguous(o: Bytes, ss: seq<Step>, p: Bytes, ts: seq<Step>)
    requires NEWLINE !in o && NEWLINE !in p && OneLine(ss) && OneLine(ts) && Parsed(ss) && Parsed(ts)
    requires Receipt(o, ss) == Receipt(p, ts)
    ensures o == p && ss == ts
  {
    ParsedDefinite(ss, ts);
    DefiniteReceipt(o, ss, p, ts);
  }

  lemma ParsedDefinite(ss: seq<Step>, ts: seq<Step>)
    requires Parsed(ss) && Parsed(ts)
    ensures Definite(ss, ts)
  {
    assert forall i :: 0 <= i < |ss| ==> ss[i] in ss;
    assert forall i :: 0 <= i < |ts| ==> ts[i] in ts;
  }

  /** Plans of any steps that declare no empty source and no empty reason have the same receipt only if they are the
      same. */
  lemma NamedSourcesSuffice(o: Bytes, ss: seq<Step>, p: Bytes, ts: seq<Step>)
    requires NEWLINE !in o && NEWLINE !in p && Proper(ss) && Proper(ts)
    requires Receipt(o, ss) == Receipt(p, ts)
    ensures o == p && ss == ts
  {
    ProperDefinite(ss, ts);
    DefiniteReceipt(o, ss, p, ts);
  }

  lemma ProperDefinite(ss: seq<Step>, ts: seq<Step>)
    requires Proper(ss) && Proper(ts)
    ensures Definite(ss, ts) && OneLine(ss) && OneLine(ts)
  {
    assert forall i :: 0 <= i < |ss| ==> ss[i] in ss;
    assert forall i :: 0 <= i < |ts| ==> ts[i] in ts;
  }

  lemma HeadOnce(o: Bytes, m: nat, x: Bytes, p: Bytes, n: nat, y: Bytes)
    requires NEWLINE !in o && NEWLINE !in p && Head(o, m) + x == Head(p, n) + y
    ensures o == p && m == n && x == y
  {
    hide Decimal;
    HeadParts(o, m, x);
    HeadParts(p, n, y);
    hide Head;
    var s1, t1 := Decimal(m) + [NEWLINE] + x, Decimal(n) + [NEWLINE] + y;
    var s0, t0 := o + [NEWLINE] + (ENTRIES + s1), p + [NEWLINE] + (ENTRIES + t1);
    SamePrefix(HEADER + [NEWLINE] + ORIGINAL, s0, t0);
    SplitOnce(o, ENTRIES + s1, p, ENTRIES + t1, NEWLINE);
    SamePrefix(ENTRIES, s1, t1);
    NumberOnce(m, x, n, y, NEWLINE);
  }

  lemma HeadParts(o: Bytes, n: nat, x: Bytes)
    ensures Head(o, n) + x ==
            (HEADER + [NEWLINE] + ORIGINAL) + (o + [NEWLINE] + (ENTRIES + (Decimal(n) + [NEWLINE] + x)))
  {
    hide Decimal;
  }

  lemma MiddleOnce(m: nat, x: Bytes, n: nat, y: Bytes)
    requires Middle(m) + x == Middle(n) + y
    ensures m == n && x == y
  {
    hide Decimal;
    assert Middle(m) + x == SOURCES + (Decimal(m) + [NEWLINE] + x);
    assert Middle(n) + y == SOURCES + (Decimal(n) + [NEWLINE] + y);
    SamePrefix(SOURCES, Decimal(m) + [NEWLINE] + x, Decimal(n) + [NEWLINE] + y);
    NumberOnce(m, x, n, y, NEWLINE);
  }

  lemma {:induction false} SameSources(steps: seq<Step>, i: nat, reason: Option<Bytes>)
    requires i < |steps|
    ensures Sources(steps[i := steps[i].(reason := reason)]) == Sources(steps)
  {
    var other := steps[i := steps[i].(reason := reason)];
    if i > 0 {
      SameSources(steps[1..], i - 1, reason);
      assert other[1..] == steps[1..][i - 1 := steps[i].(reason := reason)];
    } else {
      assert other[1..] == steps[1..];
    }
  }

  /** Without that rule it would not be so: in every plan an empty reason is recorded as none. */
  lemma EmptyReasonIsAmbiguous(o: Bytes, steps: seq<Step>, i: nat)
    requires i < |steps| && steps[i].reason.None?
    ensures var other := steps[i := steps[i].(reason := Some([]))];
            other != steps && Receipt(o, other) == Receipt(o, steps)
  {
    var other := steps[i := steps[i].(reason := Some([]))];
    assert other[i] != steps[i];
    SameSources(steps, i, Some([]));
    EntriesSame(other, steps);
  }

  // ---- the loops ----

  lemma {:induction false} EntriesMore(steps: seq<Step>, i: nat)
    requires i < |steps|
    ensures Entries(steps[..i + 1]) == Entries(steps[..i]) + Entry(steps[i])
  {
    hide Entry;
    if i == 0 {
      assert steps[..1] == [steps[0]] && steps[..0] == [];
    } else {
      EntriesMore(steps[1..], i - 1);
      assert steps[..i + 1][1..] == steps[1..][..i] && steps[..i][1..] == steps[1..][..i - 1];
    }
  }

  lemma {:induction false} SourcesMore(steps: seq<Step>, i: nat)
    requires i < |steps|
    ensures Sources(steps[..i + 1]) ==
            Sources(steps[..i]) + (if steps[i].source.Some? then [steps[i].source.value] else [])
  {
    if i == 0 {
      assert steps[..1] == [steps[0]] && steps[..0] == [];
    } else {
      SourcesMore(steps[1..], i - 1);
      assert steps[..i + 1][1..] == steps[1..][..i] && steps[..i][1..] == steps[1..][..i - 1];
    }
  }

  lemma {:induction false} LinesMore(sources: seq<Source>, i: nat)
    requires i < |sources|
    ensures SourceLines(sources[..i + 1]) == SourceLines(sources[..i]) + SourceLine(sources[i])
  {
    hide SourceLine;
    if i == 0 {
      assert sources[..1] == [sources[0]] && sources[..0] == [];
    } else {
      LinesMore(sources[1..], i - 1);
      assert sources[..i + 1][1..] == sources[1..][..i] && sources[..i][1..] == sources[1..][..i - 1];
    }
  }

  /** `compute`, up to the hash. */
  method Compute(original: Bytes, steps: seq<Step>) returns (receipt: Bytes)
    ensures receipt == Receipt(original, steps)
  {
    hide Entry, Head, Middle, SourceLine, Entries, Sources, SourceLines;
    NothingYet(steps, []);
    receipt := Head(original, |steps|);
    ghost var head := receipt;
    var sources: seq<Source> := [];
    var i := 0;
    while i < |steps|
      invariant i <= |steps| && receipt == head + Entries(steps[..i]) && sources == Sources(steps[..i])
    {
      EntriesMore(steps, i);
      SourcesMore(steps, i);
      receipt := receipt + Entry(steps[i]);
      if steps[i].source.Some? {
        sources := sources + [steps[i].source.value];
      }
      i := i + 1;
    }
    assert steps[..i] == steps;
    receipt := receipt + Middle(|sources|);
    ghost var body := receipt;
    NothingYet(steps, sources);
    i := 0;
    while i < |sources|
      invariant i <= |sources| && receipt == body + SourceLines(sources[..i])
    {
      LinesMore(sources, i);
      receipt := receipt + SourceLine(sources[i]);
      i := i + 1;
    }
    assert sources[..i] == sources;
  }

  lemma NothingYet(steps: seq<Step>, sources: seq<Source>)
    ensures Entries(steps[..0]) == [] && Sources(steps[..0]) == [] && SourceLines(sources[..0]) == []
  {
  }
}
