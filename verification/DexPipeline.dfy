/** Redirecting calls in a jar, from end to end (`redirect_jar` in `crates/aim-android-image/src/redirect.rs`
    with `add_methods` in `reindex.rs`): the methods to call are added to the tables, the code is rewritten
    for them, and then the calls are redirected. */
module DexPipeline {
  import opened Common
  import opened DexInsert
  import opened DexPlan
  import opened DexMeaning
  import opened DexAdd
  import opened DexCode
  import opened DexFormats
  import opened DexRedirect

  /** Calls of a method are to become calls of the method `to`. */
  datatype Change = Change(holder: Key, name: Key, to: Request)

  function Requests(changes: seq<Change>): seq<Request> {
    seq(|changes|, k requires 0 <= k < |changes| => changes[k].to)
  }

  /** The last of the changes that names a method. */
  ghost function Chosen(changes: seq<Change>, m: MethodName): (r: Option<nat>)
    ensures r.Some? ==> r.value < |changes|
  {
    if changes == [] then None
    else
      var last := |changes| - 1;
      if changes[last].holder == m.holder && changes[last].name == m.name then Some(last)
          else Chosen(changes[..last], m)
  }

  ghost predicate Is(m: MethodName, r: Request) {
    m.holder == r.holder && m.name == r.name && m.sig.ret == r.ret && m.sig.params == r.params
  }

  /** What an instruction becomes: a call of a named method a static call of the method asked for, with the
      same registers; every other stays what it is. */
  ghost predicate Becomes(i: Instruction, j: Instruction, changes: seq<Change>) {
    if IsCall(i) && Chosen(changes, i.refs[0].called).Some? then
      && j.units == i.units[0 := StaticCall(i.units[0])]
      && |j.refs| == 1 && j.refs[0].MethodRef?
      && Is(j.refs[0].called, changes[Chosen(changes, i.refs[0].called).value].to)
    else j == i
  }

  ghost predicate AllBecome(was: seq<Instruction>, now: seq<Instruction>, changes: seq<Change>) {
    |now| == |was| && forall i {:trigger was[i]} {:trigger now[i]} ::
        0 <= i < |was| ==> Becomes(was[i], now[i], changes)
  }

  datatype Outcome = Made(tables: Tables, shifts: Shifts, code: Code) | Rejected

  function Redirects(changes: seq<Change>, indices: seq<nat>): (r: seq<Redirect>)
    requires |indices| == |changes|
    ensures |r| == |changes|
    ensures forall k {:trigger r[k]} ::
            0 <= k < |r| ==> r[k] == Redirect(changes[k].holder, changes[k].name, indices[k])
  {
    seq(|changes|, k requires 0 <= k < |changes| => Redirect(changes[k].holder, changes[k].name, indices[k]))
  }

  lemma {:induction false} WinnerIsChosen(changes: seq<Change>, indices: seq<nat>, m: MethodName)
    requires |indices| == |changes|
    ensures Winner(Redirects(changes, indices), m) == Chosen(changes, m)
  {
    if changes != [] {
      var last := |changes| - 1;
      WinnerIsChosen(changes[..last], indices[..last], m);
      assert Redirects(changes, indices)[..last] == Redirects(changes[..last], indices[..last]);
    }
  }

  lemma ChangedBecomes(now: Tables, changes: seq<Change>, indices: seq<nat>, i: Instruction)
    requires InRange(now) && |indices| == |changes|
    requires forall k {:trigger indices[k]} :: 0 <= k < |indices| ==> Answers(now, indices[k], changes[k].to)
    requires forall k {:trigger indices[k]} :: 0 <= k < |indices| ==> indices[k] < |now.methods|
    ensures Becomes(i, Changed(i, Redirects(changes, indices), now), changes)
  {
    hide InRange, MethodOf, IsCall, StaticCall;
    if IsCall(i) {
      CallHasUnits(i);
      WinnerIsChosen(changes, indices, i.refs[0].called);
    }
  }

  lemma CallHasUnits(i: Instruction)
    requires IsCall(i)
    ensures i.units != [] && |i.refs| == 1 && i.refs[0].MethodRef?
  {
  }

  lemma ChangedAllBecome(now: Tables, changes: seq<Change>, indices: seq<nat>, all: seq<Instruction>)
    requires InRange(now) && |indices| == |changes|
    requires forall k {:trigger indices[k]} :: 0 <= k < |indices| ==> Answers(now, indices[k], changes[k].to)
    requires forall k {:trigger indices[k]} :: 0 <= k < |indices| ==> indices[k] < |now.methods|
    ensures AllBecome(all, ChangedAll(all, Redirects(changes, indices), now), changes)
  {
    hide InRange, Becomes, Changed, Answers;
    forall i | 0 <= i < |all| ensures Becomes(all[i], ChangedAll(all, Redirects(changes, indices), now)[i], changes) {
      ChangedBecomes(now, changes, indices, all[i]);
    }
  }

  /** What the strings of the new tables will be. */
  ghost function AllStrings(was: Tables, changes: seq<Change>): set<Key> {
    Elements(was.strings) + WantedStrings(Requests(changes))
  }

  /** They can be counted in 32 bits. */
  ghost predicate FewStrings(was: Tables, changes: seq<Change>) {
    |AllStrings(was, changes)| <= UNIT * UNIT
  }

  lemma StringsFit(was: Tables, changes: seq<Change>, now: Tables)
    requires InRange(was) && InRange(now) && Ordered(now) && Exact(was, Requests(changes), now)
             && FewStrings(was, changes)
    ensures |now.strings| <= UNIT * UNIT
  {
    hide InRange, Sorted, TypeList, SigList, NamedList, WantedStrings;
    SortedDistinct(now.strings);
    DistinctSize(now.strings);
  }

  // ---- what cannot be rewritten ----

  /** An instruction the rewriter refuses once the strings are `all`: a call site or a method handle, or a string
      operand of 16 bits whose string then ranks past them. */
  ghost predicate Unfit(i: Instruction, all: set<Key>) {
    && i.units != []
    && (|| TableOf(i.units[0] % 0x100) in {CallSites, MethodHandles}
        || (i.units[0] % 0x100 == 0x1a && |i.refs| == 1 && i.refs[0].StringRef? && Rank(all, i.refs[0].text) > 0xffff))
  }

  ghost predicate AnyUnfit(instructions: seq<Instruction>, all: set<Key>) {
    exists i {:trigger i in instructions} :: i in instructions && Unfit(i, all)
  }

  /** A decoded instruction shows its opcode, and a short string operand its string. */
  lemma DecodedFirst(code: Code, t: Tables)
    requires InRange(t) && code != [] && Units(code).Some? && Whole(code) && ValidFirst(code[..First(code)], t)
    ensures var i := Decoded(code[..First(code)], t);
            && i.units != [] && i.units[0] % 0x100 == Op(code)
            && (Op(code) == 0x1a ==>
                 && |code| > 1 && code[1] < |t.strings| && i.refs == [StringRef(t.strings[code[1]])])
  {
    hide InRange;
    var f := First(code);
    NeedsFit(code);
    OpOfHead(code, f);
    SlotsAre(Op(code));
    var slots := Slots(Op(code));
    hide Slots;
    assert Masked(code[..f], slots)[0] == code[0] by {
      assert Plain(slots, 0);
    }
    if Op(code) == 0x1a {
      assert slots[0] == (1, StringIndex);
      assert Names(t, StringIndex, Get(code[..f], slots[0]));
    }
  }

  lemma FirstFits(was: Tables, s: Shifts, now: Tables, code: Code)
    requires Remapped(was, s, now) && Sorted(now.strings)
    requires code != [] && Units(code).Some? && Whole(code) && ValidFirst(code[..First(code)], was)
    ensures InRange(was)
    ensures RewriteFirst(code, s).None? <==> Unfit(Decoded(code[..First(code)], was), Elements(now.strings))
  {
    RemappedRanges(was, s, now);
    hide InRange, Decoded, Units, Rank, Elements, Sorted, ValidFirst;
    DecodedFirst(code, was);
    if Op(code) == 0x1a {
      StringMoves(was, s, now, code[1]);
      RankIs(now.strings, Map(s.strings, code[1]));
    }
  }

  lemma StringMoves(was: Tables, s: Shifts, now: Tables, i: nat)
    requires Remapped(was, s, now) && i < |was.strings|
    ensures Map(s.strings, i) < |now.strings| && now.strings[Map(s.strings, i)] == was.strings[i]
  {
  }

  /** Code cannot be rewritten exactly when some instruction is unfit for the strings of the new tables. */
  lemma {:induction false} RewriteExact(was: Tables, s: Shifts, now: Tables, code: Code)
    requires Remapped(was, s, now) && Sorted(now.strings) && InRange(was) && Valid(code, was) && AllWhole(code)
    ensures Rewrite(code, s).None? <==> AnyUnfit(Disassembly(code, was), Elements(now.strings))
    decreases |code|
  {
    hide Remapped, Sorted, InRange, ValidFirst, Units, Unfit, RewriteFirst, Decoded, Elements, Op;
    if code == [] {
      assert Disassembly(code, was) == [];
    } else {
      ValidParts(code, was);
      FirstFits(was, s, now, code);
      RewriteExact(was, s, now, code[First(code)..]);
      var first, rest := Decoded(code[..First(code)], was), Disassembly(code[First(code)..], was);
      assert Disassembly(code, was) == [first] + rest;
      FirstOrRest(first, rest, Elements(now.strings));
    }
  }

  lemma FirstOrRest(first: Instruction, rest: seq<Instruction>, all: set<Key>)
    ensures AnyUnfit([first] + rest, all) <==> Unfit(first, all) || AnyUnfit(rest, all)
  {
    hide Unfit;
    if Unfit(first, all) {
      assert first in [first] + rest;
    }
    if i :| i in rest && Unfit(i, all) {
      assert i in [first] + rest;
    }
  }

  // ---- all of it ----

  lemma StringsAre(was: Tables, changes: seq<Change>, now: Tables)
    requires InRange(was) && InRange(now) && Ordered(now) && Exact(was, Requests(changes), now)
    ensures Elements(now.strings) == AllStrings(was, changes) && Sorted(now.strings)
  {
  }

  /** One method's code, redirected: refused exactly when the types, protos or methods outgrow 16 bits or some
      instruction is a call site, a method handle or a string operand that will; otherwise it disassembles,
      against tables that name nothing new but the methods asked for, to the old code with exactly the named
      calls replaced, each instruction where it was. */
  method RedirectMethod(was: Tables, code: Code, changes: seq<Change>) returns (r: Outcome)
    requires InRange(was) && Small(was) && Ordered(was) && |was.strings| <= NO_INDEX && FewStrings(was, changes)
    requires Valid(code, was)
    ensures r.Rejected? <==>
              || |AllTypes(was, Requests(changes))| > 0x10000 || |AllSigs(was, Requests(changes))| > 0x10000
              || |AllNamed(was, Requests(changes))| > 0x10000
              || AnyUnfit(Disassembly(code, was), AllStrings(was, changes))
    ensures r.Made? ==>
              && InRange(r.tables) && Small(r.tables) && Ordered(r.tables) && Exact(was, Requests(changes), r.tables)
              && Moved(was, r.shifts, r.tables) && Valid(r.code, r.tables)
              && AllBecome(Disassembly(code, was), Disassembly(r.code, r.tables), changes)
              && Boundaries(r.code, 0) == Boundaries(code, 0)
  {
    hide InRange, Ordered, Exact, Moved, Valid, AllBecome, Disassembly, Boundaries, AllWhole, Rewrite, FewStrings,
         AllTypes, AllSigs, AllNamed, AllStrings, AnyUnfit, ChangedAll, Answers, WellAbbreviated, Elements, Sorted,
         Remapped;
    var added := AddMethods(was, Requests(changes));
    if added.TooMany? {
      return Rejected;
    }
    var (now, shifts, indices) := added.value;
    ValidWhole(code, was);
    StringsFit(was, changes, now);
    StringsAre(was, changes, now);
    RemappedFrom(was, shifts, now);
    RewriteExact(was, shifts, now, code);
    var rewritten := RewriteCode(code, shifts);
    if rewritten.None? {
      return Rejected;
    }
    RewriteKeeps(was, shifts, now, code, 0);
    KeptParts(was, now, code, rewritten.value);
    AnswersWithin(now, indices, changes);
    var redirected := RedirectCode(rewritten.value, now, Redirects(changes, indices));
    ChangedAllBecome(now, changes, indices, Disassembly(rewritten.value, now));
    return Made(now, shifts, redirected);
  }

  lemma RemappedFrom(was: Tables, s: Shifts, now: Tables)
    requires InRange(was) && InRange(now) && Moved(was, s, now) && Small(now) && |now.strings| <= UNIT * UNIT
    ensures Remapped(was, s, now)
  {
  }

  lemma KeptParts(was: Tables, now: Tables, code: Code, r: Code)
    requires Kept(was, now, code, r, 0)
    ensures InRange(was) && InRange(now) && Valid(code, was) && Valid(r, now)
    ensures Disassembly(r, now) == Disassembly(code, was) && Boundaries(r, 0) == Boundaries(code, 0)
  {
  }

  lemma AnswersWithin(now: Tables, indices: seq<nat>, changes: seq<Change>)
    requires InRange(now) && |indices| == |changes|
    requires forall k {:trigger indices[k]} :: 0 <= k < |indices| ==> Answers(now, indices[k], Requests(changes)[k])
    ensures forall k {:trigger indices[k]} :: 0 <= k < |indices| ==>
              indices[k] < |now.methods| && Answers(now, indices[k], changes[k].to)
  {
    hide InRange, MethodOf;
  }
}
