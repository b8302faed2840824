/** Redirecting calls (`crates/aim-android-image/src/redirect.rs`): the call sites of a method are found by
    walking the code, and each is made a static call of another method in place. */
module DexRedirect {
  import opened Common
  import opened DexInsert
  import opened DexPlan
  import opened DexCode
  import opened DexFormats

  /** The method a site calls is the one to redirect. */
  ghost predicate Calls(t: Tables, code: Code, holder: Key, name: Key)
    requires InRange(t) && code != []
  {
    && IsInvoke(Op(code)) && |code| > 1 && code[1] < |t.methods|
    && MethodOf(t, code[1]).holder == holder && MethodOf(t, code[1]).name == name
  }

  /** The addresses of the calls of that method, in order, counted from `at`. */
  ghost function Sites(code: Code, at: nat, t: Tables, holder: Key, name: Key): seq<nat>
    requires InRange(t) && Valid(code, t)
    decreases |code|
  {
    if code == [] then []
    else (if Calls(t, code, holder, name) then [at]
        else []) + Sites(code[First(code)..], at + First(code), t, holder, name)
  }

  /** The names a dex file gives its methods, as `Dex::method` reads them. */
  function Holder(t: Tables, i: nat): Key {
    if i < |t.methods| && t.methods[i].holder < |t.types| && t.types[t.methods[i].holder] < |t.strings|
    then t.strings[t.types[t.methods[i].holder]] else []
  }

  function Name(t: Tables, i: nat): Key {
    if i < |t.methods| && t.methods[i].name < |t.strings| then t.strings[t.methods[i].name] else []
  }

  /** `sites`. */
  method FindSites(insns: Code, t: Tables, holder: Key, name: Key) returns (sites: seq<nat>)
    requires InRange(t) && Valid(insns, t)
    ensures sites == Sites(insns, 0, t, holder, name)
  {
    hide *;
    sites := [];
    var pc := 0;
    assert insns[0..] == insns;
    assert [] + Sites(insns, 0, t, holder, name) == Sites(insns, 0, t, holder, name);
    while pc < |insns|
      invariant pc <= |insns| && Valid(insns[pc..], t)
      invariant sites + Sites(insns[pc..], pc, t, holder, name) == Sites(insns, 0, t, holder, name)
      decreases |insns| - pc
    {
      ghost var was, here := sites, insns[pc..];
      CallIsKnown(here, t, holder, name);
      OpIs(insns, pc);
      if IsInvoke(insns[pc] % 0x100) {
        var called := insns[pc + 1];
        if Holder(t, called) == holder && Name(t, called) == name {
          sites := sites + [pc];
        }
      }
      SitesStep(insns, pc, t, holder, name);
      UnitsAgree(insns[pc..]);
      var units := InstructionUnits(insns[pc..]);
      var f := if units.value < |insns| - pc then units.value else |insns| - pc;
      assert f == First(insns[pc..]) by { FirstIs(insns[pc..]); }
      assert was
             + ((if Calls(t, here, holder, name) then [pc] else []) + Sites(insns[pc + f..], pc + f, t, holder, name))
          == sites + Sites(insns[pc + f..], pc + f, t, holder, name);
      pc := pc + f;
    }
    assert insns[pc..] == [];
    SitesEnd(pc, t, holder, name);
  }

  lemma FirstIs(code: Code)
    requires code != [] && Units(code).Some?
    ensures First(code) == if Units(code).value < |code| then Units(code).value else |code|
  {
  }

  lemma OpIs(insns: Code, pc: nat)
    requires pc < |insns|
    ensures Op(insns[pc..]) == insns[pc] % 0x100
  {
  }

  lemma SitesEnd(at: nat, t: Tables, holder: Key, name: Key)
    requires InRange(t)
    ensures Valid([], t) && Sites([], at, t, holder, name) == []
  {
  }

  lemma SitesStep(insns: Code, pc: nat, t: Tables, holder: Key, name: Key)
    requires InRange(t) && pc < |insns| && Valid(insns[pc..], t)
    ensures Units(insns[pc..]).Some?
    ensures var f := First(insns[pc..]);
            && pc + f <= |insns| && Valid(insns[pc + f..], t)
            && Sites(insns[pc..], pc, t, holder, name)
               == (if Calls(t, insns[pc..], holder, name) then [pc]
                   else []) + Sites(insns[pc + f..], pc + f, t, holder, name)
  {
    hide Calls, InRange, ValidFirst, Units;
    var f := First(insns[pc..]);
    assert insns[pc..][f..] == insns[pc + f..];
  }

  lemma CallIsKnown(code: Code, t: Tables, holder: Key, name: Key)
    requires InRange(t) && code != [] && Valid(code, t)
    ensures IsInvoke(Op(code)) ==> |code| > 1
    ensures Calls(t, code, holder, name) <==>
            IsInvoke(Op(code)) && Holder(t, code[1]) == holder && Name(t, code[1]) == name
  {
    InvokeNames(code, t);
  }

  // ---- edits ----

  /** The call's opcode made that of a static call of the same form. */
  function StaticUnit(unit: nat): nat {
    unit - unit % 0x100 + (if unit % 0x100 >= 0x74 then 0x77 else 0x71)
  }

  /** What stands at address `pc` once the sites in `edits` call the methods named there. */
  function UnitAt(edits: map<nat, nat>, pc: nat, unit: nat): nat {
    if pc in edits then StaticUnit(unit)
    else if pc > 0 && pc - 1 in edits then edits[pc - 1] % UNIT
    else unit
  }

  function Edited(code: Code, at: nat, edits: map<nat, nat>): (r: Code)
    ensures |r| == |code|
  {
    seq(|code|, i requires 0 <= i < |code| => UnitAt(edits, at + i, code[i]))
  }

  /** Edits are made at calls only. */
  ghost predicate AtCalls(code: Code, at: nat, edits: map<nat, nat>)
    decreases |code|
  {
    if code == [] then forall pc {:trigger pc in edits} :: pc in edits ==> pc < at
    else
      && Units(code).Some? && Whole(code)
      && (at in edits ==> IsInvoke(Op(code)))
      && (forall pc {:trigger pc in edits} :: pc in edits ==> pc <= at || pc >= at + First(code))
      && AtCalls(code[First(code)..], at + First(code), edits)
  }

  /** The targets are methods of tables that fit 16-bit indices. */
  ghost predicate Targets(t: Tables, edits: map<nat, nat>) {
    Small(t) && forall pc {:trigger pc in edits} :: pc in edits ==> edits[pc] < |t.methods|
  }

  /** A call made a static call of `target`: its other units, and so its registers, are kept. */
  ghost function Redirected(call: Instruction, target: MethodName): Instruction
    requires call.units != []
  {
    Instruction(call.units[0 := StaticCall(call.units[0])], [MethodRef(target)])
  }

  /** The unit of a call made that of `invoke-static`, or of `invoke-static/range` if the call names a range of
      registers; its high byte stays. */
  function StaticCall(unit: nat): nat {
    unit / 0x100 * 0x100 + (if FormatOf(unit % 0x100) == F3rc then 0x77 else 0x71)
  }

  lemma StaticAgrees(unit: nat)
    requires IsInvoke(unit % 0x100)
    ensures StaticUnit(unit) == StaticCall(unit)
    ensures IsInvoke(StaticUnit(unit) % 0x100) && StaticUnit(unit) % 0x100 != 0
    ensures FormatOf(StaticUnit(unit) % 0x100) == FormatOf(unit % 0x100)
  {
    assert unit == unit / 0x100 * 0x100 + unit % 0x100;
  }

  /** The calls are the instructions of the two call formats whose index is a method. */
  lemma InvokesAre(op: nat)
    requires op < 0x100
    ensures IsInvoke(op) <==> FormatOf(op) in {F35c, F3rc} && TableOf(op) == Methods
  {
  }

  /** What the edited code is to disassemble to: the sites redirected, all else as it was. */
  ghost function Expected(code: Code, at: nat, t: Tables, edits: map<nat, nat>): seq<Instruction>
    requires InRange(t) && Valid(code, t) && Targets(t, edits)
    decreases |code|
  {
    if code == [] then []
    else
      var f := First(code);
      var first := Decoded(code[..f], t);
      [if at in edits && first.units != [] then Redirected(first, MethodOf(t, edits[at])) else first]
      + Expected(code[f..], at + f, t, edits)
  }

  // ---- the edited code ----

  /** What holds of code edited at some sites. */
  ghost predicate Done(code: Code, r: Code, at: nat, t: Tables, edits: map<nat, nat>) {
    && InRange(t) && Valid(code, t) && Targets(t, edits) && Valid(r, t)
    && Disassembly(r, t) == Expected(code, at, t, edits)
    && Boundaries(r, at) == Boundaries(code, at)
  }

  lemma UntouchedHead(code: Code, at: nat, edits: map<nat, nat>, f: nat)
    requires f <= |code| && (at == 0 || at - 1 !in edits) && at !in edits
    requires forall pc {:trigger pc in edits} :: pc in edits ==> pc <= at || pc >= at + f
    ensures Edited(code, at, edits)[..f] == code[..f]
  {
    forall i | 0 <= i < f ensures UnitAt(edits, at + i, code[i]) == code[i] {
      if i > 0 {
        assert at + i - 1 !in edits;
      }
    }
  }

  lemma RedirectedHead(code: Code, at: nat, edits: map<nat, nat>, f: nat)
    requires 2 <= f <= |code| && at in edits
    requires forall pc {:trigger pc in edits} :: pc in edits ==> pc <= at || pc >= at + f
    ensures Edited(code, at, edits)[..f] == code[..f][0 := StaticUnit(code[0])][1 := edits[at] % UNIT]
  {
    forall i | 2 <= i < f ensures UnitAt(edits, at + i, code[i]) == code[i] {
      assert at + i - 1 !in edits && at + i !in edits;
    }
    assert at + 1 !in edits;
  }

  /** A call with its opcode and method replaced. */
  lemma RedirectedDecoded(head: Code, target: nat, t: Tables)
    requires InRange(t) && Small(t) && |head| >= 2 && IsInvoke(Op(head)) && ValidFirst(head, t) && target < |t.methods|
    ensures var h := head[0 := StaticUnit(head[0])][1 := target % UNIT];
            && IsInvoke(Op(h)) && ValidFirst(h, t) && Decoded(head, t).units != []
            && Decoded(h, t) == Redirected(Decoded(head, t), MethodOf(t, target))
  {
    hide InRange, Slots;
    TargetFits(t, target);
    StaticAgrees(head[0]);
    SlotsAre(Op(head));
    var slots := Slots(Op(head));
    var h := head[0 := StaticUnit(head[0])][1 := target];
    SlotsAre(Op(h));
    hide StaticUnit, StaticCall;
    assert Plain(slots, 0) by {
      assert slots[0] == (1, MethodIndex);
    }
    assert !Plain(slots, 1) by {
      assert slots[0] == (1, MethodIndex);
    }
    assert Masked(h, slots) == Masked(head, slots)[0 := StaticUnit(head[0])];
    assert Refs(h, slots, t) == [MethodRef(MethodOf(t, target))];
  }

  lemma TargetFits(t: Tables, target: nat)
    requires Small(t) && target < |t.methods|
    ensures target % UNIT == target
  {
  }

  lemma InvokeLength(code: Code)
    requires code != [] && IsInvoke(Op(code)) && Whole(code)
    ensures Units(code) == Some(3) && First(code) >= 2
  {
  }

  lemma HeadEdited(code: Code, at: nat, t: Tables, edits: map<nat, nat>)
    requires InRange(t) && Valid(code, t) && Targets(t, edits) && code != [] && AtCalls(code, at, edits)
    requires at == 0 || at - 1 !in edits
    ensures Units(code).Some?
    ensures var f, r := First(code), Edited(code, at, edits);
            && r != [] && Units(r) == Units(code) && First(r) == f && Needs(Op(r)) <= |r|
            && ValidFirst(code[..f], t) && ValidFirst(r[..f], t)
            && Decoded(r[..f], t) ==
                 (if at in edits && Decoded(code[..f], t).units != []
                     then Redirected(Decoded(code[..f], t), MethodOf(t, edits[at]))
                                      else Decoded(code[..f], t))
            && at + f - 1 !in edits
  {
    hide InRange, Decoded, Valid, ValidFirst, AtCalls, Edited, Redirected;
    ValidHead(code, t);
    AtCallsHead(code, at, edits);
    var f, r := First(code), Edited(code, at, edits);
    OpOfHead(code, f);
    OpOfHead(r, f);
    if at in edits {
      InvokeLength(code);
      RedirectedHead(code, at, edits, f);
      RedirectedDecoded(code[..f], edits[at], t);
      InvokeLength(r);
    } else {
      UntouchedHead(code, at, edits, f);
      SameUnits(code, r);
      if f == 1 {
        assert at + f - 1 == at;
      }
    }
  }

  lemma ValidHead(code: Code, t: Tables)
    requires Valid(code, t) && code != []
    ensures Units(code).Some? && Whole(code) && ValidFirst(code[..First(code)], t) && Valid(code[First(code)..], t)
  {
    hide Units, Whole, ValidFirst;
    FirstIsWhole(code, t);
  }

  lemma AtCallsHead(code: Code, at: nat, edits: map<nat, nat>)
    requires AtCalls(code, at, edits) && code != []
    ensures Units(code).Some? && (at in edits ==> IsInvoke(Op(code)))
            && AtCalls(code[First(code)..], at + First(code), edits)
    ensures forall pc {:trigger pc in edits} :: pc in edits ==> pc <= at || pc >= at + First(code)
  {
  }

  /** Exactly the sites change: each keeps its registers and calls its target, and every other instruction is what it
      was. */
  lemma {:induction false} EditsDone(code: Code, at: nat, t: Tables, edits: map<nat, nat>)
    requires InRange(t) && Valid(code, t) && Targets(t, edits) && AtCalls(code, at, edits)
    requires at == 0 || at - 1 !in edits
    ensures Done(code, Edited(code, at, edits), at, t, edits)
    decreases |code|
  {
    hide *;
    if code == [] {
      NothingDone(at, t, edits);
    } else {
      ValidHead(code, t);
      AtCallsHead(code, at, edits);
      HeadEdited(code, at, t, edits);
      var f := First(code);
      EditsDone(code[f..], at + f, t, edits);
      EditedTail(code, at, edits, f);
      GluedDone(code, Edited(code, at, edits), at, t, edits);
    }
  }

  lemma NothingDone(at: nat, t: Tables, edits: map<nat, nat>)
    requires InRange(t) && Targets(t, edits)
    ensures Done([], Edited([], at, edits), at, t, edits)
  {
  }

  lemma EditedTail(code: Code, at: nat, edits: map<nat, nat>, f: nat)
    requires f <= |code|
    ensures Edited(code, at, edits)[f..] == Edited(code[f..], at + f, edits)
  {
  }

  lemma GluedDone(code: Code, r: Code, at: nat, t: Tables, edits: map<nat, nat>)
    requires InRange(t) && Valid(code, t) && Targets(t, edits) && code != [] && Units(code).Some? && |r| == |code|
    requires Units(r) == Units(code) && First(r) == First(code) && Needs(Op(r)) <= |r|
    requires ValidFirst(code[..First(code)], t) && ValidFirst(r[..First(code)], t)
    requires Decoded(r[..First(code)], t) ==
             (if at in edits && Decoded(code[..First(code)], t).units != []
                 then Redirected(Decoded(code[..First(code)], t), MethodOf(t, edits[at]))
              else Decoded(code[..First(code)], t))
    requires Done(code[First(code)..], r[First(code)..], at + First(code), t, edits)
    ensures Done(code, r, at, t, edits)
  {
    hide InRange, ValidFirst, Decoded, Redirected, Units, Op, Needs;
  }

  // ---- finding the sites, then editing them ----

  /** A call begins at address `pc`. */
  ghost predicate InvokeAt(code: Code, at: nat, pc: nat)
    decreases |code|
  {
    && code != [] && Units(code).Some? && Whole(code)
    && ((pc == at && IsInvoke(Op(code))) || InvokeAt(code[First(code)..], at + First(code), pc))
  }

  lemma {:induction false} SitesInvoke(code: Code, at: nat, t: Tables, holder: Key, name: Key, pc: nat)
    requires InRange(t) && Valid(code, t) && pc in Sites(code, at, t, holder, name)
    ensures InvokeAt(code, at, pc)
    decreases |code|
  {
    hide InRange, ValidFirst, Units, Whole;
    if code != [] {
      FirstIsWhole(code, t);
    }
    if code != [] && !(Calls(t, code, holder, name) && pc == at) {
      SitesInvoke(code[First(code)..], at + First(code), t, holder, name, pc);
    }
  }

  lemma {:induction false} InvokeWithin(code: Code, at: nat, pc: nat)
    requires InvokeAt(code, at, pc)
    ensures at <= pc && pc + 1 < at + |code| && !InvokeAt(code, at, pc + 1)
    decreases |code|
  {
    var f := First(code);
    if InvokeAt(code[f..], at + f, pc) {
      InvokeWithin(code[f..], at + f, pc);
    } else {
      InvokeLength(code);
      InvokeFrom(code[f..], at + f, pc + 1);
    }
  }

  lemma {:induction false} InvokeFrom(code: Code, at: nat, pc: nat)
    requires pc < at
    ensures !InvokeAt(code, at, pc)
    decreases |code|
  {
    if code != [] && Units(code).Some? {
      InvokeFrom(code[First(code)..], at + First(code), pc);
    }
  }

  lemma {:induction false} AtCallsFrom(code: Code, at: nat, edits: map<nat, nat>, t: Tables)
    requires Valid(code, t) && (forall pc {:trigger pc in edits} :: pc in edits ==> pc < at || InvokeAt(code, at, pc))
    ensures AtCalls(code, at, edits)
    decreases |code|
  {
    hide Valid, Units, IsInvoke, Whole;
    if code != [] {
      ValidHead(code, t);
      var f := First(code);
      forall pc | pc in edits && pc >= at
          ensures (pc == at && IsInvoke(Op(code))) || (pc >= at + f && InvokeAt(code[f..], at + f, pc)) {
        if InvokeAt(code[f..], at + f, pc) {
          InvokeWithin(code[f..], at + f, pc);
        }
      }
      AtCallsFrom(code[f..], at + f, edits, t);
    }
  }

  /** What calls of a method are to become. */
  datatype Redirect = Redirect(holder: Key, name: Key, target: nat)

  /** The last of the redirects that names a method: it wins. */
  ghost function Winner(redirects: seq<Redirect>, m: MethodName): (r: Option<nat>)
    ensures r.Some? ==> r.value < |redirects|
  {
    if redirects == [] then None
    else
      var last := |redirects| - 1;
      if redirects[last].holder == m.holder && redirects[last].name == m.name then Some(last)
          else Winner(redirects[..last], m)
  }

  /** The last of the redirects that has a site at address `pc`. */
  ghost function WinnerAt(code: Code, at: nat, t: Tables, redirects: seq<Redirect>, pc: nat): (r: Option<nat>)
    requires InRange(t) && Valid(code, t)
    ensures r.Some? ==> r.value < |redirects|
    decreases |redirects|
  {
    if redirects == [] then None
    else
      var last := |redirects| - 1;
      if pc in Sites(code, at, t, redirects[last].holder, redirects[last].name) then Some(last)
      else WinnerAt(code, at, t, redirects[..last], pc)
  }

  /** From `at` on, `edits` are the sites of the redirects, each with the target of the one that wins. */
  ghost predicate Collected(code: Code, at: nat, t: Tables, edits: map<nat, nat>, redirects: seq<Redirect>)
    requires InRange(t) && Valid(code, t)
  {
    forall pc {:trigger pc in edits} {:trigger WinnerAt(code, at, t, redirects, pc)} :: pc >= at ==>
      var w := WinnerAt(code, at, t, redirects, pc);
      && (pc in edits <==> w.Some?)
      && (w.Some? ==> edits[pc] == redirects[w.value].target)
  }

  lemma OneMore(insns: Code, edits: map<nat, nat>, pc: nat, target: nat)
    requires pc + 1 < |insns| && pc + 1 !in edits
    ensures Edited(insns, 0, edits[pc := target]) ==
            Edited(insns, 0, edits)[pc := StaticUnit(insns[pc])][pc + 1 := target % UNIT]
  {
  }

  /** The edits with those of one more redirect written over them. */
  ghost function Over(edits: map<nat, nat>, sites: seq<nat>, target: nat): map<nat, nat> {
    map pc | pc in edits.Keys + (set x | x in sites) :: if pc in sites then target else edits[pc]
  }

  lemma OverMore(edits: map<nat, nat>, sites: seq<nat>, target: nat, i: nat)
    requires i < |sites|
    ensures Over(edits, sites[..i + 1], target) == Over(edits, sites[..i], target)[sites[i] := target]
  {
    assert sites[..i + 1] == sites[..i] + [sites[i]];
  }

  /** One redirect's edits, written over what the others have made. */
  method EditSites(insns: Code, units: Code, sites: seq<nat>, target: nat, ghost edits: map<nat, nat>) returns (r: Code)
    requires units == Edited(insns, 0, edits)
    requires forall pc {:trigger pc in edits} :: pc in edits ==> InvokeAt(insns, 0, pc)
    requires forall pc {:trigger pc in sites} :: pc in sites ==> InvokeAt(insns, 0, pc)
    ensures r == Edited(insns, 0, Over(edits, sites, target))
  {
    hide Edited, InvokeAt, UnitAt;
    r := units;
    var i := 0;
    assert Over(edits, sites[..0], target) == edits;
    while i < |sites|
      invariant i <= |sites| && r == Edited(insns, 0, Over(edits, sites[..i], target))
    {
      var pc := sites[i];
      ghost var more := Over(edits, sites[..i], target);
      assert pc in sites;
      InvokeWithin(insns, 0, pc);
      assert forall x {:trigger x in sites[..i]} :: x in sites[..i] ==> x in sites;
      assert pc + 1 !in edits && pc + 1 !in sites[..i];
      OneMore(insns, more, pc, target);
      OverMore(edits, sites, target, i);
      r := r[pc := StaticUnit(insns[pc])][pc + 1 := target % UNIT];
      i := i + 1;
    }
    assert sites[..i] == sites;
  }

  /** The sites of all redirects, found before anything is edited. */
  method FindAll(insns: Code, t: Tables, redirects: seq<Redirect>) returns (found: seq<seq<nat>>)
    requires InRange(t) && Valid(insns, t)
    ensures |found| == |redirects|
    ensures forall k {:trigger found[k]} ::
            0 <= k < |found| ==> found[k] == Sites(insns, 0, t, redirects[k].holder, redirects[k].name)
  {
    hide *;
    found := [];
    while |found| < |redirects|
      invariant |found| <= |redirects|
      invariant forall k {:trigger found[k]} ::
                0 <= k < |found| ==> found[k] == Sites(insns, 0, t, redirects[k].holder, redirects[k].name)
    {
      var r := redirects[|found|];
      var sites := FindSites(insns, t, r.holder, r.name);
      found := found + [sites];
    }
  }

  /** An instruction that calls a method. */
  ghost predicate IsCall(i: Instruction) {
    && i.units != [] && FormatOf(i.units[0] % 0x100) in {F35c, F3rc} && TableOf(i.units[0] % 0x100) == Methods
    && |i.refs| == 1 && i.refs[0].MethodRef?
  }

  /** What redirecting makes of an instruction: a call of a named method becomes a static call of its target. */
  ghost function Changed(i: Instruction, redirects: seq<Redirect>, t: Tables): Instruction
    requires InRange(t) && forall k {:trigger redirects[k]} ::
             0 <= k < |redirects| ==> redirects[k].target < |t.methods|
  {
    if IsCall(i) && Winner(redirects, i.refs[0].called).Some?
    then Redirected(i, MethodOf(t, redirects[Winner(redirects, i.refs[0].called).value].target))
    else i
  }

  ghost function ChangedAll(instructions: seq<Instruction>, redirects: seq<Redirect>, t: Tables): seq<Instruction>
    requires InRange(t) && forall k {:trigger redirects[k]} ::
             0 <= k < |redirects| ==> redirects[k].target < |t.methods|
  {
    seq(|instructions|, i requires 0 <= i < |instructions| => Changed(instructions[i], redirects, t))
  }

  /** `redirect_jar` on one method's code: exactly the calls of the named methods change, each to the target of
      the last redirect that names it, and every instruction stays where it was. */
  method RedirectCode(insns: Code, t: Tables, redirects: seq<Redirect>) returns (r: Code)
    requires InRange(t) && Small(t) && Valid(insns, t)
    requires forall k {:trigger redirects[k]} :: 0 <= k < |redirects| ==> redirects[k].target < |t.methods|
    ensures Valid(r, t) && Disassembly(r, t) == ChangedAll(Disassembly(insns, t), redirects, t)
    ensures Boundaries(r, 0) == Boundaries(insns, 0)
  {
    hide InRange, Valid, Sites, Edited, InvokeAt, Done, AtCalls, Collected, ChangedAll, Disassembly, Boundaries;
    var found := FindAll(insns, t, redirects);
    ghost var edits: map<nat, nat> := map[];
    r := insns;
    NoEdits(insns);
    NoneCollected(insns, t);
    var k := 0;
    while k < |redirects|
      invariant k <= |redirects| && r == Edited(insns, 0, edits) && Collected(insns, 0, t, edits, redirects[..k])
      invariant forall pc {:trigger pc in edits} :: pc in edits ==> InvokeAt(insns, 0, pc)
    {
      forall pc | pc in found[k] ensures InvokeAt(insns, 0, pc) {
        SitesInvoke(insns, 0, t, redirects[k].holder, redirects[k].name, pc);
      }
      ghost var before := edits;
      r := EditSites(insns, r, found[k], redirects[k].target, edits);
      edits := Over(edits, found[k], redirects[k].target);
      CollectedMore(insns, t, before, edits, redirects, k);
      k := k + 1;
    }
    assert redirects[..k] == redirects;
    CollectedTargets(insns, t, edits, redirects);
    AtCallsFrom(insns, 0, edits, t);
    EditsDone(insns, 0, t, edits);
    DoneParts(insns, r, t, edits);
    ExpectedIs(insns, 0, t, edits, redirects);
  }

  lemma NoEdits(insns: Code)
    ensures Edited(insns, 0, map[]) == insns
  {
  }

  lemma NoneCollected(insns: Code, t: Tables)
    requires InRange(t) && Valid(insns, t)
    ensures Collected(insns, 0, t, map[], [])
  {
  }

  lemma CollectedMore(insns: Code, t: Tables, edits: map<nat, nat>, more: map<nat, nat>, redirects: seq<Redirect>,
      k: nat)
    requires InRange(t) && Valid(insns, t) && k < |redirects| && Collected(insns, 0, t, edits, redirects[..k])
    requires var sites := Sites(insns, 0, t, redirects[k].holder, redirects[k].name);
             && (forall pc {:trigger pc in more} :: pc in more <==> pc in edits || pc in sites)
             && (forall pc {:trigger pc in more} ::
                  pc in more ==> more[pc] == if pc in sites then redirects[k].target else edits[pc])
    ensures Collected(insns, 0, t, more, redirects[..k + 1])
  {
    hide InRange, Valid, Sites;
    assert redirects[..k + 1][..k] == redirects[..k];
    var sites := Sites(insns, 0, t, redirects[k].holder, redirects[k].name);
    forall pc: nat
      ensures WinnerAt(insns, 0, t, redirects[..k + 1], pc) == if pc in sites then Some(k)
              else WinnerAt(insns, 0, t, redirects[..k], pc)
    {
    }
  }

  lemma CollectedTargets(insns: Code, t: Tables, edits: map<nat, nat>, redirects: seq<Redirect>)
    requires InRange(t) && Small(t) && Valid(insns, t) && Collected(insns, 0, t, edits, redirects)
    requires forall k {:trigger redirects[k]} :: 0 <= k < |redirects| ==> redirects[k].target < |t.methods|
    ensures Targets(t, edits)
  {
    hide InRange, Valid, Sites, WinnerAt;
  }

  lemma DoneParts(code: Code, r: Code, t: Tables, edits: map<nat, nat>)
    requires Done(code, r, 0, t, edits)
    ensures InRange(t) && Valid(code, t) && Targets(t, edits) && Valid(r, t)
    ensures Disassembly(r, t) == Expected(code, 0, t, edits) && Boundaries(r, 0) == Boundaries(code, 0)
  {
  }

  // ---- what the sites are, instruction by instruction ----

  lemma {:induction false} SitesFrom(code: Code, at: nat, t: Tables, holder: Key, name: Key, pc: nat)
    requires InRange(t) && Valid(code, t) && pc in Sites(code, at, t, holder, name)
    ensures at <= pc
    decreases |code|
  {
    hide InRange, ValidFirst, Units, Calls;
    if code != [] && pc != at {
      SitesFrom(code[First(code)..], at + First(code), t, holder, name, pc);
    }
  }

  lemma SitesHead(code: Code, at: nat, t: Tables, holder: Key, name: Key, pc: nat)
    requires InRange(t) && Valid(code, t) && code != [] && Units(code).Some? && Valid(code[First(code)..], t)
    ensures at in Sites(code, at, t, holder, name) <==> Calls(t, code, holder, name)
    ensures pc > at ==>
            (pc in Sites(code, at, t, holder, name) <==>
                pc in Sites(code[First(code)..], at + First(code), t, holder, name))
  {
    hide InRange, ValidFirst, Units, Calls;
    var f := First(code);
    if at in Sites(code[f..], at + f, t, holder, name) {
      SitesFrom(code[f..], at + f, t, holder, name, at);
    }
  }

  /** The site at an instruction belongs to the redirects that name the method it calls. */
  lemma {:induction false} WinnerHead(code: Code, at: nat, t: Tables, redirects: seq<Redirect>)
    requires InRange(t) && Valid(code, t) && code != [] && Units(code).Some? && Valid(code[First(code)..], t)
    ensures IsInvoke(Op(code)) ==> |code| > 1 && code[1] < |t.methods|
    ensures WinnerAt(code, at, t, redirects, at) == if IsInvoke(Op(code)) then Winner(redirects, MethodOf(t, code[1]))
            else None
    decreases |redirects|
  {
    hide InRange, Valid, ValidFirst, Units, Sites, MethodOf;
    InvokeNames(code, t);
    if redirects != [] {
      var last := |redirects| - 1;
      SitesHead(code, at, t, redirects[last].holder, redirects[last].name, at);
      WinnerHead(code, at, t, redirects[..last]);
    }
  }

  lemma InvokeNames(code: Code, t: Tables)
    requires InRange(t) && code != [] && Valid(code, t)
    ensures IsInvoke(Op(code)) ==> |code| > 1 && code[1] < |t.methods|
  {
    hide InRange, Slots, Units;
    if IsInvoke(Op(code)) {
      var f := First(code);
      OpOfHead(code, f);
      SlotsAre(Op(code));
      var slots := Slots(Op(code));
      assert slots[0] == (1, MethodIndex);
      assert Names(t, MethodIndex, Get(code[..f], slots[0]));
    }
  }

  lemma {:induction false} WinnerTail(code: Code, at: nat, t: Tables, redirects: seq<Redirect>, pc: nat)
    requires InRange(t) && Valid(code, t) && code != [] && Units(code).Some? && Valid(code[First(code)..], t) && pc > at
    ensures WinnerAt(code, at, t, redirects, pc) == WinnerAt(code[First(code)..], at + First(code), t, redirects, pc)
    decreases |redirects|
  {
    hide InRange, Valid, ValidFirst, Units, Sites, Calls;
    if redirects != [] {
      var last := |redirects| - 1;
      SitesHead(code, at, t, redirects[last].holder, redirects[last].name, pc);
      WinnerTail(code, at, t, redirects[..last], pc);
    }
  }

  lemma CollectedTail(code: Code, at: nat, t: Tables, edits: map<nat, nat>, redirects: seq<Redirect>)
    requires InRange(t) && Valid(code, t) && code != [] && Units(code).Some? && Valid(code[First(code)..], t)
    requires Collected(code, at, t, edits, redirects)
    ensures Collected(code[First(code)..], at + First(code), t, edits, redirects)
  {
    hide InRange, Valid, Units, WinnerAt, Op;
    forall pc | pc >= at + First(code)
      ensures WinnerAt(code, at, t, redirects, pc) == WinnerAt(code[First(code)..], at + First(code), t, redirects, pc)
    {
      WinnerTail(code, at, t, redirects, pc);
    }
  }

  /** A decoded call names the method it calls. */
  lemma DecodedCall(code: Code, t: Tables)
    requires InRange(t) && code != [] && Valid(code, t) && Units(code).Some? && ValidFirst(code[..First(code)], t)
    ensures IsInvoke(Op(code)) ==> |code| > 1 && code[1] < |t.methods|
    ensures var i := Decoded(code[..First(code)], t);
            && (IsCall(i) <==> IsInvoke(Op(code))) && i.units != []
            && (IsInvoke(Op(code)) ==> i.refs == [MethodRef(MethodOf(t, code[1]))])
  {
    hide InRange, MethodOf, Slots, FormatOf, TableOf;
    InvokeNames(code, t);
    var f := First(code);
    OpOfHead(code, f);
    SlotsAre(Op(code));
    InvokesAre(Op(code));
    var slots := Slots(Op(code));
    assert Masked(code[..f], slots)[0] == code[0] by {
      assert Plain(slots, 0);
    }
  }

  lemma {:induction false} ExpectedIs(code: Code, at: nat, t: Tables, edits: map<nat, nat>, redirects: seq<Redirect>)
    requires InRange(t) && Valid(code, t) && Targets(t, edits) && Collected(code, at, t, edits, redirects)
    requires forall k {:trigger redirects[k]} :: 0 <= k < |redirects| ==> redirects[k].target < |t.methods|
    ensures Expected(code, at, t, edits) == ChangedAll(Disassembly(code, t), redirects, t)
    decreases |code|
  {
    hide *;
    if code == [] {
      NothingExpected(at, t, edits, redirects);
    } else {
      ExpectedHead(code, at, t, edits, redirects);
      CollectedTail(code, at, t, edits, redirects);
      ExpectedIs(code[First(code)..], at + First(code), t, edits, redirects);
      ExpectedParts(code, at, t, edits, redirects);
    }
  }

  lemma NothingExpected(at: nat, t: Tables, edits: map<nat, nat>, redirects: seq<Redirect>)
    requires InRange(t) && Targets(t, edits)
    requires forall k {:trigger redirects[k]} :: 0 <= k < |redirects| ==> redirects[k].target < |t.methods|
    ensures Valid([], t) && Expected([], at, t, edits) == ChangedAll(Disassembly([], t), redirects, t)
  {
  }

  lemma ExpectedHead(code: Code, at: nat, t: Tables, edits: map<nat, nat>, redirects: seq<Redirect>)
    requires InRange(t) && Valid(code, t) && Targets(t, edits) && Collected(code, at, t, edits, redirects)
    requires forall k {:trigger redirects[k]} :: 0 <= k < |redirects| ==> redirects[k].target < |t.methods|
    requires code != []
    ensures Units(code).Some? && ValidFirst(code[..First(code)], t) && Valid(code[First(code)..], t)
    ensures var first := Decoded(code[..First(code)], t);
            (if at in edits && first.units != [] then Redirected(first, MethodOf(t, edits[at])) else first) ==
                Changed(first, redirects, t)
  {
    ValidHead(code, t);
    hide InRange, Valid, ValidFirst, Units, MethodOf, Redirected, Decoded, WinnerAt, Winner, Op, IsCall;
    DecodedCall(code, t);
    WinnerHead(code, at, t, redirects);
  }

  lemma ExpectedParts(code: Code, at: nat, t: Tables, edits: map<nat, nat>, redirects: seq<Redirect>)
    requires InRange(t) && Valid(code, t) && Targets(t, edits) && code != []
    requires Units(code).Some? && ValidFirst(code[..First(code)], t) && Valid(code[First(code)..], t)
    requires forall k {:trigger redirects[k]} :: 0 <= k < |redirects| ==> redirects[k].target < |t.methods|
    requires var first := Decoded(code[..First(code)], t);
             (if at in edits && first.units != [] then Redirected(first, MethodOf(t, edits[at])) else first) ==
                 Changed(first, redirects, t)
    requires Expected(code[First(code)..], at + First(code), t, edits) ==
             ChangedAll(Disassembly(code[First(code)..], t), redirects, t)
    ensures Expected(code, at, t, edits) == ChangedAll(Disassembly(code, t), redirects, t)
  {
    hide *;
    FirstExpected(code, at, t, edits);
    ChangedFirst(Decoded(code[..First(code)], t), Disassembly(code[First(code)..], t), redirects, t);
  }

  lemma FirstExpected(code: Code, at: nat, t: Tables, edits: map<nat, nat>)
    requires InRange(t) && Valid(code, t) && Targets(t, edits) && code != []
    requires Units(code).Some? && ValidFirst(code[..First(code)], t) && Valid(code[First(code)..], t)
    ensures var f, first := First(code), Decoded(code[..First(code)], t);
            && Disassembly(code, t) == [first] + Disassembly(code[f..], t)
            && Expected(code, at, t, edits) ==
               [if at in edits && first.units != [] then Redirected(first, MethodOf(t, edits[at])) else first]
               + Expected(code[f..], at + f, t, edits)
  {
    hide InRange, Valid, ValidFirst, Units, Redirected, Decoded, MethodOf, Op;
  }

  lemma ChangedFirst(first: Instruction, rest: seq<Instruction>, redirects: seq<Redirect>, t: Tables)
    requires InRange(t) && forall k {:trigger redirects[k]} ::
             0 <= k < |redirects| ==> redirects[k].target < |t.methods|
    ensures ChangedAll([first] + rest, redirects, t) == [Changed(first, redirects, t)] + ChangedAll(rest, redirects, t)
  {
    hide InRange, Changed;
  }
}
