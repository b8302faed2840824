/** Rewriting a method's code for remapped indices (`Writer::code` in
    `crates/aim-android-image/src/reindex.rs`, `instruction_units` in `crates/aim-android-image/src/dex.rs`).

    Code is a sequence of 16-bit units. Writes `as u16` keep the low 16 bits. */
module DexCode {
  import opened Common
  import opened DexFormats
  import opened DexInsert
  import opened DexPlan

  function Op(code: Code): nat
    requires code != []
  {
    code[0] % 0x100
  }

  // ---- instruction lengths ----

  function OpUnits(op: nat): nat {
    if op in {0x01, 0x04, 0x07, 0x1d, 0x1e, 0x21, 0x27, 0x28, 0x73, 0x79, 0x7a} || 0x0a <= op <= 0x12
        || 0x3e <= op <= 0x43
       || 0x7b <= op <= 0x8f || 0xb0 <= op <= 0xcf || 0xe3 <= op <= 0xf9 then 1
    else if op in {0x02, 0x05, 0x08, 0x13, 0x15, 0x16, 0x19, 0x1a, 0x1c, 0x1f, 0x20, 0x22, 0x23, 0x29, 0xfe, 0xff}
       || 0x2d <= op <= 0x3d || 0x44 <= op <= 0x6d || 0x90 <= op <= 0xaf || 0xd0 <= op <= 0xe2 then 2
    else if op in {0xfa, 0xfb} then 4
    else if op == 0x18 then 5
    else 3
  }

  /** `instruction_units` of the instruction the code begins with; none if its payload is cut off. */
  function InstructionUnits(code: Code): Option<nat>
    requires code != []
  {
    if Op(code) == 0 then
      if code[0] == 0x0100 then
        if |code| > 1 then Some(4 + 2 * code[1]) else None
      else if code[0] == 0x0200 then
        if |code| > 1 then Some(2 + 4 * code[1]) else None
      else if code[0] == 0x0300 then
        if |code| > 3 then Some(4 + ((code[2] + code[3] * UNIT) * code[1] + 1) / 2) else None
      else Some(1)
    else Some(OpUnits(Op(code)))
  }

  /** It is what the formats say. */
  lemma UnitsAgree(code: Code)
    requires code != []
    ensures InstructionUnits(code) == Units(code)
  {
    if code[0] == 0x0300 && |code| > 3 {
      HalfUp((code[2] + code[3] * UNIT) * code[1]);
      assert (code[2] + code[3] * UNIT) * code[1] == code[1] * (code[2] + 0x10000 * code[3]);
    } else if Op(code) == 0 {
      assert FormatOf(0) == F10x;
    } else {
      LengthsAgree(Op(code));
    }
  }

  lemma HalfUp(n: nat)
    ensures (n + 1) / 2 == n / 2 + n % 2
  {
  }

  /** Every opcode's length is that of its format. */
  lemma LengthsAgree(op: nat)
    requires 0 < op < 0x100
    ensures OpUnits(op) == Length(FormatOf(op))
  {
  }

  /** How much of the code its first instruction takes. */
  function First(code: Code): (n: nat)
    requires code != [] && Units(code).Some?
    ensures 0 < n <= |code|
  {
    if Units(code).value < |code| then Units(code).value else |code|
  }

  /** Where the instructions begin, counted from `at`. */
  function Boundaries(code: Code, at: nat): seq<nat>
    decreases |code|
  {
    if code == [] || Units(code).None? then [] else [at] + Boundaries(code[First(code)..], at + First(code))
  }

  // ---- index operands ----

  datatype Kind = StringIndex | WideStringIndex | TypeIndex | FieldIndex | MethodIndex | ProtoIndex

  /** Which units of an instruction are indices into which table of the model; call sites and method handles are in
      none. */
  function Slots(op: nat): seq<(nat, Kind)> {
    var operands := Operands(op);
    (if |operands| > 0 then SlotOf(operands[0]) else []) + (if |operands| > 1 then SlotOf(operands[1]) else [])
  }

  function SlotOf(o: Operand): seq<(nat, Kind)> {
    match o.table
    case Strings => [(o.at, if o.units == 2 then WideStringIndex else StringIndex)]
    case Types => [(o.at, TypeIndex)]
    case Fields => [(o.at, FieldIndex)]
    case Methods => [(o.at, MethodIndex)]
    case Protos => [(o.at, ProtoIndex)]
    case _ => []
  }

  /** The opcodes the rewriter knows are those with an index into a table that moves. */
  lemma SlotsAre(op: nat)
    requires op < 0x100
    ensures Slots(op) ==
            if op == 0x1a then [(1, StringIndex)]
            else if op == 0x1b then [(1, WideStringIndex)]
            else if IsType(op) then [(1, TypeIndex)]
            else if 0x52 <= op <= 0x6d then [(1, FieldIndex)]
            else if IsInvoke(op) then [(1, MethodIndex)]
            else if op in {0xfa, 0xfb} then [(1, MethodIndex), (3, ProtoIndex)]
            else if op == 0xff then [(1, ProtoIndex)]
            else []
  {
    hide Operands;
    OperandsAre(op);
  }

  lemma OperandsAre(op: nat)
    requires op < 0x100
    ensures Operands(op) ==
            if op == 0x1a then [Operand(1, 1, Strings)]
            else if op == 0x1b then [Operand(1, 2, Strings)]
            else if IsType(op) then [Operand(1, 1, Types)]
            else if 0x52 <= op <= 0x6d then [Operand(1, 1, Fields)]
            else if IsInvoke(op) then [Operand(1, 1, Methods)]
            else if op in {0xfa, 0xfb} then [Operand(1, 1, Methods), Operand(3, 1, Protos)]
            else if op == 0xff then [Operand(1, 1, Protos)]
            else if op in {0xfc, 0xfd} then [Operand(1, 1, CallSites)]
            else if op == 0xfe then [Operand(1, 1, MethodHandles)]
            else []
  {
  }

  /** Call sites and method handles, which the rewriter refuses. */
  predicate Refused(op: nat) {
    0xfc <= op <= 0xfe
  }

  /** The units a slot's operand takes. */
  function Last(slot: (nat, Kind)): nat {
    if slot.1.WideStringIndex? then slot.0 + 1 else slot.0
  }

  function Get(code: Code, slot: (nat, Kind)): nat
    requires Last(slot) < |code|
  {
    if slot.1.WideStringIndex? then code[slot.0] + code[slot.0 + 1] * UNIT else code[slot.0]
  }

  function NewIndexOf(s: Shifts, kind: Kind, index: nat): nat {
    match kind
    case StringIndex => Map(s.strings, index)
    case WideStringIndex => Map(s.strings, index)
    case TypeIndex => Map(s.types, index)
    case FieldIndex => index
    case MethodIndex => Map(s.methods, index)
    case ProtoIndex => Map(s.protos, index)
  }

  // ---- rewriting ----

  predicate IsType(op: nat) {
    op in {0x1c, 0x1f, 0x20, 0x22, 0x23, 0x24, 0x25}
  }

  predicate IsInvoke(op: nat) {
    0x6e <= op <= 0x72 || 0x74 <= op <= 0x78
  }

  /** How many units the rewriter looks at. */
  function Needs(op: nat): nat {
    if op == 0x1b then 3
    else if op in {0xfa, 0xfb} then 4
    else if op == 0x1a || IsType(op) || IsInvoke(op) || op == 0xff then 2
    else 1
  }

  /** The operands of the first instruction lie in the code. */
  predicate Whole(code: Code)
    requires code != []
  {
    |code| >= Needs(Op(code))
  }

  /** The first instruction's indices remapped; none for what is refused: a string index past 16 bits,
      call sites and method handles. */
  function RewriteFirst(code: Code, s: Shifts): (r: Option<Code>)
    requires code != [] && Whole(code)
    ensures r.Some? ==> |r.value| == |code|
  {
    var op := Op(code);
    if op == 0x1a then
      var i := Map(s.strings, code[1]);
      if i > 0xffff then None else Some(code[1 := i])
    else if op == 0x1b then
      var i := Map(s.strings, code[1] + code[2] * UNIT);
      Some(code[1 := i % UNIT][2 := i / UNIT % UNIT])
    else if IsType(op) then Some(code[1 := Map(s.types, code[1]) % UNIT])
    else if IsInvoke(op) then Some(code[1 := Map(s.methods, code[1]) % UNIT])
    else if op in {0xfa, 0xfb} then Some(code[1 := Map(s.methods, code[1]) % UNIT][3 := Map(s.protos, code[3]) % UNIT])
    else if op == 0xff then Some(code[1 := Map(s.protos, code[1]) % UNIT])
    else if Refused(op) then None
    else Some(code)
  }

  /** What the rewriter does to every opcode's instruction: which units it replaces and through which table. */
  lemma FirstRewritten(code: Code, s: Shifts)
    requires code != [] && Whole(code)
    ensures var op, r := code[0] % 0x100, RewriteFirst(code, s);
            && (op == 0x1a ==>
                  |code| > 1
                  && r == if Map(s.strings, code[1]) > 0xffff then None else Some(code[1 := Map(s.strings, code[1])]))
            && (op == 0x1b ==>
                  |code| > 2 && r.Some? && r.value[0] == code[0] && r.value[3..] == code[3..]
                  && r.value[1] < 0x10000 && r.value[2] < 0x10000
                  && r.value[1] + 0x10000 * r.value[2] == Map(s.strings, code[1] + 0x10000 * code[2]) % 0x1_0000_0000)
            && (op in {0x1c, 0x1f, 0x20, 0x22, 0x23, 0x24, 0x25} ==>
                  |code| > 1 && r == Some(code[1 := Map(s.types, code[1]) % 0x10000]))
            && (0x6e <= op <= 0x72 || 0x74 <= op <= 0x78 ==>
                  |code| > 1 && r == Some(code[1 := Map(s.methods, code[1]) % 0x10000]))
            && (op in {0xfa, 0xfb} ==>
                  |code| > 3
                  && r == Some(code[1 := Map(s.methods, code[1]) % 0x10000][3 := Map(s.protos, code[3]) % 0x10000]))
            && (op == 0xff ==> |code| > 1 && r == Some(code[1 := Map(s.protos, code[1]) % 0x10000]))
            && (0xfc <= op <= 0xfe ==> r.None?)
            && (op < 0x1a || op in {0x1d, 0x1e, 0x21} || 0x26 <= op <= 0x6d || op == 0x73 || 0x79 <= op <= 0xf9 ==>
                  r == Some(code))
  {
    hide Map;
    if code[0] % 0x100 == 0x1b {
      var i := Map(s.strings, code[1] + code[2] * UNIT);
      assert RewriteFirst(code, s).value[3..] == code[3..];
      SplitInTwo(i);
    }
  }

  lemma SplitInTwo(i: nat)
    ensures i % UNIT + 0x10000 * (i / UNIT % UNIT) == i % 0x1_0000_0000
  {
  }

  /** Every instruction's operands lie in the code. */
  predicate AllWhole(code: Code)
    decreases |code|
  {
    code != [] ==> Whole(code) && (Units(code).Some? ==> AllWhole(code[First(code)..]))
  }

  /** All instructions rewritten in turn. */
  function Rewrite(code: Code, s: Shifts): (r: Option<Code>)
    requires AllWhole(code)
    ensures r.Some? ==> |r.value| == |code|
    decreases |code|
  {
    if code == [] then Some([])
    else
      var head := RewriteFirst(code, s);
      if head.None? || Units(code).None? then None
      else
        var tail := Rewrite(code[First(code)..], s);
        if tail.None? then None else Some(head.value[..First(code)] + tail.value)
  }

  // ---- meaning ----

  datatype Ref =
    | StringRef(text: Key)
    | TypeRef(name: Key)
    | FieldRef(field: FieldName)
    | MethodRef(called: MethodName)
    | ProtoRef(sig: Signature)

  ghost predicate Names(t: Tables, kind: Kind, index: nat) {
    match kind
    case StringIndex => index < |t.strings|
    case WideStringIndex => index < |t.strings|
    case TypeIndex => index < |t.types|
    case FieldIndex => index < |t.fields|
    case MethodIndex => index < |t.methods|
    case ProtoIndex => index < |t.protos|
  }

  ghost function Resolve(t: Tables, kind: Kind, index: nat): Ref
    requires InRange(t) && Names(t, kind, index)
  {
    match kind
    case StringIndex => StringRef(t.strings[index])
    case WideStringIndex => StringRef(t.strings[index])
    case TypeIndex => TypeRef(TypeName(t, index))
    case FieldIndex => FieldRef(FieldOf(t, index))
    case MethodIndex => MethodRef(MethodOf(t, index))
    case ProtoIndex => ProtoRef(ProtoOf(t, index))
  }

  /** Every index operand lies in the code and names an entry of the tables. */
  ghost predicate ValidSlots(head: Code, slots: seq<(nat, Kind)>, t: Tables) {
    forall i {:trigger slots[i]} ::
        0 <= i < |slots| ==> Last(slots[i]) < |head| && Names(t, slots[i].1, Get(head, slots[i]))
  }

  ghost predicate ValidFirst(head: Code, t: Tables) {
    head != [] && ValidSlots(head, Slots(Op(head)), t)
  }

  /** The units that are not part of an index. */
  predicate Plain(slots: seq<(nat, Kind)>, i: nat) {
    forall k {:trigger slots[k]} :: 0 <= k < |slots| ==> i != slots[k].0 && i != Last(slots[k])
  }

  function Masked(head: Code, slots: seq<(nat, Kind)>): Code {
    seq(|head|, i requires 0 <= i < |head| => if Plain(slots, i) then head[i] else 0)
  }

  ghost function Refs(head: Code, slots: seq<(nat, Kind)>, t: Tables): seq<Ref>
    requires InRange(t) && ValidSlots(head, slots, t)
  {
    seq(|slots|, i requires 0 <= i < |slots| => Resolve(t, slots[i].1, Get(head, slots[i])))
  }

  /** An instruction with its indices resolved. */
  datatype Instruction = Instruction(units: Code, refs: seq<Ref>)

  ghost function Decoded(head: Code, t: Tables): Instruction
    requires InRange(t) && ValidFirst(head, t)
  {
    Instruction(Masked(head, Slots(Op(head))), Refs(head, Slots(Op(head)), t))
  }

  /** Code whose every instruction is whole and names entries of the tables. */
  ghost predicate Valid(code: Code, t: Tables)
    decreases |code|
  {
    code != [] ==>
      && Units(code).Some? && ValidFirst(code[..First(code)], t)
      && Valid(code[First(code)..], t)
  }

  /** The code disassembled against the tables. */
  ghost function Disassembly(code: Code, t: Tables): seq<Instruction>
    requires InRange(t) && Valid(code, t)
    decreases |code|
  {
    if code == [] then [] else [Decoded(code[..First(code)], t)] + Disassembly(code[First(code)..], t)
  }

  // ---- rewriting keeps the meaning ----

  /** The tables the rewritten code is for. */
  ghost predicate Remapped(was: Tables, s: Shifts, now: Tables) {
    InRange(was) && InRange(now) && Moved(was, s, now) && Small(now) && |now.strings| <= UNIT * UNIT
  }

  /** A remapped index names the same thing, and no 16-bit operand is cut short. */
  lemma IndexKept(was: Tables, s: Shifts, now: Tables, kind: Kind, index: nat)
    requires Remapped(was, s, now) && Names(was, kind, index)
    ensures var i := NewIndexOf(s, kind, index);
            && Names(now, kind, i) && Resolve(now, kind, i) == Resolve(was, kind, index)
            && (!kind.FieldIndex? ==> i < UNIT * UNIT)
                 && (kind.TypeIndex? || kind.MethodIndex? || kind.ProtoIndex? ==> i < UNIT)
  {
    match kind
    case StringIndex => assert was.strings[index] == now.strings[Map(s.strings, index)];
    case WideStringIndex => assert was.strings[index] == now.strings[Map(s.strings, index)];
    case TypeIndex => TypeKept(was, s, now, index);
    case FieldIndex => FieldKept(was, s, now, index);
    case MethodIndex => MethodKept(was, s, now, index);
    case ProtoIndex => ProtoKept(was, s, now, index);
  }

  /** What a rewritten instruction has at its index operands: the new indices. */
  ghost predicate Carries(head: Code, now: Code, slots: seq<(nat, Kind)>, s: Shifts) {
    && |now| == |head|
    && (forall i {:trigger slots[i]} ::
         0 <= i < |slots| ==>
             Last(slots[i]) < |head| && Get(now, slots[i]) == NewIndexOf(s, slots[i].1, Get(head, slots[i])))
    && (forall i {:trigger now[i]} :: 0 <= i < |head| && Plain(slots, i) ==> now[i] == head[i])
  }

  lemma CarriesDecoded(was: Tables, s: Shifts, now: Tables, head: Code, h: Code)
    requires Remapped(was, s, now) && ValidFirst(head, was) && h != [] && Op(h) == Op(head)
             && Carries(head, h, Slots(Op(head)), s)
    ensures ValidFirst(h, now) && Decoded(h, now) == Decoded(head, was)
  {
    hide Remapped, Slots, Moved, InRange, Names, Resolve, NewIndexOf, Get;
    RemappedRanges(was, s, now);
    var slots := Slots(Op(head));
    forall i | 0 <= i < |slots|
      ensures Names(now, slots[i].1, Get(h, slots[i]))
              && Resolve(now, slots[i].1, Get(h, slots[i])) == Resolve(was, slots[i].1, Get(head, slots[i]))
    {
      IndexKept(was, s, now, slots[i].1, Get(head, slots[i]));
    }
    assert Masked(h, slots) == Masked(head, slots);
    assert Refs(h, slots, now) == Refs(head, slots, was);
  }

  lemma RemappedRanges(was: Tables, s: Shifts, now: Tables)
    requires Remapped(was, s, now)
    ensures InRange(was) && InRange(now)
  {
  }

  lemma WideParts(i: nat)
    requires i < UNIT * UNIT
    ensures i % UNIT + i / UNIT % UNIT * UNIT == i
  {
  }

  lemma CarriesShort(head: Code, s: Shifts, kind: Kind)
    requires |head| > 1 && !kind.WideStringIndex?
    ensures Carries(head, head[1 := NewIndexOf(s, kind, head[1])], [(1, kind)], s)
  {
    var slots := [(1, kind)];
    assert slots[0] == (1, kind);
    assert forall i :: Plain(slots, i) ==> i != slots[0].0;
  }

  lemma CarriesTwo(head: Code, s: Shifts)
    requires |head| > 3
    ensures Carries(head, head[1 := Map(s.methods, head[1])][3 := Map(s.protos, head[3])],
            [(1, MethodIndex), (3, ProtoIndex)], s)
  {
    var slots := [(1, MethodIndex), (3, ProtoIndex)];
    assert slots[0] == (1, MethodIndex) && slots[1] == (3, ProtoIndex);
    assert forall i :: Plain(slots, i) ==> i != slots[0].0 && i != slots[1].0;
  }

  lemma CarriesWide(head: Code, s: Shifts)
    requires |head| > 2 && Map(s.strings, head[1] + head[2] * UNIT) < UNIT * UNIT
    ensures var i := Map(s.strings, head[1] + head[2] * UNIT);
            Carries(head, head[1 := i % UNIT][2 := i / UNIT % UNIT], [(1, WideStringIndex)], s)
  {
    var slots := [(1, WideStringIndex)];
    assert slots[0] == (1, WideStringIndex);
    WideParts(Map(s.strings, head[1] + head[2] * UNIT));
    assert forall i :: Plain(slots, i) ==> i != slots[0].0 && i != Last(slots[0]);
  }

  lemma CarriesNothing(head: Code, s: Shifts)
    ensures Carries(head, head, [], s)
  {
  }

  lemma SlotKept(was: Tables, s: Shifts, now: Tables, head: Code, slots: seq<(nat, Kind)>, i: nat)
    requires Remapped(was, s, now) && ValidSlots(head, slots, was) && i < |slots|
    ensures Last(slots[i]) < |head|
    ensures var x := NewIndexOf(s, slots[i].1, Get(head, slots[i]));
            (!slots[i].1.FieldIndex? ==> x < UNIT * UNIT)
                && (slots[i].1.TypeIndex? || slots[i].1.MethodIndex? || slots[i].1.ProtoIndex? ==> x < UNIT)
  {
    IndexKept(was, s, now, slots[i].1, Get(head, slots[i]));
  }

  /** The first instruction's indices are exactly remapped. */
  lemma FirstCarries(was: Tables, s: Shifts, now: Tables, code: Code, f: nat)
    requires Remapped(was, s, now) && code != [] && Whole(code) && Needs(Op(code)) <= f <= |code|
    requires ValidFirst(code[..f], was) && RewriteFirst(code, s).Some?
    ensures var c := RewriteFirst(code, s).value;
            Op(c) == Op(code) && Carries(code[..f], c[..f], Slots(Op(code)), s) && (Op(code) == 0 ==> c == code)
  {
    hide Remapped, Carries, ValidSlots, Map, Slots;
    SlotsAre(Op(code));
    var head, op := code[..f], Op(code);
    var slots, c := Slots(op), RewriteFirst(code, s).value;
    assert Op(head) == op;
    if |slots| > 0 {
      SlotKept(was, s, now, head, slots, 0);
    }
    if op == 0x1a {
      CarriesShort(head, s, StringIndex);
      assert c[..f] == head[1 := Map(s.strings, head[1])];
    } else if op == 0x1b {
      CarriesWide(head, s);
      var i := Map(s.strings, head[1] + head[2] * UNIT);
      assert c[..f] == head[1 := i % UNIT][2 := i / UNIT % UNIT];
    } else if IsType(op) {
      CarriesShort(head, s, TypeIndex);
      assert c[..f] == head[1 := Map(s.types, head[1])];
    } else if 0x52 <= op <= 0x6d {
      CarriesShort(head, s, FieldIndex);
      assert c[..f] == head[1 := head[1]];
    } else if IsInvoke(op) {
      CarriesShort(head, s, MethodIndex);
      assert c[..f] == head[1 := Map(s.methods, head[1])];
    } else if op in {0xfa, 0xfb} {
      SlotKept(was, s, now, head, slots, 1);
      CarriesTwo(head, s);
      assert c[..f] == head[1 := Map(s.methods, head[1])][3 := Map(s.protos, head[3])];
    } else if op == 0xff {
      CarriesShort(head, s, ProtoIndex);
      assert c[..f] == head[1 := Map(s.protos, head[1])];
    } else {
      CarriesNothing(head, s);
    }
  }

  lemma SameUnits(code: Code, c: Code)
    requires code != [] && Units(code).Some? && |c| == |code| && Op(c) == Op(code)
    requires Op(code) == 0 ==> c[..First(code)] == code[..First(code)]
    ensures Units(c) == Units(code)
  {
    if Op(code) == 0 {
      var f := First(code);
      assert c[0] == c[..f][0] && code[0] == code[..f][0];
      if f > 1 {
        assert c[1] == c[..f][1] && code[1] == code[..f][1];
      }
      if f > 3 {
        assert c[2] == c[..f][2] && code[2] == code[..f][2];
        assert c[3] == c[..f][3] && code[3] == code[..f][3];
      }
    }
  }

  lemma NeedsFit(code: Code)
    requires code != [] && Units(code).Some? && Whole(code)
    ensures Needs(Op(code)) <= First(code)
  {
    if Op(code) != 0 {
      UnitsAgree(code);
      hide Units, FormatOf, Length;
      assert Needs(Op(code)) <= OpUnits(Op(code));
    }
  }

  lemma {:induction false} ValidWhole(code: Code, t: Tables)
    requires Valid(code, t)
    ensures AllWhole(code)
    decreases |code|
  {
    if code != [] {
      FirstIsWhole(code, t);
      hide Needs, Whole, Units, ValidFirst;
      ValidWhole(code[First(code)..], t);
    }
  }

  lemma FirstIsWhole(code: Code, t: Tables)
    requires code != [] && Units(code).Some? && ValidFirst(code[..First(code)], t)
    ensures Whole(code)
  {
    hide Units, Slots, Names;
    var f := First(code);
    OpOfHead(code, f);
    SlotsAre(Op(code));
    var slots := Slots(Op(code));
    assert forall i {:trigger slots[i]} :: 0 <= i < |slots| ==> Last(slots[i]) < f;
    if |slots| > 0 {
      assert Last(slots[|slots| - 1]) < f;
    }
  }

  /** What rewriting keeps. */
  ghost predicate Kept(was: Tables, now: Tables, code: Code, r: Code, at: nat) {
    && InRange(was) && InRange(now) && Valid(code, was) && Valid(r, now)
    && Disassembly(r, now) == Disassembly(code, was)
    && Boundaries(r, at) == Boundaries(code, at)
  }

  lemma RewriteStep(was: Tables, s: Shifts, now: Tables, code: Code, at: nat)
    requires Remapped(was, s, now) && Valid(code, was) && AllWhole(code) && code != [] && Rewrite(code, s).Some?
    requires Units(code).Some? && AllWhole(code[First(code)..]) && Rewrite(code[First(code)..], s).Some?
    requires Kept(was, now, code[First(code)..], Rewrite(code[First(code)..], s).value, at + First(code))
    ensures Kept(was, now, code, Rewrite(code, s).value, at)
  {
    hide *;
    ValidParts(code, was);
    RewriteParts(code, s);
    var f := First(code);
    var c, tail, r := RewriteFirst(code, s).value, Rewrite(code[f..], s).value, Rewrite(code, s).value;
    NeedsFit(code);
    FirstCarries(was, s, now, code, f);
    OpOfHead(code, f);
    OpOfHead(c, f);
    RemappedRanges(was, s, now);
    CarriesDecoded(was, s, now, code[..f], c[..f]);
    assert r[..f] == c[..f] && r[f..] == tail;
    OpOfHead(r, f);
    SameUnits(code, r);
    Glued(was, now, code, r, f, at);
  }

  lemma NothingKept(was: Tables, s: Shifts, now: Tables, at: nat)
    requires Remapped(was, s, now)
    ensures Rewrite([], s) == Some([]) && Kept(was, now, [], [], at)
  {
  }

  /** Rewriting keeps every instruction where it was, with all its units that are not indices, and against the new
      tables the code disassembles to what it did against the old ones. */
  lemma {:induction false} RewriteKeeps(was: Tables, s: Shifts, now: Tables, code: Code, at: nat)
    requires Remapped(was, s, now) && Valid(code, was) && AllWhole(code) && Rewrite(code, s).Some?
    ensures Kept(was, now, code, Rewrite(code, s).value, at)
    decreases |code|
  {
    hide *;
    if code == [] {
      NothingKept(was, s, now, at);
    } else {
      ValidParts(code, was);
      RewriteParts(code, s);
      RewriteKeeps(was, s, now, code[First(code)..], at + First(code));
      RewriteStep(was, s, now, code, at);
    }
  }

  lemma ValidParts(code: Code, t: Tables)
    requires Valid(code, t) && AllWhole(code) && code != []
    ensures Units(code).Some? && Whole(code)
    ensures ValidFirst(code[..First(code)], t) && Valid(code[First(code)..], t) && AllWhole(code[First(code)..])
  {
  }

  lemma RewriteParts(code: Code, s: Shifts)
    requires AllWhole(code) && code != [] && Rewrite(code, s).Some?
    ensures Units(code).Some? && Whole(code) && AllWhole(code[First(code)..])
    ensures RewriteFirst(code, s).Some? && Rewrite(code[First(code)..], s).Some?
    ensures Rewrite(code, s).value == RewriteFirst(code, s).value[..First(code)] + Rewrite(code[First(code)..], s).value
  {
  }

  /** An instruction that decodes as before, followed by code that disassembles as before. */
  lemma Glued(was: Tables, now: Tables, code: Code, r: Code, f: nat, at: nat)
    requires InRange(was) && InRange(now) && Valid(code, was) && code != [] && Units(code).Some? && f == First(code)
             && |r| == |code|
    requires Units(r) == Units(code) && Op(r) == Op(code)
    requires ValidFirst(code[..f], was) && ValidFirst(r[..f], now) && Decoded(r[..f], now) == Decoded(code[..f], was)
    requires Kept(was, now, code[f..], r[f..], at + f)
    ensures Kept(was, now, code, r, at)
  {
    hide InRange, ValidFirst, Decoded, Units, Op, Needs;
    assert First(r) == f;
  }

  lemma OpOfHead(code: Code, f: nat)
    requires 0 < f <= |code|
    ensures Op(code[..f]) == Op(code)
  {
  }

  /** The instruction at `pc`, its indices replaced in place. */
  method RewriteAt(insns: Code, units: Code, s: Shifts, pc: nat) returns (r: Option<Code>)
    requires pc < |insns| == |units| && units[pc..] == insns[pc..] && Whole(insns[pc..])
    ensures r.Some? <==> RewriteFirst(insns[pc..], s).Some?
    ensures r.Some? ==>
            |r.value| == |units| && r.value[..pc] == units[..pc] && r.value[pc..] == RewriteFirst(insns[pc..], s).value
  {
    hide Map;
    ghost var here := insns[pc..];
    var op := insns[pc] % 0x100;
    assert op == Op(here);
    r := Some(units);
    if op == 0x1a {
      var i := Map(s.strings, insns[pc + 1]);
      if i > 0xffff {
        return None;
      }
      r := Some(units[pc + 1 := i]);
    } else if op == 0x1b {
      var i := Map(s.strings, insns[pc + 1] + insns[pc + 2] * UNIT);
      r := Some(units[pc + 1 := i % UNIT][pc + 2 := i / UNIT % UNIT]);
    } else if IsType(op) {
      r := Some(units[pc + 1 := Map(s.types, insns[pc + 1]) % UNIT]);
    } else if IsInvoke(op) {
      r := Some(units[pc + 1 := Map(s.methods, insns[pc + 1]) % UNIT]);
    } else if op in {0xfa, 0xfb} {
      r := Some(units[pc + 1 := Map(s.methods, insns[pc + 1]) % UNIT][pc + 3 := Map(s.protos, insns[pc + 3]) % UNIT]);
    } else if op == 0xff {
      r := Some(units[pc + 1 := Map(s.protos, insns[pc + 1]) % UNIT]);
    } else if Refused(op) {
      return None;
    }
    assert r.value[..pc] == units[..pc];
    assert r.value[pc..] == RewriteFirst(here, s).value;
  }

  /** `Writer::code`'s loop over the instructions. */
  method RewriteCode(insns: Code, s: Shifts) returns (r: Option<Code>)
    requires AllWhole(insns)
    ensures r == Rewrite(insns, s)
  {
    hide RewriteFirst, Units, InstructionUnits, Op, Whole;
    var units: Code := insns;
    var n, pc := |insns|, 0;
    assert insns[0..] == insns;
    assert Rewrite(insns, s).Some? ==> units[..0] + Rewrite(insns, s).value == Rewrite(insns, s).value;
    while pc < n
      invariant pc <= n && |units| == n && units[pc..] == insns[pc..] && AllWhole(insns[pc..])
      invariant Rewrite(insns, s) == var tail := Rewrite(insns[pc..], s);
                if tail.None? then None else Some(units[..pc] + tail.value)
      decreases n - pc
    {
      ghost var before := units;
      var one := RewriteAt(insns, units, s, pc);
      if one.None? {
        return None;
      }
      units := one.value;
      var len := InstructionUnits(insns[pc..]);
      UnitsAgree(insns[pc..]);
      if len.None? {
        return None;
      }
      var f := if len.value < n - pc then len.value else n - pc;
      AfterFirst(insns, units, s, pc, f);
      pc := pc + f;
    }
    assert insns[pc..] == [] && units[..pc] == units;
    assert Rewrite(insns[pc..], s) == Some([]);
    assert units[..pc] + [] == units;
    return Some(units);
  }

  /** What is left to do after one instruction. */
  lemma AfterFirst(insns: Code, units: Code, s: Shifts, pc: nat, f: nat)
    requires pc < |insns| == |units| && AllWhole(insns[pc..]) && Units(insns[pc..]).Some? && f == First(insns[pc..])
    requires RewriteFirst(insns[pc..], s).Some? && units[pc..] == RewriteFirst(insns[pc..], s).value
    ensures AllWhole(insns[pc + f..]) && units[pc + f..] == insns[pc + f..]
    ensures var tail, rest := Rewrite(insns[pc..], s), Rewrite(insns[pc + f..], s);
            && (tail.None? <==> rest.None?)
            && (rest.Some? ==> units[..pc] + tail.value == units[..pc + f] + rest.value)
  {
    hide RewriteFirst, Whole, Units;
    var here := insns[pc..];
    assert here[f..] == insns[pc + f..];
    FirstTouchesHead(here, s, f);
    assert units[pc..][f..] == units[pc + f..];
    assert units[pc..][..f] == units[pc..pc + f];
  }

  lemma FirstTouchesHead(code: Code, s: Shifts, f: nat)
    requires code != [] && Whole(code) && Units(code).Some? && f == First(code) && RewriteFirst(code, s).Some?
    ensures RewriteFirst(code, s).value[f..] == code[f..]
  {
    NeedsFit(code);
  }
}
