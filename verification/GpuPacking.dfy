/** Where the GPU thunks put a call's arguments (`Command.layout` and `pack` in `tools/gen-gpu-thunks.py`).

    A 64-bit word is its eight bytes, lowest first; or-ing two words is or-ing their bytes. */
module GpuPacking {

  datatype Class = General | Float

  /** A parameter's register class and its size in bytes. */
  datatype Param = Param(cls: Class, size: nat)

  datatype Place = InX(index: nat) | InD(index: nat) | OnStack(offset: nat)

  /** How many registers of each class are taken, how many stack bytes, and where each parameter is. */
  datatype Layout = Layout(nx: nat, nd: nat, stack: nat, places: seq<Place>)

  predicate Sized(params: seq<Param>) {
    forall i {:trigger params[i]} :: 0 <= i < |params| ==> params[i].size in {1, 2, 4, 8}
  }

  function Align(stack: nat, size: nat): nat
    requires size > 0
  {
    (stack + size - 1) / size * size
  }

  lemma Multiple2(q: nat)
    ensures q * 2 % 2 == 0 && q * 2 % 8 + 2 <= 8
  {
    var rest := q - 4 * (q * 2 / 8);
    assert q * 2 % 8 == 2 * rest;
  }

  lemma Multiple4(q: nat)
    ensures q * 4 % 4 == 0 && q * 4 % 8 + 4 <= 8
  {
    var rest := q - 2 * (q * 4 / 8);
    assert q * 4 % 8 == 4 * rest;
  }

  lemma Multiple8(q: nat)
    ensures q * 8 % 8 == 0
  {
  }

  lemma Aligned(stack: nat, size: nat)
    requires size in {1, 2, 4, 8}
    ensures stack <= Align(stack, size) && Align(stack, size) % size == 0
    ensures Align(stack, size) % 8 + size <= 8
  {
    if size == 1 {
      assert Align(stack, 1) == stack;
    } else if size == 2 {
      assert Align(stack, 2) == (stack + 1) / 2 * 2;
      Multiple2((stack + 1) / 2);
    } else if size == 4 {
      assert Align(stack, 4) == (stack + 3) / 4 * 4;
      Multiple4((stack + 3) / 4);
    } else {
      assert Align(stack, 8) == (stack + 7) / 8 * 8;
      Multiple8((stack + 7) / 8);
    }
  }

  /** One more parameter placed. */
  function Placed(l: Layout, p: Param): Layout
    requires p.size > 0
  {
    if p.cls == General && l.nx < 8 then l.(nx := l.nx + 1, places := l.places + [InX(l.nx)])
    else if p.cls == Float && l.nd < 8 then l.(nd := l.nd + 1, places := l.places + [InD(l.nd)])
    else l.(stack := Align(l.stack, p.size) + p.size, places := l.places + [OnStack(Align(l.stack, p.size))])
  }

  function LayoutOf(params: seq<Param>): (l: Layout)
    requires Sized(params)
    ensures |l.places| == |params|
  {
    if params == [] then Layout(0, 0, 0, [])
    else Placed(LayoutOf(params[..|params| - 1]), params[|params| - 1])
  }

  /** `Command.layout`. */
  method ComputeLayout(params: seq<Param>) returns (l: Layout)
    requires Sized(params)
    ensures l == LayoutOf(params)
  {
    var nx: nat, nd: nat, stack: nat, places: seq<Place> := 0, 0, 0, [];
    var i := 0;
    while i < |params|
      invariant i <= |params| && Layout(nx, nd, stack, places) == LayoutOf(params[..i])
    {
      var p := params[i];
      assert params[..i + 1][..i] == params[..i];
      if p.cls == General && nx < 8 {
        places := places + [InX(nx)];
        nx := nx + 1;
      } else if p.cls == Float && nd < 8 {
        places := places + [InD(nd)];
        nd := nd + 1;
      } else {
        stack := Align(stack, p.size);
        places := places + [OnStack(stack)];
        stack := stack + p.size;
      }
      i := i + 1;
    }
    assert params[..i] == params;
    l := Layout(nx, nd, stack, places);
  }

  // ---- places do not overlap ----

  /** A place within what a layout has taken; on the stack, aligned and so inside one word. */
  ghost predicate Within(l: Layout, place: Place, size: nat) {
    match place
    case InX(k) => k < l.nx
    case InD(k) => k < l.nd
    case OnStack(o) => o + size <= l.stack && size in {1, 2, 4, 8} && o % size == 0 && o % 8 + size <= 8
  }

  ghost predicate Apart(a: Place, aSize: nat, b: Place, bSize: nat) {
    match (a, b)
    case (InX(k), InX(m)) => k != m
    case (InD(k), InD(m)) => k != m
    case (OnStack(o), OnStack(q)) => o + aSize <= q || q + bSize <= o
    case _ => true
  }

  /** Every argument has a place of its own, none straddles a word, and no more than eight registers of a class are
      used. */
  lemma {:induction false} PlacesAreApart(params: seq<Param>)
    requires Sized(params)
    ensures var l := LayoutOf(params);
            && l.nx <= 8 && l.nd <= 8
            && (forall i {:trigger l.places[i]} :: 0 <= i < |params| ==> Within(l, l.places[i], params[i].size))
            && (forall i, j {:trigger l.places[i], l.places[j]} ::
                 0 <= i < j < |params| ==> Apart(l.places[i], params[i].size, l.places[j], params[j].size))
  {
    hide Align;
    if params != [] {
      var n := |params| - 1;
      var front, p := params[..n], params[n];
      PlacesAreApart(front);
      var was, l := LayoutOf(front), LayoutOf(params);
      Aligned(was.stack, p.size);
      forall i | 0 <= i < n
          ensures l.places[i] == was.places[i] && Within(l, l.places[i], params[i].size)
                  && Apart(l.places[i], params[i].size, l.places[n], p.size) {
        assert params[i] == front[i];
        assert Within(was, was.places[i], front[i].size);
      }
      assert Within(l, l.places[n], p.size);
    }
  }

  lemma {:induction false} PlacesOfPrefix(params: seq<Param>, i: nat)
    requires Sized(params) && i <= |params|
    ensures var l, m := LayoutOf(params[..i]), LayoutOf(params);
            l.places == m.places[..i] && l.nx <= m.nx && l.nd <= m.nd && l.stack <= m.stack
    decreases |params|
  {
    hide Align;
    if i < |params| {
      var n := |params| - 1;
      PlacesOfPrefix(params[..n], i);
      assert params[..n][..i] == params[..i];
      Aligned(LayoutOf(params[..n]).stack, params[n].size);
      assert LayoutOf(params).places[..n] == LayoutOf(params[..n]).places;
    } else {
      assert params[..i] == params;
    }
  }

  // ---- which place ----

  function Count(params: seq<Param>, cls: Class): nat {
    if params == [] then 0 else Count(params[..|params| - 1], cls) + (if params[|params| - 1].cls == cls then 1 else 0)
  }

  /** Argument `j` is on the stack and ends at `end`. */
  ghost predicate EndsAt(places: seq<Place>, params: seq<Param>, j: nat, end: nat) {
    j < |places| && j < |params| && places[j].OnStack? && places[j].offset + params[j].size == end
  }

  /** Registers are used up to eight of a class, and the stack ends with its last argument. */
  lemma {:induction false} TakenSoFar(params: seq<Param>)
    requires Sized(params)
    ensures var l, x, d := LayoutOf(params), Count(params, General), Count(params, Float);
            && l.nx == (if x < 8 then x else 8) && l.nd == (if d < 8 then d else 8)
            && (forall j: nat, end: nat {:trigger EndsAt(l.places, params, j, end)} ::
                 EndsAt(l.places, params, j, end) ==> end <= l.stack)
            && (l.stack == 0 || exists j: nat :: EndsAt(l.places, params, j, l.stack))
  {
    hide Align;
    if params != [] {
      var n := |params| - 1;
      var front, p := params[..n], params[n];
      TakenSoFar(front);
      var was, l := LayoutOf(front), LayoutOf(params);
      Aligned(was.stack, p.size);
      forall j: nat, end: nat
          ensures EndsAt(l.places, params, j, end) <==>
                  EndsAt(was.places, front, j, end) || (j == n && l.places[n].OnStack? && end == l.stack) {
        if j < n {
          assert params[j] == front[j] && l.places[j] == was.places[j];
        }
      }
      assert l.places[n].OnStack? ==> EndsAt(l.places, params, n, l.stack);
    }
  }

  /** The first eight arguments of a class are in that class's registers, in order; every other is on the
      stack at the first multiple of its size past the stack arguments before it. */
  lemma {:induction false} PlacedByRule(params: seq<Param>, i: nat)
    requires Sized(params) && i < |params|
    ensures var places, p, k := LayoutOf(params).places, params[i], Count(params[..i], params[i].cls);
            if k < 8 then places[i] == if p.cls == General then InX(k) else InD(k)
            else && places[i].OnStack? && MultipleOf(places[i].offset, p.size)
                 && (forall j: nat, end: nat {:trigger EndsAt(places[..i], params[..i], j, end)} ::
                      EndsAt(places[..i], params[..i], j, end) ==> end <= places[i].offset)
                 && (places[i].offset == 0 || exists j: nat, end: nat ::
                      EndsAt(places[..i], params[..i], j, end) && places[i].offset < end + p.size)
  {
    hide EndsAt, Align, MultipleOf, LayoutOf, Count;
    var front, was := params[..i], LayoutOf(params[..i]);
    PlacesOfPrefix(params, i);
    PlaceAt(params, i);
    TakenSoFar(front);
    AlignedUp(was.stack, params[i].size);
  }

  lemma {:induction false} PlaceAt(params: seq<Param>, i: nat)
    requires Sized(params) && i < |params|
    ensures LayoutOf(params).places[i] == Placed(LayoutOf(params[..i]), params[i]).places[i]
  {
    hide Align;
    PlacesOfPrefix(params, i + 1);
    assert params[..i + 1][..i] == params[..i];
    assert LayoutOf(params).places[i] == LayoutOf(params[..i + 1]).places[i];
  }

  ghost predicate MultipleOf(o: nat, size: nat) {
    size in {1, 2, 4, 8} && o % size == 0
  }

  lemma AlignedUp(stack: nat, size: nat)
    requires size in {1, 2, 4, 8}
    ensures stack <= Align(stack, size) < stack + size && MultipleOf(Align(stack, size), size)
  {
    Aligned(stack, size);
  }

  // ---- the register image ----

  type Word = w: seq<nat> | |w| == 8 witness [0, 0, 0, 0, 0, 0, 0, 0]

  const ZERO: Word := [0, 0, 0, 0, 0, 0, 0, 0]

  /** The bitwise or of two numbers. */
  function BitOr(a: nat, b: nat): nat {
    if a == 0 then b
    else if b == 0 then a
    else 2 * BitOr(a / 2, b / 2) + (if a % 2 == 1 || b % 2 == 1 then 1 else 0)
  }

  function Or(a: Word, b: Word): Word {
    seq(8, i requires 0 <= i < 8 => BitOr(a[i], b[i]))
  }

  /** The low `size` bytes of an argument, moved up by `up` bytes. */
  function Shifted(arg: Word, size: nat, up: nat): Word {
    seq(8, i requires 0 <= i < 8 => if up <= i < up + size then arg[i - up] else 0)
  }

  /** Where a place is in the image, as a word and a byte in it. */
  function WordOf(l: Layout, place: Place): nat {
    match place
    case InX(k) => k
    case InD(k) => l.nx + k
    case OnStack(o) => l.nx + l.nd + o / 8
  }

  function ByteOf(place: Place): nat {
    if place.OnStack? then place.offset % 8 else 0
  }

  function Total(l: Layout): nat {
    l.nx + l.nd + (l.stack + 7) / 8
  }

  /** The argument's low bytes are read back from its place. */
  ghost predicate Holds(l: Layout, regs: seq<Word>, place: Place, size: nat, arg: Word) {
    && WordOf(l, place) < |regs| && ByteOf(place) + size <= 8
    && forall b {:trigger arg[b]} :: 0 <= b < size ==> regs[WordOf(l, place)][ByteOf(place) + b] == arg[b]
  }

  /** The image after one more argument is put in its place. */
  function Put(l: Layout, regs: seq<Word>, place: Place, size: nat, arg: Word): (r: seq<Word>)
    requires WordOf(l, place) < |regs|
    ensures |r| == |regs|
  {
    var w := WordOf(l, place);
    if place.OnStack? then regs[w := Or(regs[w], Shifted(arg, size, ByteOf(place)))] else regs[w := arg]
  }

  /** The stack byte at an offset. */
  function StackByte(l: Layout, regs: seq<Word>, o: nat): nat {
    if l.nx + l.nd + o / 8 < |regs| then regs[l.nx + l.nd + o / 8][o % 8] else 0
  }

  /** Stack bytes from `from` on are still zero. */
  ghost predicate Clear(l: Layout, regs: seq<Word>, from: nat) {
    forall o: nat {:trigger StackByte(l, regs, o)} :: from <= o ==> StackByte(l, regs, o) == 0
  }

  lemma PlaceFits(l: Layout, place: Place, size: nat)
    requires Within(l, place, size) && size in {1, 2, 4, 8}
    ensures WordOf(l, place) < Total(l) && ByteOf(place) + size <= 8
  {
    if place.OnStack? {
      assert place.offset / 8 * 8 <= place.offset < l.stack;
      assert place.offset / 8 < (l.stack + 7) / 8;
    }
  }

  lemma PutHolds(l: Layout, regs: seq<Word>, place: Place, size: nat, arg: Word, from: nat)
    requires Within(l, place, size) && size in {1, 2, 4, 8} && |regs| == Total(l) && Clear(l, regs, from)
    requires place.OnStack? ==> from <= place.offset
    requires WordOf(l, place) < |regs|
    ensures Holds(l, Put(l, regs, place, size, arg), place, size, arg)
  {
    PlaceFits(l, place, size);
    var r, w, at := Put(l, regs, place, size, arg), WordOf(l, place), ByteOf(place);
    forall b | 0 <= b < size ensures r[w][at + b] == arg[b] {
      if place.OnStack? {
        var o := place.offset + b;
        SameWord(place.offset, b);
        assert StackByte(l, regs, o) == 0;
      }
    }
  }

  lemma SameWord(o: nat, b: nat)
    requires o % 8 + b < 8
    ensures (o + b) / 8 == o / 8 && (o + b) % 8 == o % 8 + b
  {
  }

  /** Arguments already in place are not disturbed. */
  lemma PutKeeps(l: Layout, regs: seq<Word>, place: Place, size: nat, arg: Word, other: Place, otherSize: nat,
      otherArg: Word)
    requires Within(l, place, size) && Within(l, other, otherSize) && size in {1, 2, 4, 8} && otherSize in {1, 2, 4, 8}
    requires |regs| == Total(l) && WordOf(l, place) < |regs| && Apart(other, otherSize, place, size)
    requires Holds(l, regs, other, otherSize, otherArg)
    ensures Holds(l, Put(l, regs, place, size, arg), other, otherSize, otherArg)
  {
    var r, w, v := Put(l, regs, place, size, arg), WordOf(l, place), WordOf(l, other);
    if w == v {
      ShareAWord(l, place, size, other, otherSize);
      forall b | 0 <= b < otherSize ensures r[v][ByteOf(other) + b] == otherArg[b] {
        assert Shifted(arg, size, ByteOf(place))[ByteOf(other) + b] == 0;
      }
    }
  }

  /** Two arguments in one word are on the stack, in different bytes. */
  lemma ShareAWord(l: Layout, a: Place, aSize: nat, b: Place, bSize: nat)
    requires Within(l, a, aSize) && Within(l, b, bSize) && Apart(b, bSize, a, aSize) && WordOf(l, a) == WordOf(l, b)
    ensures a.OnStack? && b.OnStack? && (ByteOf(a) + aSize <= ByteOf(b) || ByteOf(b) + bSize <= ByteOf(a))
  {
    if a.OnStack? && b.OnStack? {
      assert a.offset == a.offset / 8 * 8 + a.offset % 8;
      assert b.offset == b.offset / 8 * 8 + b.offset % 8;
    }
  }

  lemma PutClear(l: Layout, regs: seq<Word>, place: Place, size: nat, arg: Word, from: nat, after: nat)
    requires Within(l, place, size) && size in {1, 2, 4, 8} && |regs| == Total(l) && WordOf(l, place) < |regs|
             && Clear(l, regs, from)
    requires from <= after && (place.OnStack? ==> from <= place.offset && place.offset + size <= after)
    ensures Clear(l, Put(l, regs, place, size, arg), after)
  {
    var r, w := Put(l, regs, place, size, arg), WordOf(l, place);
    forall o: nat | after <= o ensures StackByte(l, r, o) == 0 {
      assert StackByte(l, regs, o) == 0;
      if w == l.nx + l.nd + o / 8 && place.OnStack? {
        assert o == o / 8 * 8 + o % 8 && place.offset == place.offset / 8 * 8 + place.offset % 8;
        assert Shifted(arg, size, ByteOf(place))[o % 8] == 0;
      }
    }
  }

  /** `pack`: every argument's low bytes are in the image, to be read back from its place. */
  method Pack(params: seq<Param>, args: seq<Word>) returns (l: Layout, regs: seq<Word>)
    requires Sized(params) && |args| == |params|
    ensures l == LayoutOf(params) && |regs| == Total(l)
    ensures forall i {:trigger l.places[i]} ::
            0 <= i < |params| ==> Holds(l, regs, l.places[i], params[i].size, args[i])
  {
    hide Holds, Clear, Within, Apart, Put, Total, LayoutOf, WordOf;
    l := ComputeLayout(params);
    PlacesAreApart(params);
    regs := seq(Total(l), i => ZERO);
    StartsClear(l, regs);
    var i := 0;
    ghost var from := 0;
    while i < |params|
      invariant i <= |params| && |regs| == Total(l) && Clear(l, regs, from) && from == LayoutOf(params[..i]).stack
      invariant forall j {:trigger l.places[j]} :: 0 <= j < i ==> Holds(l, regs, l.places[j], params[j].size, args[j])
    {
      var place, size, arg := l.places[i], params[i].size, args[i];
      PlaceFits(l, place, size);
      NextPlace(params, i);
      ghost var before, after := regs, LayoutOf(params[..i + 1]).stack;
      regs := Put(l, regs, place, size, arg);
      PutHolds(l, before, place, size, arg, from);
      PutClear(l, before, place, size, arg, from, after);
      forall j | 0 <= j < i ensures Holds(l, regs, l.places[j], params[j].size, args[j]) {
        PutKeeps(l, before, place, size, arg, l.places[j], params[j].size, args[j]);
      }
      from := after;
      i := i + 1;
    }
  }

  lemma StartsClear(l: Layout, regs: seq<Word>)
    requires forall i {:trigger regs[i]} :: 0 <= i < |regs| ==> regs[i] == ZERO
    ensures Clear(l, regs, 0) && LayoutOf([]).stack == 0
  {
  }

  /** The stack grows past the place of the next argument. */
  lemma {:induction false} NextPlace(params: seq<Param>, i: nat)
    requires Sized(params) && i < |params|
    ensures var place, was, now := LayoutOf(params).places[i], LayoutOf(params[..i]).stack,
            LayoutOf(params[..i + 1]).stack;
            was <= now && (place.OnStack? ==> was <= place.offset && place.offset + params[i].size <= now)
  {
    hide Align;
    PlacesOfPrefix(params, i + 1);
    assert params[..i + 1][..i] == params[..i];
    Aligned(LayoutOf(params[..i]).stack, params[i].size);
    assert LayoutOf(params).places[i] == LayoutOf(params[..i + 1]).places[i];
  }
}
