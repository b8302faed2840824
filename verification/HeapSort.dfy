/** The heap-sort fallback: `sift_down`, `floyd_sift_down`, `sift_up` and `heap_sort`. */
module HeapSort {
  import opened SortOrder
  import opened SmallSorts

  function Parent(c: int): int {
    (c - 1) / 2
  }

  /** No child ranks above its parent, for the parents from `from` on. */
  ghost predicate Heap<T>(h: seq<T>, key: T -> int, from: int) {
    forall c {:trigger Parent(c)} :: 1 <= c < |h| && from <= Parent(c) ==> key(h[c]) <= key(h[Parent(c)])
  }

  ghost predicate AboveChildren<T>(h: seq<T>, key: T -> int, p: int, most: int) {
    forall c {:trigger Parent(c)} :: 1 <= c < |h| && Parent(c) == p ==> key(h[c]) <= most
  }

  /** A heap but for the element at `hole`; around it the order is kept from its parent to its children. */
  ghost predicate Gap<T>(h: seq<T>, key: T -> int, from: int, hole: int)
    requires 0 <= from <= hole < |h|
  {
    && (forall c {:trigger Parent(c)} :: 1 <= c < |h| && from <= Parent(c) && c != hole && Parent(c) != hole ==>
          key(h[c]) <= key(h[Parent(c)]))
    && (1 <= hole && from <= Parent(hole) ==> AboveChildren(h, key, hole, key(h[Parent(hole)])))
  }

  ghost function Swapped<T>(h: seq<T>, i: int, j: int): (r: seq<T>)
    requires 0 <= i < |h| && 0 <= j < |h|
    ensures |r| == |h|
    ensures multiset(r) == multiset(h)
  {
    h[i := h[j]][j := h[i]]
  }

  /** The larger child moves up into the hole. */
  lemma GapDown<T>(h: seq<T>, key: T -> int, from: int, hole: int, child: int)
    requires 0 <= from <= hole < child < |h| && Parent(child) == hole
    requires Gap(h, key, from, hole)
    requires AboveChildren(h, key, hole, key(h[child]))
    ensures Gap(Swapped(h, hole, child), key, from, child)
  {
    var g := Swapped(h, hole, child);
    forall c | 1 <= c < |g| && from <= Parent(c) && c != child && Parent(c) != child
      ensures key(g[c]) <= key(g[Parent(c)])
    {
    }
    forall c | 1 <= c < |g| && Parent(c) == child ensures key(g[c]) <= key(g[Parent(child)]) {
    }
  }

  /** The parent moves down into the hole. */
  lemma GapUp<T>(h: seq<T>, key: T -> int, hole: int, p: int)
    requires 1 <= hole < |h| && p == Parent(hole)
    requires Gap(h, key, 0, hole)
    requires key(h[p]) <= key(h[hole])
    ensures Gap(Swapped(h, hole, p), key, 0, p)
    ensures AboveChildren(Swapped(h, hole, p), key, p, key(h[hole]))
  {
    var g := Swapped(h, hole, p);
    forall c | 1 <= c < |g| && Parent(c) == p ensures key(g[c]) <= key(h[p]) && key(g[c]) <= key(h[hole]) {
    }
    forall c | 1 <= c < |g| && c != p && Parent(c) != p ensures key(g[c]) <= key(g[Parent(c)]) {
      assert Parent(hole) == p;
    }
    if 1 <= p {
      assert key(h[p]) <= key(h[Parent(p)]);
    }
  }

  /** A hole whose element fits between its parent and its children is none. */
  lemma GapClosed<T>(h: seq<T>, key: T -> int, from: int, hole: int)
    requires 0 <= from <= hole < |h| && Gap(h, key, from, hole)
    requires AboveChildren(h, key, hole, key(h[hole]))
    requires 1 <= hole && from <= Parent(hole) ==> key(h[hole]) <= key(h[Parent(hole)])
    ensures Heap(h, key, from)
  {
  }

  /** The root of a heap is its largest element. */
  lemma {:induction false} RootIsLargest<T>(h: seq<T>, key: T -> int, i: int)
    requires 0 <= i < |h| && Heap(h, key, 0)
    ensures key(h[i]) <= key(h[0])
    decreases i
  {
    if i > 0 {
      RootIsLargest(h, key, Parent(i));
    }
  }

  // ---- the range of the array a heap lives in ----

  /** `[first, first + |h|)` of `a` holds `h`, except that place `hole` of `h` is free. */
  ghost predicate Shows<T>(a: array<T>, first: int, h: seq<T>, hole: int)
    reads a
  {
    && 0 <= first && first + |h| <= a.Length
    && forall i {:trigger h[i]} :: 0 <= i < |h| && i != hole ==> a[first + i] == h[i]
  }

  /** Outside the range `s` is as it was. */
  ghost predicate Framed<T>(s: seq<T>, was: seq<T>, first: int, last: int) {
    && |was| == |s|
    && forall i {:trigger s[i]} :: 0 <= i < |s| && !(first <= i < last) ==> s[i] == was[i]
  }

  lemma RangePermuted<T>(was: seq<T>, now: seq<T>, first: nat, last: nat)
    requires first <= last <= |was| && Framed(now, was, first, last)
    requires multiset(now[first..last]) == multiset(was[first..last])
    ensures Perm(was, now, first, last)
  {
    assert was == was[..first] + was[first..last] + was[last..];
    assert now == now[..first] + now[first..last] + now[last..];
    assert was[..first] == now[..first];
    assert was[last..] == now[last..];
  }

  /** The element of the larger child moves into the free place. */
  method MoveInto<T>(a: array<T>, first: nat, hole: nat, from: nat, ghost h: seq<T>, ghost was: seq<T>)
      returns (ghost g: seq<T>)
    requires hole < |h| && from < |h| && hole != from && Shows(a, first, h, hole)
             && Framed(a[..], was, first, first + |h|)
    modifies a
    ensures g == Swapped(h, hole, from)
    ensures Shows(a, first, g, from) && Framed(a[..], was, first, first + |h|)
  {
    a[first + hole] := a[first + from];
    g := Swapped(h, hole, from);
  }

  /** Of the children of the hole, the one that ranks highest; ties go to the left one. */
  method LargerChild<T>(a: array<T>, first: nat, len: nat, hole: nat, less: (T, T) -> bool,
                        ghost h: seq<T>, ghost key: T -> int, ghost S: set<T>) returns (child: nat)
    requires |h| == len && 2 * hole + 1 < len && Shows(a, first, h, hole)
    requires Ranks(less, key, S) && Within(h, S)
    ensures hole < child < len && Parent(child) == hole
    ensures AboveChildren(h, key, hole, key(h[child]))
    ensures child == if 2 * hole + 2 < len && key(h[2 * hole + 1]) < key(h[2 * hole + 2]) then 2 * hole + 2
                     else 2 * hole + 1
  {
    child := 2 * hole + 1;
    assert h[child] == a[first + child];
    if child + 1 < len {
      assert h[child + 1] == a[first + child + 1];
      if less(a[first + child], a[first + child + 1]) {
        child := child + 1;
      }
    }
  }

  /** Filling the free place again: the range holds exactly `h`, a rearrangement of what it held. */
  method FillHole<T>(a: array<T>, first: nat, hole: nat, x: T, ghost h: seq<T>, ghost was: seq<T>, ghost S: set<T>)
    requires hole < |h| && Shows(a, first, h, hole) && Framed(a[..], was, first, first + |h|)
    requires x == h[hole] && multiset(h) == multiset(was[first..first + |h|]) && Within(was, S)
    modifies a
    ensures a[first..first + |h|] == h
    ensures Perm(was, a[..], first, first + |h|)
    ensures Within(a[..], S)
  {
    a[first + hole] := x;
    assert a[first..first + |h|] == h;
    assert a[..][first..first + |h|] == h;
    RangePermuted(was, a[..], first, first + |h|);
    WithinKept(was, a[..], S, first, first + |h|);
  }

  lemma BagWithin<T>(h: seq<T>, g: seq<T>, S: set<T>)
    requires multiset(h) == multiset(g) && Within(h, S)
    ensures Within(g, S)
  {
    forall i | 0 <= i < |g| ensures g[i] in S {
      assert g[i] in multiset(g);
      assert g[i] in multiset(h);
    }
  }

  /** Mid-way: `h`, the range with the moving element put back into the free place, has the elements
      `bag` and is a heap but for that place. */
  ghost predicate Sifting<T>(a: array<T>, first: int, h: seq<T>, hole: int, from: int,
                             was: seq<T>, bag: multiset<T>, key: T -> int, S: set<T>)
    reads a
  {
    && 0 <= from <= hole < |h| && Gap(h, key, from, hole)
    && Shows(a, first, h, hole) && Framed(a[..], was, first, first + |h|)
    && Within(h, S) && multiset(h) == bag
  }

  /** The larger child moves up, the hole down. */
  method Descend<T>(a: array<T>, first: nat, hole: nat, child: nat, ghost h: seq<T>, ghost from: nat,
                    ghost was: seq<T>, ghost bag: multiset<T>, ghost key: T -> int, ghost S: set<T>)
                        returns (ghost g: seq<T>)
    requires Sifting(a, first, h, hole, from, was, bag, key, S)
    requires hole < child < |h| && Parent(child) == hole && AboveChildren(h, key, hole, key(h[child]))
    modifies a
    ensures |g| == |h| && g[child] == h[hole] && g[hole] == h[child]
    ensures Sifting(a, first, g, child, from, was, bag, key, S)
  {
    GapDown(h, key, from, hole, child);
    g := MoveInto(a, first, hole, child, h, was);
    BagWithin(h, g, S);
  }

  /** The loop of `sift_down`. */
  method SiftLoop<T>(a: array<T>, first: nat, len: nat, hole0: nat, child0: nat, top: T, less: (T, T) -> bool,
                     ghost h0: seq<T>, ghost was: seq<T>, ghost bag: multiset<T>, ghost key: T -> int, ghost S: set<T>)
    returns (hole: nat, ghost h: seq<T>)
    requires |h0| == len && Sifting(a, first, h0, hole0, hole0, was, bag, key, S) && Ranks(less, key, S)
    requires hole0 < child0 < len && Parent(child0) == hole0 && AboveChildren(h0, key, hole0, key(h0[child0]))
    requires h0[hole0] == top && key(top) <= key(h0[child0])
    modifies a
    ensures |h| == len && Sifting(a, first, h, hole, hole0, was, bag, key, S) && h[hole] == top
    ensures Heap(h, key, hole0)
  {
    hole, h := hole0, h0;
    var child := child0;
    while true
      invariant |h| == len && Sifting(a, first, h, hole, hole0, was, bag, key, S) && h[hole] == top
      invariant hole < child < len && Parent(child) == hole && AboveChildren(h, key, hole, key(h[child]))
      invariant key(top) <= key(h[child])
      decreases len - hole
    {
      h := Descend(a, first, hole, child, h, hole0, was, bag, key, S);
      hole := child;
      if (len - 2) / 2 < child {
        break;
      }
      child := LargerChild(a, first, len, hole, less, h, key, S);
      assert a[first + child] == h[child];
      if less(a[first + child], top) {
        break;
      }
    }
    GapClosed(h, key, hole0, hole);
  }

  /** Extends the heap by the parent at `start`. */
  method SiftDown<T>(a: array<T>, first: nat, len: nat, start: nat, less: (T, T) -> bool, ghost key: T -> int,
      ghost S: set<T>)
    requires first <= start < first + len <= a.Length
    requires Ready(a, less, key, S)
    requires Heap(a[first..first + len], key, start - first + 1)
    modifies a
    ensures Ready(a, less, key, S)
    ensures Heap(a[first..first + len], key, start - first)
    ensures Perm(old(a[..]), a[..], first, first + len)
  {
    hide Heap, Gap, AboveChildren, Perm, Framed;
    ghost var was := a[..];
    ghost var h := a[first..first + len];
    var hole: nat := start - first;
    HeapIsGap(h, key, hole);
    SamePerm(was, first, first + len);
    if len < 2 || (len - 2) / 2 < hole {
      return;
    }
    StartSifting(a, first, len, hole, hole, key, S);
    var child := LargerChild(a, first, len, hole, less, h, key, S);
    assert a[first + child] == h[child] && a[start] == h[hole];
    if less(a[first + child], a[start]) {
      AboveMore(h, key, hole, key(h[child]), key(h[hole]));
      GapClosed(h, key, hole, hole);
      return;
    }
    var top := a[start];
    hole, h := SiftLoop(a, first, len, hole, child, top, less, h, was, multiset(h), key, S);
    FillHole(a, first, hole, top, h, was, S);
  }

  lemma HeapIsGap<T>(h: seq<T>, key: T -> int, hole: nat)
    requires hole < |h| && Heap(h, key, hole + 1)
    ensures Gap(h, key, hole, hole) && (2 * hole + 1 >= |h| ==> Heap(h, key, hole))
  {
  }

  lemma AboveMore<T>(h: seq<T>, key: T -> int, p: int, most: int, more: int)
    requires AboveChildren(h, key, p, most) && most <= more
    ensures AboveChildren(h, key, p, more)
  {
  }

  lemma SamePerm<T>(s: seq<T>, lo: nat, hi: nat)
    requires lo <= hi <= |s|
    ensures Perm(s, s, lo, hi)
  {
  }

  lemma StartSifting<T>(a: array<T>, first: nat, len: nat, hole: nat, from: nat, key: T -> int, S: set<T>)
    requires from <= hole < len && first + len <= a.Length && Within(a[..], S)
             && Gap(a[first..first + len], key, from, hole)
    ensures var h := a[first..first + len]; Sifting(a, first, h, hole, from, a[..], multiset(h), key, S)
  {
    hide Gap;
    var h := a[first..first + len];
    forall i | 0 <= i < |h| ensures h[i] in S {
      assert h[i] == a[..][first + i];
    }
  }

  /** Moves the hole at the root down to a leaf, always through the larger child. */
  method FloydSiftDown<T>(a: array<T>, first: nat, len: nat, less: (T, T) -> bool,
                          ghost h0: seq<T>, ghost was: seq<T>, ghost bag: multiset<T>, ghost key: T -> int,
                              ghost S: set<T>)
    returns (place: nat, ghost h: seq<T>)
    requires 1 < len == |h0| && Sifting(a, first, h0, 0, 0, was, bag, key, S) && Ranks(less, key, S)
    modifies a
    ensures first <= place < first + len == first + |h| && len <= 2 * (place - first) + 1
    ensures Sifting(a, first, h, place - first, 0, was, bag, key, S) && h[place - first] == h0[0]
  {
    h := h0;
    var hole: nat := 0;
    while true
      invariant 2 * hole + 1 < len == |h|
      invariant Sifting(a, first, h, hole, 0, was, bag, key, S) && h[hole] == h0[0]
      decreases len - hole
    {
      var child := LargerChild(a, first, len, hole, less, h, key, S);
      h := Descend(a, first, hole, child, h, 0, was, bag, key, S);
      hole := child;
      if child > (len - 2) / 2 {
        return first + hole, h;
      }
    }
  }

  /** The parent moves down, the hole up. */
  method Ascend<T>(a: array<T>, first: nat, hole: nat, p: nat, ghost h: seq<T>,
                   ghost was: seq<T>, ghost bag: multiset<T>, ghost key: T -> int, ghost S: set<T>)
                       returns (ghost g: seq<T>)
    requires Sifting(a, first, h, hole, 0, was, bag, key, S)
    requires 1 <= hole && p == Parent(hole) && key(h[p]) <= key(h[hole])
    modifies a
    ensures |g| == |h| && g[p] == h[hole]
    ensures Sifting(a, first, g, p, 0, was, bag, key, S)
    ensures AboveChildren(g, key, p, key(h[hole]))
  {
    GapUp(h, key, hole, p);
    g := MoveInto(a, first, hole, p, h, was);
    BagWithin(h, g, S);
  }

  /** The loop of `sift_up`. */
  method ClimbLoop<T>(a: array<T>, first: nat, hole0: nat, p0: nat, t: T, less: (T, T) -> bool,
                      ghost h0: seq<T>, ghost was: seq<T>, ghost bag: multiset<T>, ghost key: T -> int, ghost S: set<T>)
    returns (hole: nat, ghost h: seq<T>)
    requires Sifting(a, first, h0, hole0, 0, was, bag, key, S) && Ranks(less, key, S) && h0[hole0] == t
    requires 1 <= hole0 && p0 == Parent(hole0) && key(h0[p0]) <= key(t)
    modifies a
    ensures |h| == |h0| && Sifting(a, first, h, hole, 0, was, bag, key, S) && h[hole] == t
    ensures Heap(h, key, 0)
  {
    hole, h := hole0, h0;
    var p := p0;
    while true
      invariant |h| == |h0| && Sifting(a, first, h, hole, 0, was, bag, key, S) && h[hole] == t
      invariant 1 <= hole && p == Parent(hole) && key(h[p]) <= key(t)
      decreases hole
    {
      h := Ascend(a, first, hole, p, h, was, bag, key, S);
      hole := p;
      if p == 0 {
        break;
      }
      p := (p - 1) / 2;
      assert a[first + p] == h[p];
      if !less(a[first + p], t) {
        break;
      }
    }
    GapClosed(h, key, 0, hole);
  }

  /** Restores the heap `[first, first + size)` when only the leaf at `last - 1` may rank above its parent. */
  method SiftUp<T>(a: array<T>, first: nat, last: nat, len: nat, less: (T, T) -> bool,
                   ghost size: nat, ghost key: T -> int, ghost S: set<T>)
    requires first < last == first + len <= first + size <= a.Length && size <= 2 * (len - 1) + 1
    requires Ready(a, less, key, S)
    requires Gap(a[first..first + size], key, 0, len - 1)
    modifies a
    ensures Ready(a, less, key, S)
    ensures Heap(a[first..first + size], key, 0)
    ensures Perm(old(a[..]), a[..], first, first + size)
  {
    hide Heap, Gap, Perm;
    ghost var was := a[..];
    ghost var h := a[first..first + size];
    StartSifting(a, first, size, len - 1, 0, key, S);
    SamePerm(was, first, first + size);
    if len > 1 {
      var p := (len - 2) / 2;
      assert a[first + p] == h[p] && a[last - 1] == h[len - 1];
      if less(a[first + p], a[last - 1]) {
        var t := a[last - 1];
        var hole;
        hole, h := ClimbLoop(a, first, len - 1, p, t, less, h, was, multiset(h), key, S);
        FillHole(a, first, hole, t, h, was, S);
        return;
      }
    }
    GapClosed(h, key, 0, len - 1);
  }

  /** The root is taken out: a leaf is free, and `h` is the range with the root's element put there. */
  method TakeRoot<T>(a: array<T>, first: nat, n: nat, less: (T, T) -> bool, ghost key: T -> int, ghost S: set<T>)
    returns (hole: nat, ghost h: seq<T>)
    requires 1 < n && first + n <= a.Length
    requires Ready(a, less, key, S)
    requires Heap(a[first..first + n], key, 0)
    modifies a
    ensures |h| == n && first <= hole < first + n <= first + 2 * (hole - first) + 1
    ensures Sifting(a, first, h, hole - first, 0, old(a[..]), multiset(old(a[first..first + n])), key, S)
    ensures h[hole - first] == old(a[first])
  {
    ghost var h0 := a[first..first + n];
    assert Within(h0, S);
    hole, h := FloydSiftDown(a, first, n, less, h0, a[..], multiset(h0), key, S);
  }

  /** The free leaf is the last place: the extracted element goes there. */
  method CloseAtEnd<T>(a: array<T>, first: nat, hole: nat, top: T,
                       ghost h: seq<T>, ghost was: seq<T>, ghost bag: multiset<T>, ghost key: T -> int, ghost S: set<T>)
    requires 1 < |h| && hole == first + |h| - 1 && h[|h| - 1] == top
    requires Sifting(a, first, h, |h| - 1, 0, was, bag, key, S) && Within(was, S)
    requires bag == multiset(was[first..first + |h|])
    modifies a
    ensures Within(a[..], S) && a[..][first + |h| - 1] == top
    ensures Heap(a[first..first + |h| - 1], key, 0)
    ensures Perm(was, a[..], first, first + |h|)
  {
    FillHole(a, first, hole - first, top, h, was, S);
    LeafDropped(a[..], h, key, first);
    assert a[..][first..first + |h| - 1] == a[first..first + |h| - 1];
  }

  /** The free leaf is elsewhere: the last element goes there and sifts up, the extracted one to the end. */
  method CloseBySift<T>(a: array<T>, first: nat, hole: nat, lastElem: nat, top: T, less: (T, T) -> bool,
                        ghost h: seq<T>, ghost was: seq<T>, ghost bag: multiset<T>, ghost key: T -> int,
                            ghost S: set<T>)
    requires 1 < |h| && first <= hole < lastElem == first + |h| - 1 && |h| <= 2 * (hole - first) + 1
    requires h[hole - first] == top
    requires Sifting(a, first, h, hole - first, 0, was, bag, key, S) && Within(was, S) && Ranks(less, key, S)
    requires bag == multiset(was[first..first + |h|])
    modifies a
    ensures Within(a[..], S) && a[..][first + |h| - 1] == top
    ensures Heap(a[first..first + |h| - 1], key, 0)
    ensures Perm(was, a[..], first, first + |h|)
  {
    PutLast(a, first, hole, lastElem, top, h, was, key, S);
    ghost var before := a[..];
    assert before[first + |h| - 1] == top;
    SiftUp(a, first, hole + 1, hole + 1 - first, less, |h| - 1, key, S);
  }

  /** One round of the extraction loop: the largest element goes to the end, the rest is a heap again. */
  method Extract<T>(a: array<T>, first: nat, n: nat, less: (T, T) -> bool, ghost key: T -> int, ghost S: set<T>)
    requires 1 < n && first + n <= a.Length
    requires Ready(a, less, key, S)
    requires Heap(a[first..first + n], key, 0)
    modifies a
    ensures Ready(a, less, key, S)
    ensures a[..][first + n - 1] == old(a[first])
    ensures Heap(a[first..first + n - 1], key, 0)
    ensures Perm(old(a[..]), a[..], first, first + n)
  {
    hide Heap, Gap, Perm, Sifting;
    var top := a[first];
    ghost var was, bag := a[..], multiset(a[first..first + n]);
    assert was[first..first + n] == a[first..first + n];
    var hole;
    ghost var h;
    hole, h := TakeRoot(a, first, n, less, key, S);
    var lastElem := first + n - 1;
    if hole == lastElem {
      CloseAtEnd(a, first, hole, top, h, was, bag, key, S);
    } else {
      CloseBySift(a, first, hole, lastElem, top, less, h, was, bag, key, S);
    }
  }

  lemma LeafDropped<T>(now: seq<T>, h: seq<T>, key: T -> int, first: nat)
    requires first + |h| <= |now| && 1 < |h| && now[first..first + |h|] == h
    requires Gap(h, key, 0, |h| - 1)
    ensures Heap(now[first..first + |h| - 1], key, 0)
    ensures now[first + |h| - 1] == h[|h| - 1]
  {
    var g := now[first..first + |h| - 1];
    assert forall i {:trigger g[i]} :: 0 <= i < |g| ==> g[i] == now[first..first + |h|][i];
    assert now[first + |h| - 1] == now[first..first + |h|][|h| - 1];
  }

  lemma EndsSwapped<T>(before: seq<T>, h: seq<T>, first: nat, hole: nat, lastElem: nat, top: T)
    requires first <= hole < lastElem == first + |h| - 1 < |before| && h[hole - first] == top
    requires forall i {:trigger h[i]} :: 0 <= i < |h| && i != hole - first ==> before[first + i] == h[i]
    ensures before[hole := before[lastElem]][lastElem := top][first..first + |h|] == Swapped(h, hole - first, |h| - 1)
  {
    assert before[lastElem] == h[|h| - 1];
  }

  method PutLast<T>(a: array<T>, first: nat, hole: nat, lastElem: nat, top: T,
                    ghost h: seq<T>, ghost was: seq<T>, ghost key: T -> int, ghost S: set<T>)
    requires first <= hole < lastElem == first + |h| - 1 && |h| <= 2 * (hole - first) + 1
    requires Sifting(a, first, h, hole - first, 0, was, multiset(h), key, S)
    requires h[hole - first] == top && multiset(h) == multiset(was[first..first + |h|]) && Within(was, S)
    modifies a
    ensures Perm(was, a[..], first, first + |h|) && Within(a[..], S)
    ensures a[lastElem] == top
    ensures Gap(a[first..first + |h| - 1], key, 0, hole - first)
  {
    hide *;
    SiftingGives(a, first, h, hole - first, was, key, S);
    ghost var before := a[..];
    a[hole] := a[lastElem];
    a[lastElem] := top;
    assert a[..] == before[hole := before[lastElem]][lastElem := top];
    PutLastDone(before, was, h, key, S, first, hole, lastElem, top);
    assert a[..][first..first + |h| - 1] == a[first..first + |h| - 1];
  }

  lemma SiftingGives<T>(a: array<T>, first: nat, h: seq<T>, hole: nat, was: seq<T>, key: T -> int, S: set<T>)
    requires Sifting(a, first, h, hole, 0, was, multiset(h), key, S)
    ensures first + |h| <= a.Length && hole < |h| && Gap(h, key, 0, hole) && Framed(a[..], was, first, first + |h|)
    ensures forall i {:trigger h[i]} :: 0 <= i < |h| && i != hole ==> a[..][first + i] == h[i]
  {
  }

  lemma PutLastDone<T>(before: seq<T>, was: seq<T>, h: seq<T>, key: T -> int, S: set<T>, first: nat, hole: nat,
      lastElem: nat, top: T)
    requires first <= hole < lastElem == first + |h| - 1 < |before| && |h| <= 2 * (hole - first) + 1
             && h[hole - first] == top
    requires Framed(before, was, first, first + |h|) && Gap(h, key, 0, hole - first)
    requires forall i {:trigger h[i]} :: 0 <= i < |h| && i != hole - first ==> before[first + i] == h[i]
    requires first + |h| <= |was| && multiset(h) == multiset(was[first..first + |h|]) && Within(was, S)
    ensures var now := before[hole := before[lastElem]][lastElem := top];
            && Perm(was, now, first, first + |h|) && Within(now, S) && now[lastElem] == top
            && Gap(now[first..first + |h| - 1], key, 0, hole - first)
  {
    hide *;
    var now := before[hole := before[lastElem]][lastElem := top];
    EndsSwapped(before, h, first, hole, lastElem, top);
    FramedEnds(before, was, first, first + |h|, hole, lastElem, top);
    LastIntoHole(was, now, h, key, S, first, hole - first);
  }

  lemma FramedEnds<T>(before: seq<T>, was: seq<T>, first: nat, last: nat, hole: nat, lastElem: nat, top: T)
    requires first <= hole < last <= |before| && first <= lastElem < last && Framed(before, was, first, last)
    ensures Framed(before[hole := before[lastElem]][lastElem := top], was, first, last)
  {
  }

  /** The last element of the range goes into the free leaf and the extracted one to the end. */
  lemma LastIntoHole<T>(was: seq<T>, now: seq<T>, h: seq<T>, key: T -> int, S: set<T>, first: nat, hole: nat)
    requires first + |h| <= |was| && hole < |h| - 1 && |h| <= 2 * hole + 1
    requires Framed(now, was, first, first + |h|)
    requires multiset(h) == multiset(was[first..first + |h|]) && Within(was, S)
    requires now[first..first + |h|] == Swapped(h, hole, |h| - 1)
    requires Gap(h, key, 0, hole)
    ensures Perm(was, now, first, first + |h|) && Within(now, S)
    ensures Gap(now[first..first + |h| - 1], key, 0, hole)
  {
    RangePermuted(was, now, first, first + |h|);
    WithinKept(was, now, S, first, first + |h|);
    var g := now[first..first + |h| - 1];
    assert forall i {:trigger g[i]} :: 0 <= i < |g| ==> g[i] == now[first..first + |h|][i];
    assert forall i {:trigger g[i]} :: 0 <= i < |g| && i != hole ==> g[i] == h[i];
  }

  method HeapSort<T>(a: array<T>, first: nat, last: nat, less: (T, T) -> bool, ghost key: T -> int, ghost S: set<T>)
    requires first <= last <= a.Length
    requires Ready(a, less, key, S)
    modifies a
    ensures Ready(a, less, key, S)
    ensures Sorted(a[..], key, first, last)
    ensures Perm(old(a[..]), a[..], first, last)
  {
    hide Heap, Split, Sorted;
    var n := last - first;
    HeapStart(a[..], key, first, last);
    if n > 1 {
      var start := (n - 2) / 2;
      while start >= 0
        invariant -1 <= start < n
        invariant Ready(a, less, key, S)
        invariant Heap(a[first..last], key, start + 1)
        invariant Perm(old(a[..]), a[..], first, last)
      {
        SiftDown(a, first, n, first + start, less, key, S);
        start := start - 1;
      }
      HeapStart(a[..], key, first, last);
    }
    while n > 1
      invariant 0 <= n <= last - first && (last - first >= 1 ==> n >= 1)
      invariant Ready(a, less, key, S)
      invariant Heap(a[first..first + n], key, 0)
      invariant Split(a[..], key, first, first + n, last)
      invariant Sorted(a[..], key, first + n, last)
      invariant Perm(old(a[..]), a[..], first, last)
    {
      ghost var before := a[..];
      Extract(a, first, n, less, key, S);
      Extracted(before, a[..], key, first, n, last);
      n := n - 1;
    }
    HeapEnd(a[..], key, first, n, last);
  }

  /** Before the extraction begins nothing is sorted yet; a range without parents is a heap. */
  lemma HeapStart<T>(s: seq<T>, key: T -> int, first: nat, last: nat)
    requires first <= last <= |s|
    ensures Split(s, key, first, last, last) && Sorted(s, key, last, last)
    ensures forall from: int {:trigger Heap(s[first..last], key, from)} ::
            from > (last - first - 2) / 2 ==> Heap(s[first..last], key, from)
  {
  }

  lemma HeapEnd<T>(s: seq<T>, key: T -> int, first: nat, n: nat, last: nat)
    requires n <= 1 && first + n <= last <= |s| && (last - first >= 1 ==> n >= 1)
    requires Split(s, key, first, first + n, last) && Sorted(s, key, first + n, last)
    ensures Sorted(s, key, first, last)
  {
  }

  lemma Extracted<T>(before: seq<T>, now: seq<T>, key: T -> int, first: nat, n: nat, last: nat)
    requires 1 < n && first + n <= last <= |before|
    requires Heap(before[first..first + n], key, 0)
    requires Split(before, key, first, first + n, last) && Sorted(before, key, first + n, last)
    requires Perm(before, now, first, first + n) && now[first + n - 1] == before[first]
    ensures Split(now, key, first, first + n - 1, last) && Sorted(now, key, first + n - 1, last)
  {
    var h := before[first..first + n];
    forall i | first <= i < first + n ensures key(before[i]) <= key(before[first]) {
      RootIsLargest(h, key, i - first);
      assert h[i - first] == before[i] && h[0] == before[first];
    }
    SplitKept(before, now, key, first, first + n, last, first, first + n);
    forall i | first <= i < first + n ensures key(now[i]) <= key(before[first]) {
      var j := Origin(before, now, first, first + n, i);
    }
  }
}
