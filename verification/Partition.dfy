/** The two partitions of the introsort. Their scans test no bounds; each contract names the element
    that stops the scan. */
module Partition {
  import opened SortOrder
  import opened SmallSorts

  /** The upward scan: the first place after `from` that stops it, given that `guard` would. */
  method ScanUp<T>(a: array<T>, from: nat, stop: T -> bool, ghost guard: nat) returns (i: nat)
    requires from < guard < a.Length && stop(a[guard])
    ensures from < i <= guard && stop(a[i])
    ensures forall m :: from < m < i ==> !stop(a[m])
  {
    i := from;
    while true
      invariant from <= i < guard
      invariant forall m :: from < m <= i ==> !stop(a[m])
      decreases guard - i
    {
      i := i + 1;
      if stop(a[i]) {
        break;
      }
    }
  }

  /** The downward scan: the last place before `from` that stops it, given that `guard` would. */
  method ScanDown<T>(a: array<T>, from: nat, stop: T -> bool, ghost guard: nat) returns (i: nat)
    requires guard < from <= a.Length && stop(a[guard])
    ensures guard <= i < from && stop(a[i])
    ensures forall m :: i < m < from ==> !stop(a[m])
  {
    i := from;
    while true
      invariant guard < i <= from
      invariant forall m :: i <= m < from ==> !stop(a[m])
      decreases i
    {
      i := i - 1;
      if stop(a[i]) {
        break;
      }
    }
  }

  /** Between the scans: everything before `first` is on the left side, everything after `last` on the right. */
  ghost predicate Sides<T>(s: seq<T>, key: T -> int, bound: int, begin: int, first: int, last: int, end: int)
    requires 0 <= begin < end <= |s|
  {
    && begin < first <= end && first - 1 <= last <= end
    && (forall m {:trigger key(s[m])} :: begin < m < first ==> key(s[m]) < bound)
    && (forall m {:trigger key(s[m])} :: last < m < end ==> bound <= key(s[m]))
    && (first < end ==> bound <= key(s[first]))
    && (first < last ==> last < end && key(s[last]) < bound)
  }

  /** `below` picks out the ranked elements under `bound`. */
  ghost predicate Picks<T>(below: T -> bool, key: T -> int, bound: int, S: set<T>) {
    forall x {:trigger below(x)} :: x in S ==> (below(x) <==> key(x) < bound)
  }

  // ---- which elements the exchanges move ----

  /** The places in `(begin, m)` that hold something not below `bound`. */
  ghost function Uppers<T>(s: seq<T>, key: T -> int, bound: int, begin: int, m: int): set<int>
    requires 0 <= begin && m <= |s|
  {
    set i | begin < i < m && key(s[i]) >= bound
  }

  /** The places in `(n, end)` that hold something below `bound`. */
  ghost function Lowers<T>(s: seq<T>, key: T -> int, bound: int, n: int, end: int): set<int>
    requires -1 <= n && end <= |s|
  {
    set i | n < i < end && key(s[i]) < bound
  }

  /** `m` and `n` are misplaced for a division between `first` and `last`, and equally many misplaced places lie
      outside each of them. */
  ghost predicate Paired<T>(s: seq<T>, key: T -> int, bound: int, begin: int, m: int, first: int, last: int, n: int,
      end: int)
    requires 0 <= begin && end <= |s|
  {
    && begin < m < first <= end && -1 <= last < n < end && key(s[n]) < bound <= key(s[m])
    && |Uppers(s, key, bound, begin, m)| == |Lowers(s, key, bound, n, end)|
  }

  /** `t` is `s` with the misplaced elements outside `[first, last]` exchanged, the outermost pair first; nothing
      else has moved. */
  ghost predicate Mirrored<T>(s: seq<T>, t: seq<T>, key: T -> int, bound: int, begin: int, first: int, last: int,
      end: int)
  {
    && |s| == |t| && 0 <= begin < first <= end <= |s| && -1 <= last <= end
    && (forall m {:trigger t[m]} :: begin < m < first && key(s[m]) < bound ==> t[m] == s[m])
    && (forall m {:trigger t[m]} :: last < m < end && bound <= key(s[m]) ==> t[m] == s[m])
    && (forall m {:trigger t[m]} :: 0 <= m < |t| && (m <= begin || first <= m <= last || end <= m) ==> t[m] == s[m])
    && (forall m, n {:trigger Paired(s, key, bound, begin, m, first, last, n, end)} ::
          Paired(s, key, bound, begin, m, first, last, n, end) ==> t[m] == s[n] && t[n] == s[m])
  }

  /** As many misplaced places lie before `first` as after `last`. */
  ghost predicate Balanced<T>(s: seq<T>, key: T -> int, bound: int, begin: int, first: int, last: int, end: int) {
    && 0 <= begin && first <= |s| && -1 <= last && end <= |s|
    && |Uppers(s, key, bound, begin, first)| == |Lowers(s, key, bound, last, end)|
  }

  lemma MirrorStart<T>(s: seq<T>, key: T -> int, bound: int, begin: int, first: int, last: int, end: int)
    requires 0 <= begin < first <= end <= |s| && -1 <= last <= end
    requires forall m {:trigger key(s[m])} :: begin < m < first ==> key(s[m]) < bound
    requires forall m {:trigger key(s[m])} :: last < m < end ==> bound <= key(s[m])
    ensures Mirrored(s, s, key, bound, begin, first, last, end)
    ensures Balanced(s, key, bound, begin, first, last, end)
  {
    assert Uppers(s, key, bound, begin, first) == {};
    assert Lowers(s, key, bound, last, end) == {};
  }

  /** Only the exchanged places pair with each other. */
  lemma OnlyPair<T>(s: seq<T>, key: T -> int, bound: int, begin: int, m: int, first: int, last: int, n: int, end: int)
    requires Balanced(s, key, bound, begin, first, last, end) && 0 <= begin < first < last < end <= |s|
    requires key(s[last]) < bound <= key(s[first])
    requires Paired(s, key, bound, begin, m, first + 1, last - 1, n, end)
    ensures m == first <==> n == last
  {
    if m == first && last < n {
      assert n in Lowers(s, key, bound, last, end);
      SubsetSize(Lowers(s, key, bound, n, end), Lowers(s, key, bound, last, end));
    }
    if n == last && m < first {
      assert m in Uppers(s, key, bound, begin, first);
      SubsetSize(Uppers(s, key, bound, begin, m), Uppers(s, key, bound, begin, first));
    }
  }

  lemma BalancedExchange<T>(s: seq<T>, key: T -> int, bound: int, begin: int, first: int, last: int, end: int)
    requires Balanced(s, key, bound, begin, first, last, end) && 0 <= begin < first < last < end <= |s|
    requires key(s[last]) < bound <= key(s[first])
    ensures Balanced(s, key, bound, begin, first + 1, last - 1, end)
  {
    hide Uppers, Lowers;
    UppersNext(s, key, bound, begin, first + 1);
    LowersNext(s, key, bound, last - 1, end);
  }

  lemma MirrorExchange<T>(s: seq<T>, t: seq<T>, t': seq<T>, key: T -> int, bound: int, begin: int, first: int,
      last: int, end: int)
    requires Mirrored(s, t, key, bound, begin, first, last, end) && first < last < end
    requires Balanced(s, key, bound, begin, first, last, end)
    requires key(s[last]) < bound <= key(s[first])
    requires t' == t[first := t[last]][last := t[first]]
    ensures Mirrored(s, t', key, bound, begin, first + 1, last - 1, end)
  {
    hide Uppers, Lowers;
    forall m, n | Paired(s, key, bound, begin, m, first + 1, last - 1, n, end)
      ensures t'[m] == s[n] && t'[n] == s[m]
    {
      OnlyPair(s, key, bound, begin, m, first, last, n, end);
      if m != first {
        assert Paired(s, key, bound, begin, m, first, last, n, end);
      }
    }
  }

  /** Passing over places that are not misplaced. */
  lemma MirrorPast<T>(s: seq<T>, t: seq<T>, key: T -> int, bound: int, begin: int, first: int, last: int,
      first': int, last': int, end: int)
    requires Mirrored(s, t, key, bound, begin, first, last, end) && Balanced(s, key, bound, begin, first, last, end)
    requires first <= first' <= last + 1 <= end && first - 1 <= last' <= last
    requires forall m {:trigger key(s[m])} :: first <= m < first' ==> key(s[m]) < bound
    requires forall m {:trigger key(s[m])} :: last' < m <= last ==> bound <= key(s[m])
    ensures Mirrored(s, t, key, bound, begin, first', last', end)
    ensures Balanced(s, key, bound, begin, first', last', end)
  {
    assert Uppers(s, key, bound, begin, first') == Uppers(s, key, bound, begin, first);
    assert Lowers(s, key, bound, last', end) == Lowers(s, key, bound, last, end);
    hide Uppers, Lowers;
    forall m, n | Paired(s, key, bound, begin, m, first', last', n, end)
      ensures t[m] == s[n] && t[n] == s[m]
    {
      assert Paired(s, key, bound, begin, m, first, last, n, end);
    }
  }

  lemma {:induction false} LowerOfRank<T>(s: seq<T>, key: T -> int, bound: int, last: int, end: int, r: nat)
      returns (n: int)
    requires -1 <= last < end <= |s| && r < |Lowers(s, key, bound, last, end)|
    ensures last < n < end && key(s[n]) < bound && |Lowers(s, key, bound, n, end)| == r
    decreases end - last
  {
    LowersNext(s, key, bound, last, end);
    n := last + 1;
    if n < end && (key(s[n]) >= bound || |Lowers(s, key, bound, n, end)| != r) {
      n := LowerOfRank(s, key, bound, n, end, r);
    }
  }

  lemma {:induction false} UpperOfRank<T>(s: seq<T>, key: T -> int, bound: int, begin: int, first: int, r: nat)
      returns (m: int)
    requires 0 <= begin < first <= |s| && r < |Uppers(s, key, bound, begin, first)|
    ensures begin < m < first && bound <= key(s[m]) && |Uppers(s, key, bound, begin, m)| == r
    decreases first - begin
  {
    UppersNext(s, key, bound, begin, first);
    m := first - 1;
    if begin < m && (key(s[m]) < bound || |Uppers(s, key, bound, begin, m)| != r) {
      m := UpperOfRank(s, key, bound, begin, m, r);
    }
  }

  lemma LowersNext<T>(s: seq<T>, key: T -> int, bound: int, last: int, end: int)
    requires -1 <= last < end <= |s|
    ensures last + 1 == end ==> Lowers(s, key, bound, last, end) == {}
    ensures last + 1 < end ==>
              |Lowers(s, key, bound, last, end)|
              == |Lowers(s, key, bound, last + 1, end)| + (if key(s[last + 1]) < bound then 1 else 0)
  {
    if last + 1 < end {
      var less, more := Lowers(s, key, bound, last + 1, end), Lowers(s, key, bound, last, end);
      assert more == if key(s[last + 1]) < bound then less + {last + 1} else less;
    }
  }

  lemma UppersNext<T>(s: seq<T>, key: T -> int, bound: int, begin: int, first: int)
    requires 0 <= begin < first <= |s|
    ensures begin + 1 == first ==> Uppers(s, key, bound, begin, first) == {}
    ensures begin + 1 < first ==>
              |Uppers(s, key, bound, begin, first)|
              == |Uppers(s, key, bound, begin, first - 1)| + (if key(s[first - 1]) < bound then 0 else 1)
  {
    if begin + 1 < first {
      var less, more := Uppers(s, key, bound, begin, first - 1), Uppers(s, key, bound, begin, first);
      assert more == if key(s[first - 1]) < bound then less else less + {first - 1};
    }
  }

  /** Every misplaced place has its partner, so only one outcome is mirrored. */
  lemma MirroredOnce<T>(s: seq<T>, t: seq<T>, t': seq<T>, key: T -> int, bound: int, begin: int, first: int, end: int)
    requires Mirrored(s, t, key, bound, begin, first, first - 1, end)
    requires Mirrored(s, t', key, bound, begin, first, first - 1, end)
    requires Balanced(s, key, bound, begin, first, first - 1, end)
    ensures t == t'
  {
    forall i | 0 <= i < |s| ensures t[i] == t'[i] {
      if begin < i < first && bound <= key(s[i]) {
        assert i in Uppers(s, key, bound, begin, first);
        SubsetSize(Uppers(s, key, bound, begin, i), Uppers(s, key, bound, begin, first));
        var n := LowerOfRank(s, key, bound, first - 1, end, |Uppers(s, key, bound, begin, i)|);
        assert Paired(s, key, bound, begin, i, first, first - 1, n, end);
      } else if first <= i < end && key(s[i]) < bound {
        assert i in Lowers(s, key, bound, first - 1, end);
        SubsetSize(Lowers(s, key, bound, i, end), Lowers(s, key, bound, first - 1, end));
        var m := UpperOfRank(s, key, bound, begin, first, |Lowers(s, key, bound, i, end)|);
        assert Paired(s, key, bound, begin, m, first, first - 1, i, end);
      }
    }
  }

  /** The loop both partitions end with: exchange a misplaced pair, then scan on from both sides. The
      exchanged pair stops the two scans. */
  method Converge<T>(a: array<T>, begin: nat, first0: nat, last0: nat, below: T -> bool,
                     ghost end: nat, ghost key: T -> int, ghost bound: int, ghost S: set<T>)
    returns (first: nat)
    requires begin < end <= a.Length
    requires Within(a[..], S) && Picks(below, key, bound, S)
    requires Sides(a[..], key, bound, begin, first0, last0, end)
    modifies a
    ensures Within(a[..], S)
    ensures Perm(old(a[..]), a[..], begin + 1, end)
    ensures begin < first <= end
    ensures Sides(a[..], key, bound, begin, first, first - 1, end)
    ensures first0 >= last0 ==> first == first0 && a[..] == old(a[..])
    ensures Mirrored(old(a[..]), a[..], key, bound, begin, first, first - 1, end)
    ensures Balanced(old(a[..]), key, bound, begin, first, first - 1, end)
  {
    hide Mirrored, Balanced;
    ghost var was := a[..];
    MirrorStart(was, key, bound, begin, first0, last0, end);
    first := first0;
    var last := last0;
    while first < last
      invariant Within(a[..], S)
      invariant Perm(old(a[..]), a[..], begin + 1, end)
      invariant Sides(a[..], key, bound, begin, first, last, end)
      invariant first0 >= last0 ==> first == first0 && last == last0 && a[..] == old(a[..])
      invariant Mirrored(was, a[..], key, bound, begin, first, last, end)
      invariant Balanced(was, key, bound, begin, first, last, end)
      decreases last - first
    {
      first, last := Step(a, begin, first, last, below, was, end, key, bound, S);
    }
    MirrorEnd(was, a[..], key, bound, begin, first, last, end);
  }

  lemma MirrorEnd<T>(s: seq<T>, t: seq<T>, key: T -> int, bound: int, begin: int, first: int, last: int, end: int)
    requires Mirrored(s, t, key, bound, begin, first, last, end) && Balanced(s, key, bound, begin, first, last, end)
    requires first - 1 <= last <= first && (first < end ==> bound <= key(t[first]))
    ensures Mirrored(s, t, key, bound, begin, first, first - 1, end)
    ensures Balanced(s, key, bound, begin, first, first - 1, end)
  {
    if last == first && first < end {
      MirrorPast(s, t, key, bound, begin, first, last, first, first - 1, end);
    } else {
      assert Lowers(s, key, bound, first - 1, end) == Lowers(s, key, bound, last, end);
    }
  }

  /** One round of the loop: exchange and scan. */
  method Step<T>(a: array<T>, begin: nat, first0: nat, last0: nat, below: T -> bool,
                 ghost was: seq<T>, ghost end: nat, ghost key: T -> int, ghost bound: int, ghost S: set<T>)
    returns (first: nat, last: nat)
    requires begin < end <= a.Length && first0 < last0
    requires Within(a[..], S) && Picks(below, key, bound, S)
    requires Sides(a[..], key, bound, begin, first0, last0, end)
    requires Mirrored(was, a[..], key, bound, begin, first0, last0, end)
    requires Balanced(was, key, bound, begin, first0, last0, end)
    modifies a
    ensures Within(a[..], S)
    ensures Perm(old(a[..]), a[..], begin + 1, end)
    ensures Sides(a[..], key, bound, begin, first, last, end)
    ensures last - first < last0 - first0
    ensures Mirrored(was, a[..], key, bound, begin, first, last, end)
    ensures Balanced(was, key, bound, begin, first, last, end)
  {
    hide Mirrored, Balanced;
    Swap(a, first0, last0, S);
    ghost var s := a[..];
    MirrorSwap(was, old(a[..]), s, key, bound, begin, first0, last0, end);
    assert forall m {:trigger key(s[m])} :: 0 <= m < |s| ==> s[m] in S && (below(s[m]) <==> key(s[m]) < bound);
    first := ScanUp(a, first0, x => !below(x), last0);
    last := ScanDown(a, last0, below, first0);
    assert a[..] == s;
    SidesAfterScans(s, key, bound, below, begin, first0, last0, first, last, end);
    MirrorScans(was, s, key, bound, begin, first0, last0, first, last, end);
  }

  lemma MirrorSwap<T>(s: seq<T>, t: seq<T>, t': seq<T>, key: T -> int, bound: int, begin: int, first: int, last: int,
      end: int)
    requires Mirrored(s, t, key, bound, begin, first, last, end) && first < last < end
    requires Balanced(s, key, bound, begin, first, last, end)
    requires key(t[last]) < bound <= key(t[first])
    requires |t'| == |t| && t'[first] == t[last] && t'[last] == t[first]
    requires forall i :: 0 <= i < |t| && i !in {first, last} ==> t'[i] == t[i]
    ensures Mirrored(s, t', key, bound, begin, first + 1, last - 1, end)
    ensures Balanced(s, key, bound, begin, first + 1, last - 1, end)
  {
    assert t[first] == s[first] && t[last] == s[last];
    assert t' == t[first := t[last]][last := t[first]];
    MirrorExchange(s, t, t', key, bound, begin, first, last, end);
    BalancedExchange(s, key, bound, begin, first, last, end);
  }

  lemma MirrorScans<T>(s: seq<T>, t: seq<T>, key: T -> int, bound: int, begin: int, first0: int, last0: int, first: int,
      last: int, end: int)
    requires Mirrored(s, t, key, bound, begin, first0 + 1, last0 - 1, end)
    requires Balanced(s, key, bound, begin, first0 + 1, last0 - 1, end)
    requires first0 < first <= last0 < end && first0 <= last < last0
    requires Sides(t, key, bound, begin, first, last, end)
    ensures Mirrored(s, t, key, bound, begin, first, last, end)
    ensures Balanced(s, key, bound, begin, first, last, end)
  {
    forall m | first0 + 1 <= m < first ensures key(s[m]) < bound {
      assert t[m] == s[m];
    }
    forall m | last < m <= last0 - 1 ensures bound <= key(s[m]) {
      assert t[m] == s[m];
    }
    MirrorPast(s, t, key, bound, begin, first0 + 1, last0 - 1, first, last, end);
  }

  lemma SidesAfterScans<T>(s: seq<T>, key: T -> int, bound: int, below: T -> bool,
                           begin: int, first0: int, last0: int, first: int, last: int, end: int)
    requires 0 <= begin < first0 < last0 < end <= |s|
    requires forall m {:trigger key(s[m])} :: 0 <= m < |s| ==> (below(s[m]) <==> key(s[m]) < bound)
    requires forall m {:trigger key(s[m])} :: begin < m <= first0 ==> key(s[m]) < bound
    requires forall m {:trigger key(s[m])} :: last0 <= m < end ==> bound <= key(s[m])
    requires first0 < first <= last0 && !below(s[first])
    requires forall m :: first0 < m < first ==> below(s[m])
    requires first0 <= last < last0 && below(s[last])
    requires forall m :: last < m < last0 ==> !below(s[m])
    ensures Sides(s, key, bound, begin, first, last, end)
  {
    forall m | begin < m < first ensures key(s[m]) < bound {
      if first0 < m { assert below(s[m]); }
    }
    forall m | last < m < end ensures bound <= key(s[m]) {
      if m < last0 { assert !below(s[m]); }
    }
    assert first0 < first - 1 ==> below(s[first - 1]);
  }

  /** The end of both partitions: the pivot goes where the left side ends. */
  method PlacePivot<T>(a: array<T>, begin: nat, place: nat, pivot: T,
                       ghost end: nat, ghost key: T -> int, ghost bound: int, ghost S: set<T>)
    requires begin <= place < end <= a.Length && pivot == a[begin] && Within(a[..], S)
    requires Sides(a[..], key, bound, begin, place + 1, place, end)
    modifies a
    ensures Within(a[..], S)
    ensures a[..] == old(a[..])[begin := old(a[place])][place := pivot]
    ensures Perm(old(a[..]), a[..], begin, end)
    ensures a[place] == pivot
    ensures forall m {:trigger a[m]} :: begin <= m < place ==> key(a[m]) < bound
    ensures forall m {:trigger a[m]} :: place < m < end ==> bound <= key(a[m])
  {
    ghost var was := a[..];
    if begin != place {
      a[begin] := a[place];
    }
    a[place] := pivot;
    assert a[..] == was[begin := was[place]][place := pivot];
    PivotPlaced(was, a[..], key, bound, S, begin, place, end);
  }

  lemma PivotPlaced<T>(was: seq<T>, now: seq<T>, key: T -> int, bound: int, S: set<T>, begin: int, place: int, end: int)
    requires 0 <= begin <= place < end <= |was| && Within(was, S)
    requires Sides(was, key, bound, begin, place + 1, place, end)
    requires now == was[begin := was[place]][place := was[begin]]
    ensures Perm(was, now, begin, end) && Within(now, S)
    ensures forall m :: begin <= m < place ==> key(now[m]) < bound
    ensures forall m :: place < m < end ==> bound <= key(now[m])
  {
    MoveHole(was, begin, place, was[begin]);
    assert was[begin := was[begin]] == was;
    forall m | begin <= m < place ensures key(now[m]) < bound {
      assert now[m] == was[if m == begin then place else m];
    }
    forall m | place < m < end ensures bound <= key(now[m]) {
      assert now[m] == was[m];
    }
  }

  /** The first scans of the right partition. Some element after `begin` must not be below the pivot
      (the median of three or the ninther leaves one), and an element passed on the way up stops the
      way down; only when there is none is the way down bounded. */
  method FirstPairRight<T>(a: array<T>, begin: nat, end: nat, less: (T, T) -> bool,
                           ghost guard: nat, ghost key: T -> int, ghost S: set<T>)
    returns (first: nat, last: nat)
    requires begin < guard < end <= a.Length
    requires Ready(a, less, key, S)
    requires key(a[begin]) <= key(a[guard])
    ensures Sides(a[..], key, key(a[begin]), begin, first, last, end)
  {
    var pivot := a[begin];
    ghost var s := a[..];
    assert forall m {:trigger s[m]} :: 0 <= m < |s| ==> (less(s[m], pivot) <==> key(s[m]) < key(pivot));
    first := ScanUp(a, begin, x => !less(x, pivot), guard);
    last := end;
    if begin == first - 1 {
      while first < last
        invariant first <= last <= end
        invariant forall m :: last <= m < end ==> !less(a[m], pivot)
      {
        last := last - 1;
        if less(a[last], pivot) {
          break;
        }
      }
    } else {
      last := ScanDown(a, last, x => less(x, pivot), first - 1);
    }
  }

  /** The first scans of the left partition: the pivot itself stops the way down. */
  method FirstPairLeft<T>(a: array<T>, begin: nat, end: nat, less: (T, T) -> bool, ghost key: T -> int, ghost S: set<T>)
    returns (first: nat, last: nat)
    requires begin < end <= a.Length
    requires Ready(a, less, key, S)
    ensures Sides(a[..], key, key(a[begin]) + 1, begin, first, last, end)
  {
    var pivot := a[begin];
    ghost var s := a[..];
    assert forall m {:trigger s[m]} :: 0 <= m < |s| ==> (less(pivot, s[m]) <==> key(pivot) < key(s[m]));
    last := end;
    if less(pivot, a[last - 1]) {
      first := ScanUp(a, begin, x => less(pivot, x), end - 1);
    } else {
      first := begin;
      while true
        invariant begin <= first < last
        invariant forall m :: begin < m <= first ==> !less(pivot, a[m])
        decreases last - first
      {
        first := first + 1;
        if first >= last || less(pivot, a[first]) {
          break;
        }
      }
    }
    if first < last {
      last := ScanDown(a, last, x => !less(pivot, x), first - 1);
    }
  }

  /** After `begin` nothing below `bound` follows anything that is not. */
  ghost predicate Divided<T>(s: seq<T>, key: T -> int, bound: int, begin: nat, end: nat)
    requires end <= |s|
  {
    forall m, n {:trigger key(s[m]), key(s[n])} :: begin < m < n < end && bound <= key(s[m]) ==> bound <= key(s[n])
  }

  lemma SidesDivided<T>(s: seq<T>, key: T -> int, bound: int, begin: nat, first: nat, last: int, end: nat)
    requires begin < end <= |s| && Sides(s, key, bound, begin, first, last, end)
    ensures first >= last <==> Divided(s, key, bound, begin, end)
  {
    if first < last {
      assert key(s[last]) < bound <= key(s[first]);
    }
  }

  /** The misplaced elements after `begin` are exchanged in pairs from the outside in, and then the pivot is exchanged
      with the last element of the left side. This says of every element where it goes. */
  ghost predicate MirroredAround<T>(s: seq<T>, t: seq<T>, key: T -> int, bound: int, begin: int, place: int, end: int) {
    && 0 <= begin <= place < end <= |s| == |t|
    && Mirrored(s, t[begin := t[place]][place := t[begin]], key, bound, begin, place + 1, place, end)
    && Balanced(s, key, bound, begin, place + 1, place, end)
  }

  lemma PlacedMirrored<T>(s: seq<T>, u: seq<T>, t: seq<T>, key: T -> int, bound: int, begin: int, place: int, end: int)
    requires Mirrored(s, u, key, bound, begin, place + 1, place, end)
    requires Balanced(s, key, bound, begin, place + 1, place, end)
    requires t == u[begin := u[place]][place := u[begin]]
    ensures MirroredAround(s, t, key, bound, begin, place, end)
  {
    assert u == t[begin := t[place]][place := t[begin]];
  }

  /** Elements equal to the pivot go right. */
  method PartitionWithEqualsOnRight<T>(a: array<T>, begin: nat, end: nat, less: (T, T) -> bool,
                                       ghost guard: nat, ghost key: T -> int, ghost S: set<T>)
    returns (place: nat, alreadyPartitioned: bool)
    requires begin < guard < end <= a.Length
    requires Ready(a, less, key, S)
    requires key(a[begin]) <= key(a[guard])
    modifies a
    ensures Ready(a, less, key, S)
    ensures begin <= place < end
    ensures a[place] == old(a[begin])
    ensures forall m {:trigger a[m]} :: begin <= m < place ==> key(a[m]) < key(a[place])
    ensures forall m {:trigger a[m]} :: place < m < end ==> key(a[place]) <= key(a[m])
    ensures Perm(old(a[..]), a[..], begin, end)
    ensures alreadyPartitioned <==> Divided(old(a[..]), key, key(old(a[begin])), begin, end)
    ensures alreadyPartitioned ==> a[..] == old(a[..])[begin := old(a[place])][place := old(a[begin])]
    ensures MirroredAround(old(a[..]), a[..], key, key(old(a[begin])), begin, place, end)
  {
    hide Mirrored, MirroredAround, Balanced, Sides;
    var pivot := a[begin];
    var first, last := FirstPairRight(a, begin, end, less, guard, key, S);
    SidesDivided(a[..], key, key(pivot), begin, first, last, end);
    hide Divided;
    alreadyPartitioned := first >= last;
    first := Converge(a, begin, first, last, x => less(x, pivot), end, key, key(pivot), S);
    place := first - 1;
    ghost var s := a[..];
    PlacePivot(a, begin, place, pivot, end, key, key(pivot), S);
    PlacedMirrored(old(a[..]), s, a[..], key, key(pivot), begin, place, end);
  }

  /** Elements equal to the pivot go left. */
  method PartitionWithEqualsOnLeft<T>(a: array<T>, begin: nat, end: nat, less: (T, T) -> bool,
                                      ghost key: T -> int, ghost S: set<T>)
    returns (first: nat)
    requires begin < end <= a.Length
    requires Ready(a, less, key, S)
    modifies a
    ensures Ready(a, less, key, S)
    ensures begin < first <= end
    ensures a[first - 1] == old(a[begin])
    ensures forall m {:trigger a[m]} :: begin <= m < first ==> key(a[m]) <= key(a[first - 1])
    ensures forall m {:trigger a[m]} :: first <= m < end ==> key(a[first - 1]) < key(a[m])
    ensures Perm(old(a[..]), a[..], begin, end)
    ensures MirroredAround(old(a[..]), a[..], key, key(old(a[begin])) + 1, begin, first - 1, end)
  {
    hide Mirrored, MirroredAround, Balanced, Sides;
    var pivot := a[begin];
    var last: nat;
    first, last := FirstPairLeft(a, begin, end, less, key, S);
    first := Converge(a, begin, first, last, x => !less(pivot, x), end, key, key(pivot) + 1, S);
    ghost var s := a[..];
    var place := first - 1;
    PlacePivot(a, begin, place, pivot, end, key, key(pivot) + 1, S);
    PlacedMirrored(old(a[..]), s, a[..], key, key(pivot) + 1, begin, place, end);
  }
}
