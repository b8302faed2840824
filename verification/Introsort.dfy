/** `introsort` and `sort_by`. */
module Introsort {
  import opened Common
  import opened SortOrder
  import opened Stability
  import opened SmallSorts
  import opened Partition
  import HeapSort

  const LIMIT := 24
  const NINTHER_THRESHOLD := 128

  // ---- how far the loop of `introsort` has come ----

  /** `[lo, first)` and `[last, hi)` are final; only `[first, last)` is still to be sorted. */
  ghost predicate Progress<T>(s: seq<T>, key: T -> int, lo: int, first: int, last: int, hi: int) {
    && 0 <= lo <= first <= last <= hi <= |s|
    && Sorted(s, key, lo, first) && Sorted(s, key, last, hi)
    && Split(s, key, lo, first, hi) && Split(s, key, lo, last, hi)
  }

  /** The element at `i` separates `[first, last)`. */
  ghost predicate PivotAt<T>(s: seq<T>, key: T -> int, first: int, i: int, last: int) {
    && 0 <= first <= i < last <= |s|
    && (forall m {:trigger key(s[m])} :: first <= m < i ==> key(s[m]) <= key(s[i]))
    && (forall m {:trigger key(s[m])} :: i < m < last ==> key(s[i]) <= key(s[m]))
  }

  lemma ProgressKept<T>(s: seq<T>, t: seq<T>, key: T -> int, lo: int, first: int, last: int, hi: int)
    requires Progress(s, key, lo, first, last, hi) && Perm(s, t, first, last)
    ensures Progress(t, key, lo, first, last, hi)
  {
    SplitKept(s, t, key, lo, first, hi, first, last);
    SplitKept(s, t, key, lo, last, hi, first, last);
  }

  lemma PivotKept<T>(s: seq<T>, t: seq<T>, key: T -> int, first: int, i: int, last: int, from: int, to: int)
    requires PivotAt(s, key, first, i, last) && Perm(s, t, from, to)
    requires first <= from <= to <= i || i < from <= to <= last
    ensures PivotAt(t, key, first, i, last)
  {
    forall m | first <= m < i ensures key(t[m]) <= key(t[i]) {
      var j := Origin(s, t, from, to, m);
    }
    forall m | i < m < last ensures key(t[i]) <= key(t[m]) {
      var j := Origin(s, t, from, to, m);
    }
  }

  /** With the left side sorted the loop can go on with the right side. */
  lemma LeftDone<T>(s: seq<T>, key: T -> int, lo: int, first: int, i: int, last: int, hi: int)
    requires Progress(s, key, lo, first, last, hi) && PivotAt(s, key, first, i, last) && Sorted(s, key, first, i)
    ensures Progress(s, key, lo, i + 1, last, hi)
    ensures Split(s, key, i, i + 1, last)
  {
    forall m, n | lo <= m < n <= i ensures key(s[m]) <= key(s[n]) {
    }
    forall m, n | lo <= m <= i < n < hi ensures key(s[m]) <= key(s[n]) {
      if m < first {
      } else if n < last {
        assert key(s[m]) <= key(s[i]) <= key(s[n]);
      }
    }
  }

  /** With the right side sorted the loop can go on with the left side. */
  lemma RightDone<T>(s: seq<T>, key: T -> int, lo: int, first: int, i: int, last: int, hi: int)
    requires Progress(s, key, lo, first, last, hi) && PivotAt(s, key, first, i, last) && Sorted(s, key, i + 1, last)
    ensures Progress(s, key, lo, first, i, hi)
  {
    forall m, n | i <= m < n < hi ensures key(s[m]) <= key(s[n]) {
    }
    forall m, n | lo <= m < i <= n < hi ensures key(s[m]) <= key(s[n]) {
      if first <= m && n < last {
        assert key(s[m]) <= key(s[i]) <= key(s[n]);
      }
    }
  }

  lemma AllDone<T>(s: seq<T>, key: T -> int, lo: int, first: int, last: int, hi: int)
    requires Progress(s, key, lo, first, last, hi) && Sorted(s, key, first, last)
    ensures Sorted(s, key, lo, hi)
  {
  }

  /** When the element before the range is not below the pivot, everything the left partition puts
      left equals the pivot. */
  lemma EqualsDone<T>(s: seq<T>, key: T -> int, lo: int, first: int, next: int, last: int, hi: int)
    requires Progress(s, key, lo, first, last, hi) && first < next <= last
    requires forall m {:trigger key(s[m])} :: first <= m < next ==> key(s[m]) == key(s[next - 1])
    requires forall m {:trigger key(s[m])} :: next <= m < last ==> key(s[next - 1]) < key(s[m])
    ensures Progress(s, key, lo, next, last, hi)
    ensures Split(s, key, next - 1, next, last)
  {
    forall m, n | lo <= m < n < next ensures key(s[m]) <= key(s[n]) {
    }
    forall m, n | lo <= m < next <= n < hi ensures key(s[m]) <= key(s[n]) {
      if first <= m && n < last {
        assert key(s[m]) == key(s[next - 1]) < key(s[n]);
      }
    }
  }

  /** Sorting what is left finishes the whole range. */
  lemma RestSorted<T>(s: seq<T>, t: seq<T>, key: T -> int, lo: int, first: int, last: int, hi: int)
    requires Progress(s, key, lo, first, last, hi) && Perm(s, t, first, last) && Sorted(t, key, first, last)
    ensures Sorted(t, key, lo, hi)
  {
    ProgressKept(s, t, key, lo, first, last, hi);
    AllDone(t, key, lo, first, last, hi);
  }

  /** Sorting the left side moves the loop on to the right side. */
  lemma LeftSorted<T>(s: seq<T>, t: seq<T>, key: T -> int, lo: int, first: int, i: int, last: int, hi: int)
    requires Progress(s, key, lo, first, last, hi) && PivotAt(s, key, first, i, last)
    requires Perm(s, t, first, i) && Sorted(t, key, first, i)
    ensures Progress(t, key, lo, i + 1, last, hi)
    ensures Split(t, key, i, i + 1, last)
  {
    PivotKept(s, t, key, first, i, last, first, i);
    ProgressKept(s, t, key, lo, first, last, hi);
    LeftDone(t, key, lo, first, i, last, hi);
  }

  /** `leftmost` promises nothing about the element before `first`; otherwise it is a guard for the range. */
  ghost predicate Guarded<T>(s: seq<T>, key: T -> int, leftmost: bool, first: int, last: int)
    requires 0 <= first <= last <= |s|
  {
    !leftmost ==> 0 < first && Split(s, key, first - 1, first, last)
  }

  lemma RestShuffled<T>(s: seq<T>, t: seq<T>, key: T -> int, leftmost: bool, lo: int, first: int, last: int, hi: int)
    requires Progress(s, key, lo, first, last, hi) && Perm(s, t, first, last) && Guarded(s, key, leftmost, first, last)
    ensures Progress(t, key, lo, first, last, hi) && Guarded(t, key, leftmost, first, last)
  {
    ProgressKept(s, t, key, lo, first, last, hi);
    if !leftmost {
      SplitKept(s, t, key, first - 1, first, last, first, last);
    }
  }

  // ---- the steps of the loop ----

  /** The cases that end the loop: at most five elements, fewer than `LIMIT`, or no depth left. */
  method SortDirectly<T>(a: array<T>, first: nat, last: nat, depth: nat, leftmost: bool, less: (T, T) -> bool,
                         ghost key: T -> int, ghost S: set<T>)
    returns (done: bool)
    requires first <= last <= a.Length
    requires Ready(a, less, key, S)
    requires Guarded(a[..], key, leftmost, first, last)
    modifies a
    ensures Ready(a, less, key, S)
    ensures Perm(old(a[..]), a[..], first, last)
    ensures done ==> Sorted(a[..], key, first, last)
    ensures done <==> last - first < 24 || depth == 0
    ensures !done ==> a[..] == old(a[..])
    ensures last - first < 24 ==> Stable(old(a[..]), a[..], key)
  {
    hide Alike;
    var len := last - first;
    done := SortUpToFive(a, first, last, less, key, S);
    if done {
      return;
    }
    if len < LIMIT {
      if leftmost {
        InsertionSort(a, first, last, less, key, S);
      } else {
        InsertionSortUnguarded(a, first, last, less, key, S);
      }
      return true;
    }
    if depth == 0 {
      HeapSort.HeapSort(a, first, last, less, key, S);
      return true;
    }
  }

  method Sort3In<T>(a: array<T>, x: nat, y: nat, z: nat, less: (T, T) -> bool,
                    ghost first: nat, ghost last: nat, ghost key: T -> int, ghost S: set<T>)
    requires first <= x < last && first <= y < last && first <= z < last <= a.Length && x != y && y != z && x != z
    requires Ready(a, less, key, S)
    modifies a
    ensures Ready(a, less, key, S)
    ensures key(a[x]) <= key(a[y]) <= key(a[z]) && key(a[y]) == old(MiddleAt(a[..], key, x, y, z))
    ensures Perm(old(a[..]), a[..], first, last)
    ensures forall i :: 0 <= i < a.Length && i !in {x, y, z} ==> a[i] == old(a[i])
    ensures Stable(old([a[x], a[y], a[z]]), [a[x], a[y], a[z]], key)
  {
    hide Stable;
    Sort3(a, x, y, z, less, key, S);
  }

  /** The middle rank of three places. */
  ghost function MiddleAt<T>(s: seq<T>, key: T -> int, x: nat, y: nat, z: nat): int
    requires x < |s| && y < |s| && z < |s|
  {
    Middle(key(s[x]), key(s[y]), key(s[z]))
  }

  /** Three medians of three, and their median between them. */
  method Ninther<T>(a: array<T>, first: nat, last: nat, half: nat, less: (T, T) -> bool, ghost key: T -> int,
                    ghost S: set<T>)
    requires first + NINTHER_THRESHOLD < last <= a.Length && half == (last - first) / 2
    requires Ready(a, less, key, S)
    modifies a
    ensures Ready(a, less, key, S)
    ensures Perm(old(a[..]), a[..], first, last)
    ensures key(a[first + half]) <= key(a[first + half + 1])
    ensures var s := old(a[..]);
            key(a[first + half])
            == Middle(MiddleAt(s, key, first + 1, first + half - 1, last - 2),
                      MiddleAt(s, key, first, first + half, last - 1),
                      MiddleAt(s, key, first + 2, first + half + 1, last - 3))
  {
    hide Stable, Alike, Middle;
    Sort3In(a, first, first + half, last - 1, less, first, last, key, S);
    Sort3In(a, first + 1, first + (half - 1), last - 2, less, first, last, key, S);
    Sort3In(a, first + 2, first + (half + 1), last - 3, less, first, last, key, S);
    Sort3In(a, first + (half - 1), first + half, first + (half + 1), less, first, last, key, S);
  }

  /** The median of three, or of three medians of three, goes to `first`. Some element of the rest is
      then not below it, which is all the partition's upward scan needs. */
  method ChoosePivot<T>(a: array<T>, first: nat, last: nat, less: (T, T) -> bool, ghost key: T -> int, ghost S: set<T>)
    returns (ghost guard: nat)
    requires first + LIMIT <= last <= a.Length
    requires Ready(a, less, key, S)
    modifies a
    ensures Ready(a, less, key, S)
    ensures Perm(old(a[..]), a[..], first, last)
    ensures first < guard < last && key(a[first]) <= key(a[guard])
    ensures var s, half := old(a[..]), (last - first) / 2;
            key(a[first]) ==
              if last - first <= 128 then MiddleAt(s, key, first + half, first, last - 1)
              else Middle(MiddleAt(s, key, first + 1, first + half - 1, last - 2),
                          MiddleAt(s, key, first, first + half, last - 1),
                          MiddleAt(s, key, first + 2, first + half + 1, last - 3))
  {
    hide Stable, Alike, Middle;
    var len := last - first;
    var half := len / 2;
    if len > NINTHER_THRESHOLD {
      Ninther(a, first, last, half, less, key, S);
      Swap(a, first, first + half, S);
      guard := first + half + 1;
    } else {
      Sort3In(a, first + half, first, last - 1, less, first, last, key, S);
      guard := last - 1;
    }
  }

  /** The run of elements equal to the one before the range is passed over. */
  method SkipEquals<T>(a: array<T>, first: nat, last: nat, less: (T, T) -> bool,
                       ghost lo: nat, ghost hi: nat, ghost key: T -> int, ghost S: set<T>)
    returns (next: nat)
    requires Ready(a, less, key, S) && hi <= a.Length
    requires first < last && Progress(a[..], key, lo, first, last, hi)
    requires 0 < first && Split(a[..], key, first - 1, first, last) && key(a[first]) <= key(a[first - 1])
    modifies a
    ensures Ready(a, less, key, S)
    ensures Perm(old(a[..]), a[..], first, last)
    ensures first < next <= last && Progress(a[..], key, lo, next, last, hi)
    ensures Split(a[..], key, next - 1, next, last)
    ensures MirroredAround(old(a[..]), a[..], key, key(old(a[first])) + 1, first, next - 1, last)
  {
    hide MirroredAround;
    ghost var was := a[..];
    ghost var least := key(a[first]);
    assert forall m {:trigger key(was[m])} :: first <= m < last ==> least <= key(was[m]) by {
      assert key(was[first - 1]) >= least;
    }
    next := PartitionWithEqualsOnLeft(a, first, last, less, key, S);
    ghost var now := a[..];
    forall m | first <= m < last ensures least <= key(now[m]) {
      var j := Origin(was, now, first, last, m);
    }
    ProgressKept(was, now, key, lo, first, last, hi);
    assert forall m {:trigger key(now[m])} :: first <= m < next ==> a[m] == now[m] && key(now[m]) == key(now[next - 1]);
    assert forall m {:trigger key(now[m])} :: next <= m < last ==> a[m] == now[m] && key(now[next - 1]) < key(now[m]);
    EqualsDone(now, key, lo, first, next, last, hi);
  }

  lemma ProgressBounds<T>(s: seq<T>, key: T -> int, lo: int, first: int, last: int, hi: int)
    requires Progress(s, key, lo, first, last, hi)
    ensures 0 <= lo <= first <= last <= hi <= |s|
  {
  }

  lemma SortedAside<T>(s: seq<T>, t: seq<T>, key: T -> int, lo: nat, hi: nat, from: nat, to: nat)
    requires lo <= hi <= from && hi <= |s| && Sorted(s, key, lo, hi) && Perm(s, t, from, to)
    ensures Sorted(t, key, lo, hi)
  {
  }

  /** The right partition and, when nothing had to be exchanged, the two bounded insertion sorts. */
  method Divide<T>(a: array<T>, first: nat, last: nat, less: (T, T) -> bool,
                   ghost guard: nat, ghost lo: nat, ghost hi: nat, ghost key: T -> int, ghost S: set<T>)
    returns (i: nat, leftSorted: bool, rightSorted: bool, ghost mid: seq<T>)
    requires Ready(a, less, key, S) && hi <= a.Length
    requires Progress(a[..], key, lo, first, last, hi)
    requires first < guard < last && key(a[first]) <= key(a[guard])
    modifies a
    ensures Ready(a, less, key, S)
    ensures Perm(old(a[..]), a[..], first, last)
    ensures Progress(a[..], key, lo, first, last, hi) && PivotAt(a[..], key, first, i, last)
    ensures leftSorted ==> Sorted(a[..], key, first, i)
    ensures rightSorted ==> Sorted(a[..], key, i + 1, last)
    ensures MirroredAround(old(a[..]), mid, key, key(old(a[first])), first, i, last) && Stable(mid, a[..], key)
    ensures if Divided(old(a[..]), key, key(old(a[first])), first, last)
            then (leftSorted <==> |Late(mid, key, first, i - 1)| < 8)
                 && (rightSorted <==> |Late(mid, key, i + 1, last - 1)| < 8)
            else a[..] == mid && !leftSorted && !rightSorted
  {
    hide Progress, Divided, Late, IsLate, MirroredAround, Stable, Sorted;
    ProgressBounds(a[..], key, lo, first, last, hi);
    ghost var s0 := a[..];
    var alreadyPartitioned;
    i, alreadyPartitioned := PartitionWithEqualsOnRight(a, first, last, less, guard, key, S);
    leftSorted, rightSorted := false, false;
    ghost var s1 := a[..];
    mid := s1;
    Unmoved(s1, key);
    assert PivotAt(s1, key, first, i, last) by {
      assert forall m {:trigger key(s1[m])} :: 0 <= m < |s1| ==> s1[m] == a[m];
    }
    ProgressKept(s0, s1, key, lo, first, last, hi);
    if alreadyPartitioned {
      leftSorted := InsertionSortIncomplete(a, first, i, less, key, S);
      ghost var s2 := a[..];
      PivotKept(s1, s2, key, first, i, last, first, i);
      LateSame(s1, s2, key, i + 1, last - 1);
      rightSorted := InsertionSortIncomplete(a, i + 1, last, less, key, S);
      StableTwice(s1, s2, a[..], key);
      if leftSorted {
        SortedAside(s2, a[..], key, first, i, i + 1, last);
      }
      PivotKept(s2, a[..], key, first, i, last, i + 1, last);
      ProgressKept(s1, a[..], key, lo, first, last, hi);
    }
  }

  /** How a pass over `[first, last)` ends: sorted, shrunk to a smaller range, or split at `i`. */
  datatype Outcome = Done | Shrunk(first: nat, last: nat) | Split2(i: nat)

  ghost predicate Reached<T>(o: Outcome, s: seq<T>, key: T -> int, lo: int, first: int, last: int, hi: int,
      leftmost: bool) {
    match o
    case Done => 0 <= lo <= hi <= |s| && Sorted(s, key, lo, hi)
    case Shrunk(f, l) =>
      && first <= f <= l <= last && Progress(s, key, lo, f, l, hi)
      && Guarded(s, key, leftmost, f, l)
    case Split2(i) =>
      && Progress(s, key, lo, first, last, hi) && PivotAt(s, key, first, i, last)
      && Guarded(s, key, leftmost, first, last)
  }

  /** After the pivot is chosen: the rest of one round of the loop. */
  method Pass<T>(a: array<T>, first: nat, last: nat, leftmost: bool, less: (T, T) -> bool,
                 ghost guard: nat, ghost lo: nat, ghost hi: nat, ghost key: T -> int, ghost S: set<T>)
    returns (o: Outcome)
    requires Ready(a, less, key, S) && hi <= a.Length
    requires Progress(a[..], key, lo, first, last, hi)
    requires first < guard < last && key(a[first]) <= key(a[guard])
    requires Guarded(a[..], key, leftmost, first, last)
    modifies a
    ensures Ready(a, less, key, S)
    ensures Perm(old(a[..]), a[..], first, last)
    ensures Reached(o, a[..], key, lo, first, last, hi, leftmost)
  {
    if !leftmost && !less(a[first - 1], a[first]) {
      var next := SkipEquals(a, first, last, less, lo, hi, key, S);
      return Shrunk(next, last);
    }
    ghost var s := a[..];
    ghost var mid;
    var i, leftSorted, rightSorted;
    i, leftSorted, rightSorted, mid := Divide(a, first, last, less, guard, lo, hi, key, S);
    RestShuffled(s, a[..], key, leftmost, lo, first, last, hi);
    if rightSorted {
      if leftSorted {
        LeftDone(a[..], key, lo, first, i, last, hi);
        AllDone(a[..], key, lo, i + 1, last, hi);
        return Done;
      }
      RightDone(a[..], key, lo, first, i, last, hi);
      return Shrunk(first, i);
    } else if leftSorted {
      LeftDone(a[..], key, lo, first, i, last, hi);
      return Shrunk(i + 1, last);
    }
    return Split2(i);
  }

  /** One round of the loop, up to the recursive call. */
  method Round<T>(a: array<T>, first: nat, last: nat, depth: nat, leftmost: bool, less: (T, T) -> bool,
                  ghost lo: nat, ghost hi: nat, ghost key: T -> int, ghost S: set<T>)
    returns (o: Outcome)
    requires Ready(a, less, key, S) && hi <= a.Length
    requires Progress(a[..], key, lo, first, last, hi)
    requires Guarded(a[..], key, leftmost, first, last)
    modifies a
    ensures Ready(a, less, key, S)
    ensures Perm(old(a[..]), a[..], first, last)
    ensures Reached(o, a[..], key, lo, first, last, hi, leftmost)
    ensures !o.Done? ==> depth > 0 && last - first >= 24
    ensures last - first < 24 ==> Stable(old(a[..]), a[..], key)
  {
    hide Stable, Alike;
    ghost var s := a[..];
    var done := SortDirectly(a, first, last, depth, leftmost, less, key, S);
    if done {
      RestSorted(s, a[..], key, lo, first, last, hi);
      return Done;
    }
    ghost var guard := ChoosePivot(a, first, last, less, key, S);
    RestShuffled(s, a[..], key, leftmost, lo, first, last, hi);
    o := Pass(a, first, last, leftmost, less, guard, lo, hi, key, S);
  }

  /** Sorts `[lo, hi)`. `nesting` counts the calls within calls; the depth budget bounds it. */
  method Introsort<T>(a: array<T>, lo: nat, hi: nat, less: (T, T) -> bool, depth0: nat, leftmost0: bool,
                      ghost key: T -> int, ghost S: set<T>)
    returns (ghost nesting: nat)
    requires lo <= hi <= a.Length
    requires Ready(a, less, key, S)
    requires Guarded(a[..], key, leftmost0, lo, hi)
    modifies a
    ensures Ready(a, less, key, S)
    ensures Sorted(a[..], key, lo, hi)
    ensures Perm(old(a[..]), a[..], lo, hi)
    ensures nesting <= depth0
    ensures hi - lo < 24 ==> Stable(old(a[..]), a[..], key)
    decreases depth0, 0
  {
    hide Stable, Alike;
    var first, last, depth, leftmost := lo, hi, depth0, leftmost0;
    nesting := 0;
    while true
      invariant nesting <= depth0 && 0 <= depth <= depth0
      invariant hi - lo < 24 ==> first == lo && last == hi && a[..] == old(a[..])
      invariant Ready(a, less, key, S)
      invariant Progress(a[..], key, lo, first, last, hi)
      invariant Perm(old(a[..]), a[..], lo, hi)
      invariant Guarded(a[..], key, leftmost, first, last)
      decreases depth
    {
      var o := Round(a, first, last, depth, leftmost, less, lo, hi, key, S);
      if o.Done? {
        return;
      }
      depth := depth - 1;
      match o
      case Shrunk(f, l) => first, last := f, l;
      case Split2(i) =>
        ghost var inner := SortLeft(a, first, i, less, depth, leftmost, lo, last, hi, key, S);
        nesting := if nesting < inner + 1 then inner + 1 else nesting;
        leftmost := false;
        first := i + 1;
    }
  }

  /** The recursive call, and where it leaves the loop. */
  method SortLeft<T>(a: array<T>, first: nat, i: nat, less: (T, T) -> bool, depth: nat, leftmost: bool,
                     ghost lo: nat, ghost last: nat, ghost hi: nat, ghost key: T -> int, ghost S: set<T>)
    returns (ghost inner: nat)
    requires Ready(a, less, key, S) && hi <= a.Length
    requires Progress(a[..], key, lo, first, last, hi) && PivotAt(a[..], key, first, i, last)
    requires Guarded(a[..], key, leftmost, first, last)
    modifies a
    ensures Ready(a, less, key, S)
    ensures Perm(old(a[..]), a[..], first, last)
    ensures Progress(a[..], key, lo, i + 1, last, hi)
    ensures Guarded(a[..], key, false, i + 1, last)
    ensures inner <= depth
    decreases depth, 1
  {
    ghost var s := a[..];
    inner := Introsort(a, first, i, less, depth, leftmost, key, S);
    LeftSorted(s, a[..], key, lo, first, i, last, hi);
  }

  /** The position of the highest bit of `n`: `__bit_log2`. */
  function BitLog2(n: nat): (r: nat)
    requires n > 0
    decreases n
  {
    if n == 1 then 0 else 1 + BitLog2(n / 2)
  }

  lemma {:induction false} BitLog2Bounds(n: nat)
    requires n > 0
    ensures Pow2(BitLog2(n)) <= n < Pow2(BitLog2(n) + 1)
  {
    if n > 1 {
      BitLog2Bounds(n / 2);
    }
  }

  /** No element is less than one before it. */
  ghost predicate NotLess<T>(s: seq<T>, less: (T, T) -> bool) {
    forall i, j {:trigger less(s[j], s[i])} :: 0 <= i < j < |s| ==> !less(s[j], s[i])
  }

  /** `sort_by`: for every strict weak order on the elements, a sorted rearrangement, with calls nested
      at most twice the logarithm of the length. Fewer than 24 elements keep the order of equals. */
  method SortBy<T(==)>(a: array<T>, less: (T, T) -> bool) returns (ghost nesting: nat)
    requires StrictWeakOrder(less, set x | x in a[..])
    modifies a
    ensures multiset(a[..]) == multiset(old(a[..]))
    ensures NotLess(a[..], less)
    ensures a.Length > 0 ==> nesting <= 2 * BitLog2(a.Length)
    ensures a.Length < 24 ==> forall x :: x in a[..] ==> Equals(a[..], less, x) == Equals(old(a[..]), less, x)
  {
    hide Stable, Alike, Equals;
    var len := a.Length;
    nesting := 0;
    if len == 0 {
      return;
    }
    var depth := 2 * BitLog2(len);
    ghost var S := set x | x in a[..];
    ghost var key := x => Rank(less, S, x);
    RankRanks(less, S);
    nesting := Introsort(a, 0, len, less, depth, true, key, S);
    SortedMeansNotLess(a[..], less, key, S);
    if len < 24 {
      forall x | x in a[..] ensures Equals(a[..], less, x) == Equals(old(a[..]), less, x) {
        StableEquals(old(a[..]), a[..], less, key, S, x);
      }
    }
  }

  lemma SortedMeansNotLess<T>(s: seq<T>, less: (T, T) -> bool, key: T -> int, S: set<T>)
    requires Ranks(less, key, S) && Within(s, S) && Sorted(s, key, 0, |s|)
    ensures NotLess(s, less)
  {
    forall i, j | 0 <= i < j < |s| ensures !less(s[j], s[i]) {
      assert key(s[i]) <= key(s[j]);
    }
  }
}
