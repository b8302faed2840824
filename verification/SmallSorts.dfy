/** `sort3`, `sort4`, `sort5` and the three insertion sorts. */
module SmallSorts {
  import opened SortOrder
  import opened Stability

  /** The comparator ranks everything in the array. */
  ghost predicate Ready<T>(a: array<T>, less: (T, T) -> bool, key: T -> int, S: set<T>)
    reads a
  {
    Ranks(less, key, S) && Within(a[..], S)
  }

  /** Only the listed places of `a` may differ from `was`, and it holds the same elements. */
  ghost predicate Rearranged<T>(was: seq<T>, a: array<T>, places: set<int>)
    reads a
  {
    && |was| == a.Length
    && multiset(was) == multiset(a[..])
    && forall i :: 0 <= i < a.Length && i !in places ==> a[i] == was[i]
  }

  method Swap<T>(a: array<T>, i: nat, j: nat, ghost S: set<T>)
    requires i < a.Length && j < a.Length && Within(a[..], S)
    modifies a
    ensures Within(a[..], S)
    ensures a[i] == old(a[j]) && a[j] == old(a[i])
    ensures Rearranged(old(a[..]), a, {i, j})
  {
    ghost var was := a[..];
    a[i], a[j] := a[j], a[i];
    assert a[..] == was[i := was[j]][j := was[i]];
  }

  /** The middle one of three ranks. */
  ghost function Middle(x: int, y: int, z: int): int {
    if x <= y then (if y <= z then y else if x <= z then z else x)
    else if x <= z then x
    else if y <= z then z
    else y
  }

  method Sort3<T>(a: array<T>, x: nat, y: nat, z: nat, less: (T, T) -> bool, ghost key: T -> int, ghost S: set<T>)
    requires x < a.Length && y < a.Length && z < a.Length && x != y && y != z && x != z
    requires Ready(a, less, key, S)
    modifies a
    ensures Ready(a, less, key, S)
    ensures key(a[x]) <= key(a[y]) <= key(a[z])
    ensures Rearranged(old(a[..]), a, {x, y, z})
    ensures key(a[y]) == old(Middle(key(a[x]), key(a[y]), key(a[z])))
    ensures Stable(old([a[x], a[y], a[z]]), [a[x], a[y], a[z]], key)
  {
    hide Alike;
    ghost var u, v, w := a[x], a[y], a[z];
    if !less(a[y], a[x]) {
      if !less(a[z], a[y]) {
        return;
      }
      Swap(a, y, z, S);
      NeighboursExchanged([u, v, w], [u, w, v], 1, key);
      if less(a[y], a[x]) {
        Swap(a, x, y, S);
        NeighboursExchanged([u, w, v], [w, u, v], 0, key);
      }
      return;
    }
    if less(a[z], a[y]) {
      Swap(a, x, z, S);
      Reversed(u, v, w, key);
      return;
    }
    Swap(a, x, y, S);
    NeighboursExchanged([u, v, w], [v, u, w], 0, key);
    if less(a[z], a[y]) {
      Swap(a, y, z, S);
      NeighboursExchanged([v, u, w], [v, w, u], 1, key);
    }
  }

  /** How `sort4` and `sort5` end: the element at `x3` sinks below the two in order before it. */
  method Sink<T>(a: array<T>, x1: nat, x2: nat, x3: nat, less: (T, T) -> bool, ghost key: T -> int, ghost S: set<T>)
    requires x1 < x2 < x3 < a.Length && key(a[x1]) <= key(a[x2])
    requires Ready(a, less, key, S)
    modifies a
    ensures Ready(a, less, key, S)
    ensures key(a[x1]) <= key(a[x2]) <= key(a[x3]) && a[x3] in old([a[x2], a[x3]])
    ensures Rearranged(old(a[..]), a, {x1, x2, x3})
    ensures Stable(old([a[x1], a[x2], a[x3]]), [a[x1], a[x2], a[x3]], key)
  {
    hide Alike, Stable;
    ghost var t, u, v := a[x1], a[x2], a[x3];
    ghost var all := [t, u, v];
    Unmoved(all, key);
    if less(a[x3], a[x2]) {
      Swap(a, x2, x3, S);
      ThenExchanged(all, [t, u, v], [t, v, u], 1, key);
      if less(a[x2], a[x1]) {
        Swap(a, x1, x2, S);
        ThenExchanged(all, [t, v, u], [v, t, u], 0, key);
      }
    }
  }

  method Sort4<T>(a: array<T>, x1: nat, x2: nat, x3: nat, x4: nat, less: (T, T) -> bool, ghost key: T -> int,
      ghost S: set<T>)
    requires x1 < x2 < x3 < x4 < a.Length
    requires Ready(a, less, key, S)
    modifies a
    ensures Ready(a, less, key, S)
    ensures key(a[x1]) <= key(a[x2]) <= key(a[x3]) <= key(a[x4])
    ensures Rearranged(old(a[..]), a, {x1, x2, x3, x4})
    ensures Stable(old([a[x1], a[x2], a[x3], a[x4]]), [a[x1], a[x2], a[x3], a[x4]], key)
  {
    hide Alike, Stable;
    ghost var was, all := [a[x1], a[x2], a[x3]], [a[x1], a[x2], a[x3], a[x4]];
    Sort3(a, x1, x2, x3, less, key, S);
    ghost var t, u, v, w := a[x1], a[x2], a[x3], a[x4];
    StableThen(was, [t, u, v], [w], all, [t, u, v, w], key);
    if less(a[x4], a[x3]) {
      Swap(a, x3, x4, S);
      ThenExchanged(all, [t, u, v, w], [t, u, w, v], 2, key);
      Sink(a, x1, x2, x3, less, key, S);
      ThenWithin(all, [t, u, w], [a[x1], a[x2], a[x3]], [v], [t, u, w, v], [a[x1], a[x2], a[x3], a[x4]], key);
    }
  }

  method Sort5<T>(a: array<T>, x1: nat, x2: nat, x3: nat, x4: nat, x5: nat, less: (T, T) -> bool, ghost key: T -> int,
      ghost S: set<T>)
    requires x1 < x2 < x3 < x4 < x5 < a.Length
    requires Ready(a, less, key, S)
    modifies a
    ensures Ready(a, less, key, S)
    ensures key(a[x1]) <= key(a[x2]) <= key(a[x3]) <= key(a[x4]) <= key(a[x5])
    ensures Rearranged(old(a[..]), a, {x1, x2, x3, x4, x5})
    ensures Stable(old([a[x1], a[x2], a[x3], a[x4], a[x5]]), [a[x1], a[x2], a[x3], a[x4], a[x5]], key)
  {
    hide Alike, Stable;
    ghost var was, all := [a[x1], a[x2], a[x3], a[x4]], [a[x1], a[x2], a[x3], a[x4], a[x5]];
    Sort4(a, x1, x2, x3, x4, less, key, S);
    ghost var s, t, u, v, w := a[x1], a[x2], a[x3], a[x4], a[x5];
    StableThen(was, [s, t, u, v], [w], all, [s, t, u, v, w], key);
    if less(a[x5], a[x4]) {
      Swap(a, x4, x5, S);
      ThenExchanged(all, [s, t, u, v, w], [s, t, u, w, v], 3, key);
      if less(a[x4], a[x3]) {
        Swap(a, x3, x4, S);
        ThenExchanged(all, [s, t, u, w, v], [s, t, w, u, v], 2, key);
        Sink(a, x1, x2, x3, less, key, S);
        ghost var now := [a[x1], a[x2], a[x3], a[x4], a[x5]];
        ThenWithin(all, [s, t, w], [a[x1], a[x2], a[x3]], [u, v], [s, t, w, u, v], now, key);
      }
    }
  }

  /** `s` is `was` on the way to having its element `i` inserted at `j`: the elements between are
      shifted up by one and place `j` is free. */
  ghost predicate Hole<T>(was: seq<T>, s: seq<T>, j: int, i: int)
    requires 0 <= j <= i < |was| == |s|
  {
    && (forall m :: 0 <= m < j ==> s[m] == was[m])
    && (forall m :: j < m <= i ==> s[m] == was[m - 1])
    && (forall m :: i < m < |s| ==> s[m] == was[m])
  }

  lemma Exchange<T>(low: seq<T>, u: seq<T>, v: seq<T>, high: seq<T>)
    ensures multiset(low + u + v + high) == multiset(low + v + u + high)
  {
    calc {
      multiset(low + u + v + high);
      multiset(low) + multiset(u) + multiset(v) + multiset(high);
      multiset(low + v + u + high);
    }
  }

  /** Moving one element down past the ones before it loses and duplicates nothing. */
  lemma Rotated<T>(was: seq<T>, now: seq<T>, j: int, i: int)
    requires 0 <= j <= i < |was| == |now| && Hole(was, now, j, i) && now[j] == was[i]
    ensures multiset(now) == multiset(was)
  {
    var low, mid, high := was[..j], was[j..i], was[i + 1..];
    Exchange(low, mid, [was[i]], high);
    assert was == low + mid + [was[i]] + high;
    assert now == low + [was[i]] + mid + high;
  }

  /** Nor does it change the order of equals when they all rank above it. */
  lemma RotatedStable<T>(was: seq<T>, now: seq<T>, j: int, i: int, key: T -> int)
    requires 0 <= j <= i < |was| == |now| && Hole(was, now, j, i) && now[j] == was[i]
    requires forall m {:trigger key(was[m])} :: j <= m < i ==> key(was[i]) < key(was[m])
    ensures Stable(was, now, key)
  {
    var low, mid, high := was[..j], was[j..i], was[i + 1..];
    MovedDown(low, mid, was[i], high, key);
    assert was == low + mid + [was[i]] + high;
    assert now == low + [was[i]] + mid + high;
  }

  lemma HoleFilled<T>(was: seq<T>, s: seq<T>, key: T -> int, S: set<T>, first: int, j: int, i: int, now: seq<T>)
    requires 0 <= first <= j < i < |was| == |s| && Hole(was, s, j, i)
    requires Sorted(was, key, first, i) && Within(was, S)
    requires key(was[i]) < key(was[j])
    requires j == first || key(was[j - 1]) <= key(was[i])
    requires now == s[j := was[i]]
    ensures Sorted(now, key, first, i + 1)
    ensures Perm(was, now, first, i + 1)
    ensures Within(now, S) && Stable(was, now, key)
  {
    Rotated(was, now, j, i);
    RotatedStable(was, now, j, i, key);
    WithinKept(was, now, S, first, i + 1);
  }

  /** One step of an inner loop: the free place moves down from `j` to `k`. */
  method ShiftUp<T>(a: array<T>, j: nat, k: nat, ghost was: seq<T>, ghost i: nat)
    requires k == j - 1 < i < a.Length == |was| && Hole(was, a[..], j, i)
    modifies a
    ensures Hole(was, a[..], k, i)
    ensures k > 0 ==> a[k - 1] == was[k - 1]
  {
    a[j] := a[k];
  }

  /** The end of an inner loop: the element taken from `i` goes into the free place. */
  method Fill<T>(a: array<T>, j: nat, t: T, ghost was: seq<T>, ghost i: nat, ghost first: nat, ghost key: T -> int,
      ghost S: set<T>)
    requires first <= j < i < a.Length == |was| && Hole(was, a[..], j, i) && t == was[i]
    requires Sorted(was, key, first, i) && Within(was, S)
    requires key(t) < key(was[j])
    requires j == first || key(was[j - 1]) <= key(t)
    modifies a
    ensures Within(a[..], S)
    ensures Sorted(a[..], key, first, i + 1)
    ensures Perm(was, a[..], first, i + 1) && Stable(was, a[..], key)
  {
    ghost var s := a[..];
    a[j] := t;
    HoleFilled(was, s, key, S, first, j, i, a[..]);
  }

  /** The inner loop of the guarded insertion sorts: stops at `first`. */
  method Insert<T>(a: array<T>, first: nat, i: nat, less: (T, T) -> bool, ghost key: T -> int, ghost S: set<T>)
    requires first < i < a.Length
    requires Ready(a, less, key, S)
    requires Sorted(a[..], key, first, i)
    requires less(a[i], a[i - 1])
    modifies a
    ensures Ready(a, less, key, S)
    ensures Sorted(a[..], key, first, i + 1)
    ensures Perm(old(a[..]), a[..], first, i + 1) && Stable(old(a[..]), a[..], key)
  {
    hide Alike;
    ghost var was := a[..];
    var t := a[i];
    var k: nat := i - 1;
    var j := i;
    while true
      invariant first <= k == j - 1 < i
      invariant Hole(was, a[..], j, i)
      invariant key(t) < key(was[k])
      decreases k
    {
      ShiftUp(a, j, k, was, i);
      j := k;
      if j == first {
        break;
      }
      k := k - 1;
      if !less(t, a[k]) {
        break;
      }
      assert key(t) < key(was[k]);
    }
    Fill(a, j, t, was, i, first, key, S);
  }

  /** The inner loop of the unguarded insertion sort: nothing but the element before `first` stops it. */
  method InsertUnguarded<T>(a: array<T>, first: nat, i: nat, less: (T, T) -> bool, ghost key: T -> int, ghost S: set<T>)
    requires 0 < first < i < a.Length
    requires Ready(a, less, key, S)
    requires Sorted(a[..], key, first, i)
    requires less(a[i], a[i - 1])
    requires key(a[first - 1]) <= key(a[i])
    modifies a
    ensures Ready(a, less, key, S)
    ensures Sorted(a[..], key, first, i + 1)
    ensures Perm(old(a[..]), a[..], first, i + 1) && Stable(old(a[..]), a[..], key)
  {
    hide Alike;
    ghost var was := a[..];
    var t := a[i];
    var k: nat := i - 1;
    var j := i;
    while true
      invariant first <= k == j - 1 < i
      invariant Hole(was, a[..], j, i)
      invariant key(t) < key(was[k])
      decreases k
    {
      ShiftUp(a, j, k, was, i);
      j := k;
      k := k - 1;
      if !less(t, a[k]) {
        break;
      }
    }
    Fill(a, j, t, was, i, first, key, S);
  }

  method InsertionSort<T>(a: array<T>, first: nat, last: nat, less: (T, T) -> bool, ghost key: T -> int,
      ghost S: set<T>)
    requires first <= last <= a.Length
    requires Ready(a, less, key, S)
    modifies a
    ensures Ready(a, less, key, S)
    ensures Sorted(a[..], key, first, last)
    ensures Perm(old(a[..]), a[..], first, last) && Stable(old(a[..]), a[..], key)
  {
    hide Alike;
    if first == last {
      return;
    }
    var i := first + 1;
    while i != last
      invariant first < i <= last
      invariant Ready(a, less, key, S)
      invariant Sorted(a[..], key, first, i)
      invariant Perm(old(a[..]), a[..], first, last) && Stable(old(a[..]), a[..], key)
      decreases last - i
    {
      if less(a[i], a[i - 1]) {
        Insert(a, first, i, less, key, S);
      }
      i := i + 1;
    }
  }

  /** Safe without a bounds test because the element before `first` is not above anything in the range. */
  method InsertionSortUnguarded<T>(a: array<T>, first: nat, last: nat, less: (T, T) -> bool, ghost key: T -> int,
      ghost S: set<T>)
    requires first <= last <= a.Length
    requires first < last ==> 0 < first && Split(a[..], key, first - 1, first, last)
    requires Ready(a, less, key, S)
    modifies a
    ensures Ready(a, less, key, S)
    ensures Sorted(a[..], key, first, last)
    ensures Perm(old(a[..]), a[..], first, last) && Stable(old(a[..]), a[..], key)
  {
    hide Alike;
    if first == last {
      return;
    }
    var i := first + 1;
    while i != last
      invariant first < i <= last
      invariant Ready(a, less, key, S)
      invariant Sorted(a[..], key, first, i)
      invariant Split(a[..], key, first - 1, first, last)
      invariant Perm(old(a[..]), a[..], first, last) && Stable(old(a[..]), a[..], key)
      decreases last - i
    {
      if less(a[i], a[i - 1]) {
        ghost var before := a[..];
        InsertUnguarded(a, first, i, less, key, S);
        SplitKept(before, a[..], key, first - 1, first, last, first, i + 1);
      }
      i := i + 1;
    }
  }

  lemma FewSorted<T>(s: seq<T>, key: T -> int, first: nat, last: nat)
    requires first <= last <= |s| && last - first <= 2
    requires last - first == 2 ==> key(s[first]) <= key(s[last - 1])
    ensures Sorted(s, key, first, last)
  {
  }

  lemma ThreeDone<T>(s: seq<T>, t: seq<T>, key: T -> int, first: nat)
    requires first + 3 <= |s| && Perm(s, t, first, first + 3)
    requires key(t[first]) <= key(t[first + 1]) <= key(t[first + 2])
    requires Stable([s[first], s[first + 1], s[first + 2]], [t[first], t[first + 1], t[first + 2]], key)
    ensures Sorted(t, key, first, first + 3) && Stable(s, t, key)
  {
    hide Alike, Stable;
    assert s[first..first + 3] == [s[first], s[first + 1], s[first + 2]];
    assert t[first..first + 3] == [t[first], t[first + 1], t[first + 2]];
    StableRange(s, t, key, first, first + 3);
  }

  lemma FourDone<T>(s: seq<T>, t: seq<T>, key: T -> int, first: nat)
    requires first + 4 <= |s| && Perm(s, t, first, first + 4)
    requires key(t[first]) <= key(t[first + 1]) <= key(t[first + 2]) <= key(t[first + 3])
    requires Stable([s[first], s[first + 1], s[first + 2], s[first + 3]],
                    [t[first], t[first + 1], t[first + 2], t[first + 3]], key)
    ensures Sorted(t, key, first, first + 4) && Stable(s, t, key)
  {
    hide Alike, Stable;
    assert s[first..first + 4] == [s[first], s[first + 1], s[first + 2], s[first + 3]];
    assert t[first..first + 4] == [t[first], t[first + 1], t[first + 2], t[first + 3]];
    StableRange(s, t, key, first, first + 4);
  }

  lemma FiveDone<T>(s: seq<T>, t: seq<T>, key: T -> int, first: nat)
    requires first + 5 <= |s| && Perm(s, t, first, first + 5)
    requires key(t[first]) <= key(t[first + 1]) <= key(t[first + 2]) <= key(t[first + 3]) <= key(t[first + 4])
    requires Stable([s[first], s[first + 1], s[first + 2], s[first + 3], s[first + 4]],
                    [t[first], t[first + 1], t[first + 2], t[first + 3], t[first + 4]], key)
    ensures Sorted(t, key, first, first + 5) && Stable(s, t, key)
  {
    hide Alike, Stable;
    assert s[first..first + 5] == [s[first], s[first + 1], s[first + 2], s[first + 3], s[first + 4]];
    assert t[first..first + 5] == [t[first], t[first + 1], t[first + 2], t[first + 3], t[first + 4]];
    StableRange(s, t, key, first, first + 5);
  }

  /** The cases of at most five elements, which `introsort` and `insertion_sort_incomplete` share. */
  method SortUpToFive<T>(a: array<T>, first: nat, last: nat, less: (T, T) -> bool, ghost key: T -> int, ghost S: set<T>)
    returns (done: bool)
    requires first <= last <= a.Length
    requires Ready(a, less, key, S)
    modifies a
    ensures Ready(a, less, key, S)
    ensures done <==> last - first <= 5
    ensures done ==> Sorted(a[..], key, first, last)
    ensures !done ==> a[..] == old(a[..])
    ensures Perm(old(a[..]), a[..], first, last) && Stable(old(a[..]), a[..], key)
  {
    hide Alike, Stable, Sorted;
    ghost var was := a[..];
    Unmoved(was, key);
    match last - first
    case 0 =>
      FewSorted(was, key, first, last);
      return true;
    case 1 =>
      FewSorted(was, key, first, last);
      return true;
    case 2 =>
      if less(a[last - 1], a[first]) {
        Swap(a, first, last - 1, S);
        assert a[..] == was[first := was[first + 1]][first + 1 := was[first]];
        NeighboursExchanged(was, a[..], first, key);
      }
      FewSorted(a[..], key, first, last);
      return true;
    case 3 =>
      Sort3(a, first, first + 1, last - 1, less, key, S);
      ThreeDone(was, a[..], key, first);
      return true;
    case 4 =>
      Sort4(a, first, first + 1, first + 2, last - 1, less, key, S);
      FourDone(was, a[..], key, first);
      return true;
    case 5 =>
      Sort5(a, first, first + 1, first + 2, first + 3, last - 1, less, key, S);
      FiveDone(was, a[..], key, first);
      return true;
    case _ => return false;
  }

  const INCOMPLETE_LIMIT := 8

  /** The places in `[first + 3, last)` whose element ranks below an earlier one of the range: those an insertion is
      made for. */
  ghost function Late<T>(s: seq<T>, key: T -> int, first: nat, last: int): set<int>
    requires last <= |s|
  {
    set i | first + 3 <= i < last && IsLate(s, key, first, i)
  }

  ghost predicate IsLate<T>(s: seq<T>, key: T -> int, first: nat, i: nat)
    requires i < |s|
  {
    exists j {:trigger s[j]} :: first <= j < i && key(s[i]) < key(s[j])
  }

  lemma LateNext<T>(s: seq<T>, key: T -> int, first: nat, i: nat)
    requires first + 3 <= i < |s|
    ensures |Late(s, key, first, i + 1)| == |Late(s, key, first, i)| + (if IsLate(s, key, first, i) then 1 else 0)
  {
    hide IsLate;
    var less, more := Late(s, key, first, i), Late(s, key, first, i + 1);
    assert i !in less;
    assert more == if IsLate(s, key, first, i) then less + {i} else less;
  }

  lemma LateSame<T>(s: seq<T>, t: seq<T>, key: T -> int, first: nat, last: int)
    requires last <= |s| == |t| && forall i :: first <= i < |s| ==> s[i] == t[i]
    ensures Late(s, key, first, last) == Late(t, key, first, last)
  {
    forall i: nat | first <= i < |s| ensures IsLate(s, key, first, i) == IsLate(t, key, first, i) {
    }
    hide IsLate;
  }

  lemma LateMonotone<T>(s: seq<T>, key: T -> int, first: nat, i: int, j: int)
    requires i <= j <= |s|
    ensures |Late(s, key, first, i)| <= |Late(s, key, first, j)|
    ensures j <= first + 4 ==> |Late(s, key, first, j)| <= 1
  {
    hide IsLate;
    SubsetSize(Late(s, key, first, i), Late(s, key, first, j));
    if j <= first + 4 {
      SubsetSize(Late(s, key, first, j), {first + 3});
    }
  }

  /** With the elements before it in order, an element is late exactly when it ranks below the last of them. */
  lemma LateIsBelow<T>(was: seq<T>, now: seq<T>, key: T -> int, first: nat, i: nat)
    requires first < i < |was| && Perm(was, now, first, i) && Sorted(now, key, first, i)
    ensures now[i] == was[i] && (IsLate(was, key, first, i) <==> key(now[i]) < key(now[i - 1]))
  {
    var m := Origin(was, now, first, i, i - 1);
    assert key(now[i]) < key(now[i - 1]) ==> key(was[i]) < key(was[m]);
    forall j | first <= j < i ensures key(was[j]) <= key(now[i - 1]) {
      var k := Origin(now, was, first, i, j);
      assert k < i - 1 ==> key(now[k]) <= key(now[i - 1]);
    }
  }

  /** One turn of the loop below. */
  method InsertIfBelow<T>(a: array<T>, first: nat, i: nat, less: (T, T) -> bool, ghost was: seq<T>, ghost key: T -> int,
      ghost S: set<T>)
    returns (inserted: bool)
    requires first < i < a.Length
    requires Ready(a, less, key, S)
    requires Sorted(a[..], key, first, i) && Perm(was, a[..], first, i) && Stable(was, a[..], key)
    modifies a
    ensures Ready(a, less, key, S)
    ensures Sorted(a[..], key, first, i + 1) && Perm(was, a[..], first, i + 1) && Stable(was, a[..], key)
    ensures inserted <==> IsLate(was, key, first, i)
  {
    hide IsLate, Alike;
    LateIsBelow(was, a[..], key, first, i);
    inserted := less(a[i], a[i - 1]);
    if inserted {
      Insert(a, first, i, less, key, S);
    }
  }

  /** Gives up after the eighth insertion unless it is the last place's: the range is sorted exactly when
      fewer than eight places before the last are late. */
  method InsertionSortIncomplete<T>(a: array<T>, first: nat, last: nat, less: (T, T) -> bool, ghost key: T -> int,
      ghost S: set<T>)
    returns (complete: bool)
    requires first <= last <= a.Length
    requires Ready(a, less, key, S)
    modifies a
    ensures Ready(a, less, key, S)
    ensures complete ==> Sorted(a[..], key, first, last)
    ensures complete <==> |Late(old(a[..]), key, first, last - 1)| < 8
    ensures Perm(old(a[..]), a[..], first, last) && Stable(old(a[..]), a[..], key)
  {
    hide IsLate, Late, Sorted, Alike;
    ghost var was := a[..];
    LateMonotone(was, key, first, last - 1, last - 1);
    LateMonotone(was, key, first, last - 1, last);
    var done := SortUpToFive(a, first, last, less, key, S);
    if done {
      return true;
    }
    var j := first + 2;
    Sort3(a, first, first + 1, j, less, key, S);
    ThreeDone(was, a[..], key, first);
    NoneLate(was, key, first);
    hide Perm, Stable;
    var count := 0;
    var i := j + 1;
    while i != last
      invariant first + 3 <= i <= last
      invariant 0 <= count == |Late(was, key, first, i)| < INCOMPLETE_LIMIT
      invariant Ready(a, less, key, S)
      invariant Sorted(a[..], key, first, i)
      invariant Perm(was, a[..], first, i) && Stable(was, a[..], key)
      decreases last - i
    {
      LateNext(was, key, first, i);
      var inserted := InsertIfBelow(a, first, i, less, was, key, S);
      if inserted {
        count := count + 1;
        if count == INCOMPLETE_LIMIT {
          PermWider(was, a[..], first, i + 1, last);
          if i + 1 < last {
            LateMonotone(was, key, first, i + 1, last - 1);
          }
          return i + 1 == last;
        }
      }
      i := i + 1;
    }
    return true;
  }

  lemma PermWider<T>(s: seq<T>, t: seq<T>, lo: int, hi: int, hi': int)
    requires Perm(s, t, lo, hi) && hi <= hi'
    ensures Perm(s, t, lo, hi')
  {
  }

  lemma NoneLate<T>(s: seq<T>, key: T -> int, first: nat)
    requires first + 3 <= |s|
    ensures Late(s, key, first, first + 3) == {}
  {
  }
}
