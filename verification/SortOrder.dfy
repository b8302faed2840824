/** What sorting a range means, for `crates/aim-android-init/src/cxx_sort.rs`.

    The comparator of the port is any strict weak order. On the finitely many
    elements of an array such an order is the order of an integer rank, so the
    algorithms below carry a ghost `key` with `Ranks(less, key, S)` and reason about integers. */
module SortOrder {

  /** `less` is a strict weak order on `S`: asymmetric, and "not less" is transitive. */
  ghost predicate StrictWeakOrder<T>(less: (T, T) -> bool, S: set<T>) {
    && (forall x, y {:trigger less(x, y)} :: x in S && y in S && less(x, y) ==> !less(y, x))
    && (forall x, y, z {:trigger less(x, y), less(y, z)} ::
         x in S && y in S && z in S && less(x, z) ==> less(x, y) || less(y, z))
  }

  /** `key` ranks the elements of `S` as `less` does. */
  ghost predicate Ranks<T>(less: (T, T) -> bool, key: T -> int, S: set<T>) {
    forall x, y {:trigger less(x, y)} :: x in S && y in S ==> (less(x, y) <==> key(x) < key(y))
  }

  /** How many elements of `S` come before `x`. */
  ghost function Rank<T>(less: (T, T) -> bool, S: set<T>, x: T): nat {
    |set y | y in S && less(y, x)|
  }

  lemma SubsetSize<T>(a: set<T>, b: set<T>)
    requires a <= b
    ensures |a| <= |b|
    ensures a != b ==> |a| < |b|
  {
    assert b == a + (b - a);
    if a != b {
      assert b - a != {};
    }
  }

  /** Counting predecessors ranks a finite set exactly as a strict weak order on it does. */
  lemma RankRanks<T>(less: (T, T) -> bool, S: set<T>)
    requires StrictWeakOrder(less, S)
    ensures Ranks(less, x => Rank(less, S, x), S)
  {
    forall x, y | x in S && y in S
      ensures less(x, y) <==> Rank(less, S, x) < Rank(less, S, y)
    {
      var below := set z | z in S && less(z, x);
      var above := set z | z in S && less(z, y);
      if less(x, y) {
        assert x in above && x !in below;
        forall z | z in below ensures z in above {
          assert less(z, y) || less(y, x);
        }
        SubsetSize(below, above);
      } else {
        SubsetSize(above, below);
      }
    }
  }

  /** Every element of `s` is ranked. */
  ghost predicate Within<T>(s: seq<T>, S: set<T>) {
    forall i :: 0 <= i < |s| ==> s[i] in S
  }

  ghost predicate Sorted<T>(s: seq<T>, key: T -> int, lo: int, hi: int)
    requires 0 <= lo <= hi <= |s|
  {
    forall i, j {:trigger key(s[i]), key(s[j])} :: lo <= i < j < hi ==> key(s[i]) <= key(s[j])
  }

  /** Everything in `[lo, mid)` ranks no higher than everything in `[mid, hi)`. */
  ghost predicate Split<T>(s: seq<T>, key: T -> int, lo: int, mid: int, hi: int)
    requires 0 <= lo <= mid <= hi <= |s|
  {
    forall i, j {:trigger key(s[i]), key(s[j])} :: lo <= i < mid <= j < hi ==> key(s[i]) <= key(s[j])
  }

  /** `t` rearranges `s` inside `[lo, hi)` only. */
  ghost predicate Perm<T>(s: seq<T>, t: seq<T>, lo: int, hi: int) {
    && |s| == |t|
    && multiset(s) == multiset(t)
    && forall i :: 0 <= i < |s| && !(lo <= i < hi) ==> s[i] == t[i]
  }

  lemma InnerMultiset<T>(s: seq<T>, t: seq<T>, lo: nat, hi: nat)
    requires Perm(s, t, lo, hi) && lo <= hi <= |s|
    ensures multiset(s[lo..hi]) == multiset(t[lo..hi])
  {
    assert s == s[..lo] + s[lo..hi] + s[hi..];
    assert t == t[..lo] + t[lo..hi] + t[hi..];
    assert s[..lo] == t[..lo];
    assert s[hi..] == t[hi..];
    assert multiset(s[lo..hi]) == multiset(s) - multiset(s[..lo]) - multiset(s[hi..]);
  }

  /** An element found in the range afterwards was in the range before; elsewhere nothing moved. */
  lemma Origin<T>(s: seq<T>, t: seq<T>, lo: nat, hi: nat, k: int) returns (j: int)
    requires Perm(s, t, lo, hi) && lo <= hi <= |s| && 0 <= k < |s|
    ensures 0 <= j < |s| && s[j] == t[k]
    ensures if lo <= k < hi then lo <= j < hi else j == k
  {
    if !(lo <= k < hi) {
      return k;
    }
    InnerMultiset(s, t, lo, hi);
    assert t[lo..hi][k - lo] in multiset(t[lo..hi]);
    assert t[k] in multiset(s[lo..hi]);
    var m :| 0 <= m < hi - lo && s[lo..hi][m] == t[k];
    j := lo + m;
  }

  lemma WithinKept<T>(s: seq<T>, t: seq<T>, S: set<T>, lo: int, hi: int)
    requires Perm(s, t, lo, hi) && Within(s, S)
    ensures Within(t, S)
  {
    forall i | 0 <= i < |t| ensures t[i] in S {
      assert t[i] in multiset(t);
      assert t[i] in multiset(s);
    }
  }

  /** Rearranging one side of a split, or anything inside one of its sides, keeps it. */
  lemma SplitKept<T>(s: seq<T>, t: seq<T>, key: T -> int, lo: nat, mid: nat, hi: nat, from: nat, to: nat)
    requires lo <= mid <= hi <= |s| && from <= to
    requires Perm(s, t, from, to)
    requires (lo <= from && to <= mid) || (mid <= from && to <= hi)
    requires Split(s, key, lo, mid, hi)
    ensures Split(t, key, lo, mid, hi)
  {
    forall i, j | lo <= i < mid <= j < hi ensures key(t[i]) <= key(t[j]) {
      var i' := Origin(s, t, from, to, i);
      var j' := Origin(s, t, from, to, j);
    }
  }

  /** Filling a hole from elsewhere and moving the hole there is a swap. */
  lemma MoveHole<T>(s: seq<T>, h: nat, k: nat, x: T)
    requires h < |s| && k < |s|
    ensures multiset(s[h := s[k]][k := x]) == multiset(s[h := x])
  {
    if h == k {
      assert s[h := s[k]][k := x] == s[h := x];
    } else {
      var u := s[h := x];
      assert s[h := s[k]][k := x] == u[h := u[k]][k := u[h]];
    }
  }
}
