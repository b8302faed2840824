/** The order of elements that rank the same, which the serialized property files show. */
module Stability {
  import opened SortOrder

  /** The elements of rank `k`, in order. */
  ghost function Alike<T>(s: seq<T>, key: T -> int, k: int): seq<T> {
    if s == [] then [] else (if key(s[0]) == k then [s[0]] else []) + Alike(s[1..], key, k)
  }

  /** Elements that rank the same stand in the same order in both. */
  ghost predicate Stable<T>(s: seq<T>, t: seq<T>, key: T -> int) {
    forall k {:trigger Alike(s, key, k)} {:trigger Alike(t, key, k)} :: Alike(s, key, k) == Alike(t, key, k)
  }

  /** The elements that are neither less nor greater than `x`, in order. */
  ghost function Equals<T>(s: seq<T>, less: (T, T) -> bool, x: T): seq<T> {
    if s == [] then []
    else (if !less(s[0], x) && !less(x, s[0]) then [s[0]] else []) + Equals(s[1..], less, x)
  }

  lemma {:induction false} AlikeAppend<T>(s: seq<T>, t: seq<T>, key: T -> int, k: int)
    ensures Alike(s + t, key, k) == Alike(s, key, k) + Alike(t, key, k)
  {
    if s == [] {
      assert s + t == t;
    } else {
      AlikeAppend(s[1..], t, key, k);
      assert (s + t)[1..] == s[1..] + t && (s + t)[0] == s[0];
      hide Alike;
      AlikeFirst(s + t, key, k);
      AlikeFirst(s, key, k);
    }
  }

  lemma {:induction false} NoneAlike<T>(s: seq<T>, key: T -> int, k: int)
    requires forall i :: 0 <= i < |s| ==> key(s[i]) != k
    ensures Alike(s, key, k) == []
  {
    if s != [] {
      NoneAlike(s[1..], key, k);
    }
  }

  lemma Unmoved<T>(s: seq<T>, key: T -> int)
    ensures Stable(s, s, key)
  {
  }

  lemma StableTwice<T>(s: seq<T>, t: seq<T>, u: seq<T>, key: T -> int)
    requires Stable(s, t, key) && Stable(t, u, key)
    ensures Stable(s, u, key)
  {
    hide Alike;
  }

  lemma StableAround<T>(low: seq<T>, s: seq<T>, t: seq<T>, high: seq<T>, key: T -> int)
    requires Stable(s, t, key)
    ensures Stable(low + s + high, low + t + high, key)
  {
    forall k ensures Alike(low + s + high, key, k) == Alike(low + t + high, key, k) {
      AlikeAppend(low + s, high, key, k);
      AlikeAppend(low, s, key, k);
      AlikeAppend(low + t, high, key, k);
      AlikeAppend(low, t, key, k);
      assert Alike(s, key, k) == Alike(t, key, k);
    }
  }

  lemma StableThen<T>(s: seq<T>, t: seq<T>, high: seq<T>, all: seq<T>, now: seq<T>, key: T -> int)
    requires Stable(s, t, key) && all == s + high && now == t + high
    ensures Stable(all, now, key)
  {
    StableAround([], s, t, high, key);
    assert [] + s + high == all && [] + t + high == now;
  }

  lemma ThenWithin<T>(all: seq<T>, s: seq<T>, t: seq<T>, high: seq<T>, was: seq<T>, now: seq<T>, key: T -> int)
    requires Stable(all, was, key) && was == s + high
    requires Stable(s, t, key) && now == t + high
    ensures Stable(all, now, key)
  {
    hide Alike;
    StableThen(s, t, high, was, now, key);
  }

  /** A range kept in order keeps the whole in order when nothing else moves. */
  lemma StableRange<T>(s: seq<T>, t: seq<T>, key: T -> int, lo: nat, hi: nat)
    requires Perm(s, t, lo, hi) && lo <= hi <= |s| && Stable(s[lo..hi], t[lo..hi], key)
    ensures Stable(s, t, key)
  {
    StableAround(s[..lo], s[lo..hi], t[lo..hi], s[hi..], key);
    assert s == s[..lo] + s[lo..hi] + s[hi..];
    assert t == s[..lo] + t[lo..hi] + s[hi..];
  }

  /** Passing an element over ones of a higher rank changes no order of equals. */
  lemma PassedOver<T>(s: seq<T>, x: T, key: T -> int)
    requires forall i :: 0 <= i < |s| ==> key(x) < key(s[i])
    ensures Stable(s + [x], [x] + s, key)
  {
    forall k ensures Alike(s + [x], key, k) == Alike([x] + s, key, k) {
      AlikeAppend(s, [x], key, k);
      AlikeAppend([x], s, key, k);
      if k == key(x) {
        NoneAlike(s, key, k);
      } else {
        NoneAlike([x], key, k);
      }
    }
  }

  lemma MovedDown<T>(low: seq<T>, s: seq<T>, x: T, high: seq<T>, key: T -> int)
    requires forall i :: 0 <= i < |s| ==> key(x) < key(s[i])
    ensures Stable(low + s + [x] + high, low + [x] + s + high, key)
  {
    PassedOver(s, x, key);
    StableAround(low, s + [x], [x] + s, high, key);
    assert low + (s + [x]) + high == low + s + [x] + high;
    assert low + ([x] + s) + high == low + [x] + s + high;
  }

  /** Exchanging neighbours that stand in the wrong order. */
  lemma NeighboursExchanged<T>(s: seq<T>, t: seq<T>, i: nat, key: T -> int)
    requires i + 1 < |s| && key(s[i + 1]) < key(s[i]) && t == s[i := s[i + 1]][i + 1 := s[i]]
    ensures Stable(s, t, key)
  {
    var low, high := s[..i], s[i + 2..];
    MovedDown(low, [s[i]], s[i + 1], high, key);
    assert s == low + [s[i]] + [s[i + 1]] + high;
    assert t == low + [s[i + 1]] + [s[i]] + high;
  }

  /** One exchange more. */
  lemma ThenExchanged<T>(was: seq<T>, s: seq<T>, t: seq<T>, i: nat, key: T -> int)
    requires Stable(was, s, key)
    requires i + 1 < |s| && key(s[i + 1]) < key(s[i]) && t == s[i := s[i + 1]][i + 1 := s[i]]
    ensures Stable(was, t, key)
  {
    hide Alike;
    NeighboursExchanged(s, t, i, key);
  }

  /** Three elements in falling order, turned round. */
  lemma Reversed<T>(x: T, y: T, z: T, key: T -> int)
    requires key(z) < key(y) < key(x)
    ensures Stable([x, y, z], [z, y, x], key)
  {
    NeighboursExchanged([x, y, z], [y, x, z], 0, key);
    NeighboursExchanged([y, x, z], [y, z, x], 1, key);
    NeighboursExchanged([y, z, x], [z, y, x], 0, key);
  }

  lemma {:induction false} EqualsIsAlike<T>(s: seq<T>, less: (T, T) -> bool, key: T -> int, S: set<T>, x: T)
    requires Ranks(less, key, S) && Within(s, S) && x in S
    ensures Equals(s, less, x) == Alike(s, key, key(x))
  {
    if s != [] {
      assert s[0] in S;
      assert Within(s[1..], S) by {
        assert forall i :: 0 <= i < |s[1..]| ==> s[1..][i] == s[i + 1];
      }
      EqualsIsAlike(s[1..], less, key, S, x);
    }
  }

  /** In terms of the comparator: the elements equal to any one stand in the same order. */
  lemma StableEquals<T>(s: seq<T>, t: seq<T>, less: (T, T) -> bool, key: T -> int, S: set<T>, x: T)
    requires Ranks(less, key, S) && Within(s, S) && Within(t, S) && x in S && Stable(s, t, key)
    ensures Equals(s, less, x) == Equals(t, less, x)
  {
    EqualsIsAlike(s, less, key, S, x);
    EqualsIsAlike(t, less, key, S, x);
  }

  /** In order and with equals in their first order there is only one arrangement. */
  lemma {:induction false} StableSortIsUnique<T>(s: seq<T>, t: seq<T>, key: T -> int)
    requires Sorted(s, key, 0, |s|) && Sorted(t, key, 0, |t|) && Stable(s, t, key)
    ensures s == t
  {
    SameEmptiness(s, t, key);
    if s == [] {
      return;
    }
    SmallestFirst(s, t, key);
    SmallestFirst(t, s, key);
    TailStable(s, t, key);
    TailSorted(s, key);
    TailSorted(t, key);
    StableSortIsUnique(s[1..], t[1..], key);
    assert s == [s[0]] + s[1..] && t == [t[0]] + t[1..];
  }

  lemma TailSorted<T>(s: seq<T>, key: T -> int)
    requires s != [] && Sorted(s, key, 0, |s|)
    ensures Sorted(s[1..], key, 0, |s[1..]|)
  {
    var r := s[1..];
    forall i, j | 0 <= i < j < |r| ensures key(r[i]) <= key(r[j]) {
      assert key(s[i + 1]) <= key(s[j + 1]);
    }
  }

  lemma AlikeFirst<T>(s: seq<T>, key: T -> int, k: int)
    requires s != []
    ensures key(s[0]) == k ==> Alike(s, key, k) == [s[0]] + Alike(s[1..], key, k)
    ensures key(s[0]) != k ==> Alike(s, key, k) == Alike(s[1..], key, k)
  {
  }

  lemma TailStable<T>(s: seq<T>, t: seq<T>, key: T -> int)
    requires s != [] && t != [] && s[0] == t[0] && Stable(s, t, key)
    ensures Stable(s[1..], t[1..], key)
  {
    forall k ensures Alike(s[1..], key, k) == Alike(t[1..], key, k) {
      assert Alike(s, key, k) == Alike(t, key, k);
      hide Alike;
      AlikeFirst(s, key, k);
      AlikeFirst(t, key, k);
      assert key(s[0]) == k ==> Alike(s[1..], key, k) == Alike(s, key, k)[1..];
      assert key(s[0]) == k ==> Alike(t[1..], key, k) == Alike(t, key, k)[1..];
    }
  }

  lemma SameEmptiness<T>(s: seq<T>, t: seq<T>, key: T -> int)
    requires Stable(s, t, key)
    ensures s == [] <==> t == []
  {
    if s != [] {
      assert Alike(s, key, key(s[0])) == Alike(t, key, key(s[0]));
    }
    if t != [] {
      assert Alike(s, key, key(t[0])) == Alike(t, key, key(t[0]));
    }
  }

  lemma SmallestFirst<T>(s: seq<T>, t: seq<T>, key: T -> int)
    requires s != [] && t != [] && Sorted(t, key, 0, |t|) && Stable(s, t, key)
    ensures key(t[0]) <= key(s[0])
    ensures key(t[0]) == key(s[0]) ==> t[0] == s[0]
  {
    var k := key(s[0]);
    AlikeFirst(s, key, k);
    AlikeFirst(t, key, k);
    assert Alike(s, key, k) == Alike(t, key, k);
    assert Alike(s, key, k)[0] == s[0];
    if k < key(t[0]) {
      forall i | 0 <= i < |t| ensures key(t[i]) != k {
        assert i > 0 ==> key(t[0]) <= key(t[i]);
      }
      NoneAlike(t, key, k);
    } else if k == key(t[0]) {
      assert Alike(t, key, k)[0] == t[0];
    }
  }
}
