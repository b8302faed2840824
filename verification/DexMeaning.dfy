/** A dex file's id tables as sets of what they name: ordered tables name everything once, so the tables
    are as long as those sets are large. */
module DexMeaning {
  import opened DexInsert
  import opened DexPlan

  /** A proto apart from its shorty, and a method apart from its proto's. */
  datatype Sig = Sig(ret: Key, params: seq<Key>)
  datatype Named = Named(holder: Key, name: Key, sig: Sig)

  ghost function SigOf(t: Tables, i: nat): Sig
    requires InRange(t) && i < |t.protos|
  {
    Sig(ProtoOf(t, i).ret, ProtoOf(t, i).params)
  }

  ghost function NamedOf(t: Tables, i: nat): Named
    requires InRange(t) && i < |t.methods|
  {
    Named(MethodOf(t, i).holder, MethodOf(t, i).name, SigOf(t, t.methods[i].proto))
  }

  ghost function TypeList(t: Tables): seq<Key>
    requires InRange(t)
  {
    seq(|t.types|, i requires 0 <= i < |t.types| => TypeName(t, i))
  }

  ghost function SigList(t: Tables): seq<Sig>
    requires InRange(t)
  {
    seq(|t.protos|, i requires 0 <= i < |t.protos| => SigOf(t, i))
  }

  ghost function NamedList(t: Tables): seq<Named>
    requires InRange(t)
  {
    seq(|t.methods|, i requires 0 <= i < |t.methods| => NamedOf(t, i))
  }

  ghost function Elements<T>(s: seq<T>): set<T> {
    set x | x in s
  }

  ghost predicate Distinct<T>(s: seq<T>) {
    forall i, j {:trigger s[i], s[j]} :: 0 <= i < j < |s| ==> s[i] != s[j]
  }

  lemma {:induction false} DistinctSize<T>(s: seq<T>)
    requires Distinct(s)
    ensures |Elements(s)| == |s|
  {
    if s != [] {
      var n := |s| - 1;
      DistinctSize(s[..n]);
      assert s == s[..n] + [s[n]];
      assert s[n] !in s[..n];
      assert Elements(s) == Elements(s[..n]) + {s[n]};
    }
  }

  lemma SortedDistinct(keys: seq<Key>)
    requires Sorted(keys)
    ensures Distinct(keys)
  {
    forall i, j | 0 <= i < j < |keys| ensures keys[i] != keys[j] {
      BelowNotSelf(keys[i]);
    }
  }

  /** How many of the keys come before a key. */
  ghost function Rank(all: set<Key>, key: Key): nat {
    |set k | k in all && Below(k, key)|
  }

  /** In an ordered table a key's rank is its index. */
  lemma RankIs(keys: seq<Key>, i: nat)
    requires Sorted(keys) && i < |keys|
    ensures Rank(Elements(keys), keys[i]) == i
  {
    SortedDistinct(keys);
    DistinctSize(keys[..i]);
    forall k ensures k in keys && Below(k, keys[i]) <==> k in keys[..i] {
      if k in keys && Below(k, keys[i]) {
        var j :| 0 <= j < |keys| && keys[j] == k;
        NotBefore(keys, i, j);
        assert keys[..i][j] == k;
      }
    }
    assert (set k | k in Elements(keys) && Below(k, keys[i])) == Elements(keys[..i]);
  }

  lemma NotBefore(keys: seq<Key>, i: nat, j: nat)
    requires Sorted(keys) && i < |keys| && j < |keys| && Below(keys[j], keys[i])
    ensures j < i
  {
    BelowNotSelf(keys[i]);
    if i < j {
      BelowTrans(keys[i], keys[j], keys[i]);
    }
  }

  lemma TypesDiffer(t: Tables, i: nat, j: nat)
    requires InRange(t) && Ordered(t) && i < |t.types| && j < |t.types| && TypeName(t, i) == TypeName(t, j)
    ensures i == j
  {
    SortedDistinct(t.strings);
    SortedDistinct(Keys(t.types, TypeKey));
    assert t.types[i] == t.types[j];
    assert Keys(t.types, TypeKey)[i] == Keys(t.types, TypeKey)[j];
  }

  lemma TypeListsDiffer(t: Tables, a: seq<nat>, b: seq<nat>)
    requires InRange(t) && Ordered(t)
    requires (forall k {:trigger a[k]} :: 0 <= k < |a| ==> a[k] < |t.types|)
             && (forall k {:trigger b[k]} :: 0 <= k < |b| ==> b[k] < |t.types|)
    requires TypeNames(t, a) == TypeNames(t, b)
    ensures a == b
  {
    assert |TypeNames(t, a)| == |a| && |TypeNames(t, b)| == |b|;
    forall k | 0 <= k < |a| ensures a[k] == b[k] {
      assert TypeName(t, a[k]) == TypeNames(t, a)[k] == TypeNames(t, b)[k] == TypeName(t, b[k]);
      TypesDiffer(t, a[k], b[k]);
    }
  }

  lemma SigsDiffer(t: Tables, i: nat, j: nat)
    requires InRange(t) && Ordered(t) && i < |t.protos| && j < |t.protos| && SigOf(t, i) == SigOf(t, j)
    ensures i == j
  {
    var p, q := t.protos[i], t.protos[j];
    assert ProtoInRange(t, p) && ProtoInRange(t, q);
    TypesDiffer(t, p.ret, q.ret);
    TypeListsDiffer(t, p.params, q.params);
    hide Sorted;
    assert Keys(t.protos, ProtoKey)[i] == Keys(t.protos, ProtoKey)[j];
    SortedDistinct(Keys(t.protos, ProtoKey));
  }

  lemma NamedDiffer(t: Tables, i: nat, j: nat)
    requires InRange(t) && Ordered(t) && i < |t.methods| && j < |t.methods| && NamedOf(t, i) == NamedOf(t, j)
    ensures i == j
  {
    hide Sorted;
    var m, o := t.methods[i], t.methods[j];
    TypesDiffer(t, m.holder, o.holder);
    SigsDiffer(t, m.proto, o.proto);
    SortedDistinct(t.strings);
    assert m.name == o.name;
    assert Keys(t.methods, MethodKey)[i] == Keys(t.methods, MethodKey)[j];
    SortedDistinct(Keys(t.methods, MethodKey));
  }

  /** Each table is as long as what it names is many. */
  lemma Sizes(t: Tables)
    requires InRange(t) && Ordered(t)
    ensures |t.types| == |Elements(TypeList(t))| && |t.protos| == |Elements(SigList(t))|
            && |t.methods| == |Elements(NamedList(t))|
  {
    hide InRange, Ordered, TypeName, SigOf, NamedOf, Elements;
    forall i, j | 0 <= i < j < |t.types| ensures TypeList(t)[i] != TypeList(t)[j] {
      if TypeList(t)[i] == TypeList(t)[j] {
        TypesDiffer(t, i, j);
      }
    }
    forall i, j | 0 <= i < j < |t.protos| ensures SigList(t)[i] != SigList(t)[j] {
      if SigList(t)[i] == SigList(t)[j] {
        SigsDiffer(t, i, j);
      }
    }
    forall i, j | 0 <= i < j < |t.methods| ensures NamedList(t)[i] != NamedList(t)[j] {
      if NamedList(t)[i] == NamedList(t)[j] {
        NamedDiffer(t, i, j);
      }
    }
    DistinctSize(TypeList(t));
    DistinctSize(SigList(t));
    DistinctSize(NamedList(t));
  }

  // ---- old entries are still named ----

  lemma OldStillNamed(was: Tables, s: Shifts, now: Tables)
    requires InRange(was) && InRange(now) && Moved(was, s, now)
    ensures Elements(TypeList(was)) <= Elements(TypeList(now)) && Elements(SigList(was)) <= Elements(SigList(now))
    ensures Elements(NamedList(was)) <= Elements(NamedList(now))
  {
    hide InRange, Moved, Map, TypeName, ProtoOf, MethodOf;
    forall x | x in TypeList(was) ensures x in TypeList(now) {
      var i :| 0 <= i < |was.types| && TypeList(was)[i] == x;
      TypeKept(was, s, now, i);
      assert TypeList(now)[Map(s.types, i)] == x;
    }
    forall x | x in SigList(was) ensures x in SigList(now) {
      var i :| 0 <= i < |was.protos| && SigList(was)[i] == x;
      ProtoKept(was, s, now, i);
      assert SigList(now)[Map(s.protos, i)] == x;
    }
    forall x | x in NamedList(was) ensures x in NamedList(now) {
      var i :| 0 <= i < |was.methods| && NamedList(was)[i] == x;
      NamedKept(was, s, now, i);
      assert NamedList(now)[Map(s.methods, i)] == x;
    }
  }

  lemma NamedKept(was: Tables, s: Shifts, now: Tables, i: nat)
    requires InRange(was) && InRange(now) && Moved(was, s, now) && i < |was.methods|
    ensures Map(s.methods, i) < |now.methods| && NamedOf(now, Map(s.methods, i)) == NamedOf(was, i)
  {
    MethodKept(was, s, now, i);
    ProtoKept(was, s, now, was.methods[i].proto);
  }
}
