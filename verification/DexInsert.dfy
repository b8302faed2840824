/** Inserting new entries into a sorted id table of a dex file, and where every index then is
    (`Shift`, `merge` and `lower_bound` in `crates/aim-android-image/src/reindex.rs`).

    A table is the sequence of its entries' sort keys. Keys of all four tables are sequences of numbers
    compared lexicographically: a string's UTF-16 units, a type's descriptor, a proto's return type and
    parameters, a method's class, name and proto. */
module DexInsert {

  type Key = seq<nat>

  const NO_INDEX: nat := 0xffff_ffff

  // ---- the order ----

  predicate Below(a: Key, b: Key) {
    if b == [] then false
    else if a == [] then true
    else a[0] < b[0] || (a[0] == b[0] && Below(a[1..], b[1..]))
  }

  lemma {:induction false} BelowNotSelf(a: Key)
    ensures !Below(a, a)
  {
    if a != [] {
      BelowNotSelf(a[1..]);
    }
  }

  lemma {:induction false} BelowTrans(a: Key, b: Key, c: Key)
    requires Below(a, b) && Below(b, c)
    ensures Below(a, c)
  {
    if a != [] && a[0] == b[0] && b[0] == c[0] {
      BelowTrans(a[1..], b[1..], c[1..]);
    }
  }

  lemma {:induction false} BelowTotal(a: Key, b: Key)
    ensures Below(a, b) || a == b || Below(b, a)
  {
    if a != [] && b != [] && a[0] == b[0] {
      BelowTotal(a[1..], b[1..]);
      assert a == [a[0]] + a[1..] && b == [b[0]] + b[1..];
    }
  }

  /** `a` and `b` agree up to `k`, where `a` ends or has the smaller number. */
  ghost predicate SmallerAt(a: Key, b: Key, k: nat) {
    k <= |a| && k < |b| && a[..k] == b[..k] && (k == |a| || a[k] < b[k])
  }

  /** The order is that of the first difference, a beginning before the whole. */
  lemma {:induction false} BelowIs(a: Key, b: Key)
    ensures Below(a, b) <==> exists k: nat :: SmallerAt(a, b, k)
  {
    if b == [] {
    } else if a == [] || a[0] < b[0] {
      assert SmallerAt(a, b, 0);
    } else {
      BelowIs(a[1..], b[1..]);
      if Below(a, b) {
        var k: nat :| SmallerAt(a[1..], b[1..], k);
        assert a[..k + 1] == [a[0]] + a[1..][..k] && b[..k + 1] == [b[0]] + b[1..][..k];
        assert SmallerAt(a, b, k + 1);
      }
      forall k: nat | SmallerAt(a, b, k) ensures Below(a, b) {
        assert k > 0;
        assert a[..k][0] == b[..k][0];
        assert a[1..][..k - 1] == a[..k][1..] && b[1..][..k - 1] == b[..k][1..];
        assert SmallerAt(a[1..], b[1..], k - 1);
      }
    }
  }

  /** The order the format requires of an id table. */
  ghost predicate Sorted(keys: seq<Key>) {
    forall i, j {:trigger keys[i], keys[j]} :: 0 <= i < j < |keys| ==> Below(keys[i], keys[j])
  }

  /** Where `key` belongs: the entries before it are the smaller ones. */
  ghost predicate Belongs(keys: seq<Key>, key: Key, at: nat) {
    && at <= |keys|
    && (forall i {:trigger keys[i]} :: 0 <= i < at ==> Below(keys[i], key))
    && (forall i {:trigger keys[i]} :: at <= i < |keys| ==> !Below(keys[i], key))
  }

  /** `lower_bound`. */
  method LowerBound(keys: seq<Key>, key: Key) returns (lo: nat)
    requires Sorted(keys)
    ensures Belongs(keys, key, lo)
  {
    var hi := |keys|;
    lo := 0;
    while lo < hi
      invariant lo <= hi <= |keys|
      invariant forall i {:trigger keys[i]} :: 0 <= i < lo ==> Below(keys[i], key)
      invariant forall i {:trigger keys[i]} :: hi <= i < |keys| ==> !Below(keys[i], key)
    {
      var mid := (lo + hi) / 2;
      if Below(keys[mid], key) {
        forall i | 0 <= i < mid ensures Below(keys[i], key) {
          BelowTrans(keys[i], keys[mid], key);
        }
        lo := mid + 1;
      } else {
        forall i | mid < i < |keys| ensures !Below(keys[i], key) {
          if Below(keys[i], key) {
            BelowTrans(keys[mid], keys[i], key);
          }
        }
        hi := mid;
      }
    }
  }

  /** A key of the table is found where it belongs, and only there. */
  lemma PresentAt(keys: seq<Key>, key: Key, at: nat)
    requires Sorted(keys) && Belongs(keys, key, at)
    ensures key in keys <==> at < |keys| && keys[at] == key
  {
    if key in keys {
      var i :| 0 <= i < |keys| && keys[i] == key;
      BelowNotSelf(key);
      if at < i {
        assert Below(keys[at], keys[i]);
      }
    }
  }

  // ---- shifts ----

  /** Where new entries go: the old indices they precede. */
  ghost predicate Places(at: seq<nat>, n: nat) {
    && (forall k {:trigger at[k]} :: 0 <= k < |at| ==> at[k] <= n)
    && (forall k, l {:trigger at[k], at[l]} :: 0 <= k < l < |at| ==> at[k] <= at[l])
  }

  /** How many of the sorted `at` are at most `old`. */
  function UpTo(at: seq<nat>, was: nat): nat {
    if at == [] || at[0] > was then 0 else 1 + UpTo(at[1..], was)
  }

  /** `Shift::map`: each old index moves past the entries inserted at or before it. */
  function Map(at: seq<nat>, was: nat): nat {
    if was == NO_INDEX then was else was + UpTo(at, was)
  }

  /** `Shift::new_index`. */
  function NewIndex(at: seq<nat>, k: nat): nat
    requires k < |at|
  {
    at[k] + k
  }

  lemma {:induction false} UpToIs(at: seq<nat>, n: nat, was: nat)
    requires Places(at, n)
    ensures var c := UpTo(at, was);
            && c <= |at| && (forall k {:trigger at[k]} :: 0 <= k < c ==> at[k] <= was)
            && (forall k {:trigger at[k]} :: c <= k < |at| ==> at[k] > was)
  {
    if at != [] && at[0] <= was {
      UpToIs(at[1..], n, was);
      var c := UpTo(at, was);
      forall k | 0 < k < c ensures at[k] <= was {
        assert at[k] == at[1..][k - 1];
      }
      forall k | c <= k < |at| ensures at[k] > was {
        assert at[k] == at[1..][k - 1];
      }
    }
  }

  lemma UpToOnly(at: seq<nat>, n: nat, was: nat, c: nat)
    requires Places(at, n) && c <= |at| && (forall k {:trigger at[k]} :: 0 <= k < c ==> at[k] <= was)
    requires c < |at| ==> at[c] > was
    ensures UpTo(at, was) == c
  {
    UpToIs(at, n, was);
    var d := UpTo(at, was);
    var first := if c < d then c else d;
    if first < |at| {
      var place := at[first];
    }
  }

  /** Old entries keep their order. */
  lemma MapMonotone(at: seq<nat>, n: nat, i: nat, j: nat)
    requires Places(at, n) && i < j < n <= NO_INDEX
    ensures Map(at, i) < Map(at, j) < n + |at|
  {
    UpToIs(at, n, i);
    UpToIs(at, n, j);
    var c, d := UpTo(at, i), UpTo(at, j);
    if d < |at| {
      var place := at[d];
    }
  }

  /** An old entry stays before a new one exactly when it stood before its place. */
  lemma MapVersusNew(at: seq<nat>, n: nat, i: nat, k: nat)
    requires Places(at, n) && i < n <= NO_INDEX && k < |at|
    ensures if i < at[k] then Map(at, i) < NewIndex(at, k) else NewIndex(at, k) < Map(at, i)
    ensures Map(at, i) < n + |at| && NewIndex(at, k) < n + |at|
  {
    UpToIs(at, n, i);
    var c := UpTo(at, i);
    assert k < c <==> at[k] <= i;
  }

  /** Every index of the new table is that of one entry: the `k`th new one, or an old one. */
  lemma Covered(at: seq<nat>, n: nat, x: nat, c: nat)
    requires Places(at, n) && n <= NO_INDEX && x < n + |at| && c <= |at|
    requires forall k {:trigger NewIndex(at, k)} :: 0 <= k < c ==> NewIndex(at, k) < x
    requires c < |at| ==> x < NewIndex(at, c)
    ensures c <= x && x - c < n && Map(at, x - c) == x
  {
    if c > 0 {
      assert NewIndex(at, c - 1) < x;
    }
    forall k | 0 <= k < c ensures at[k] <= x - c {
      assert c - 1 == k || at[k] <= at[c - 1];
    }
    UpToOnly(at, n, x - c, c);
  }

  lemma FirstNotBelow(at: seq<nat>, n: nat, x: nat) returns (c: nat)
    requires Places(at, n)
    ensures c <= |at| && (forall k {:trigger NewIndex(at, k)} :: 0 <= k < c ==> NewIndex(at, k) < x)
    ensures c < |at| ==> x <= NewIndex(at, c)
  {
    c := 0;
    while c < |at| && NewIndex(at, c) < x
      invariant c <= |at| && (forall k {:trigger NewIndex(at, k)} :: 0 <= k < c ==> NewIndex(at, k) < x)
    {
      c := c + 1;
    }
  }

  // ---- merging ----

  /** The first `n` old entries are where `Map` puts them. */
  ghost predicate HasOld<T>(out: seq<T>, was: seq<T>, at: seq<nat>, n: nat) {
    n <= |was| && forall i {:trigger was[i]} {:trigger Map(at, i)} ::
        0 <= i < n ==> Map(at, i) < |out| && out[Map(at, i)] == was[i]
  }

  /** The first `n` new entries are where `NewIndex` puts them. */
  ghost predicate HasNew<T>(out: seq<T>, at: seq<nat>, added: seq<T>, n: nat) {
    n <= |added| && |at| == |added|
    && forall k {:trigger added[k]} {:trigger NewIndex(at, k)} ::
         0 <= k < n ==> NewIndex(at, k) < |out| && out[NewIndex(at, k)] == added[k]
  }

  /** `out` is the old table with the new entries inserted where `at` says. */
  ghost predicate IsMerge<T>(out: seq<T>, was: seq<T>, at: seq<nat>, added: seq<T>) {
    |out| == |was| + |added| && HasOld(out, was, at, |was|) && HasNew(out, at, added, |added|)
  }

  lemma PushedOld<T>(out: seq<T>, was: seq<T>, at: seq<nat>, added: seq<T>, i: nat, k: nat)
    requires HasOld(out, was, at, i) && HasNew(out, at, added, k) && i < |was| && Map(at, i) == |out|
    ensures HasOld(out + [was[i]], was, at, i + 1) && HasNew(out + [was[i]], at, added, k)
  {
  }

  lemma PushedNew<T>(out: seq<T>, was: seq<T>, at: seq<nat>, added: seq<T>, i: nat, k: nat)
    requires HasOld(out, was, at, i) && HasNew(out, at, added, k) && k < |added| && NewIndex(at, k) == |out|
    ensures HasOld(out + [added[k]], was, at, i) && HasNew(out + [added[k]], at, added, k + 1)
  {
  }

  /** `merge`: old entries in turn, each after the new ones placed at or before it. */
  method Merge<T>(was: seq<T>, at: seq<nat>, added: seq<T>) returns (out: seq<T>)
    requires Places(at, |was|) && |at| == |added| && |was| <= NO_INDEX
    ensures IsMerge(out, was, at, added)
  {
    hide HasOld, HasNew;
    out := [];
    StartsEmpty(was, at, added);
    var i, k := 0, 0;
    while i < |was|
      invariant i <= |was| && k <= |at| && |out| == i + k
      invariant forall l {:trigger at[l]} :: 0 <= l < k ==> at[l] < i
      invariant forall l {:trigger at[l]} :: k <= l < |at| ==> at[l] >= i
      invariant HasOld(out, was, at, i) && HasNew(out, at, added, k)
    {
      while k < |at| && at[k] <= i
        invariant k <= |at| && |out| == i + k
        invariant forall l {:trigger at[l]} :: 0 <= l < k ==> at[l] <= i
        invariant forall l {:trigger at[l]} :: k <= l < |at| ==> at[l] >= i
        invariant HasOld(out, was, at, i) && HasNew(out, at, added, k)
      {
        PushedNew(out, was, at, added, i, k);
        out := out + [added[k]];
        k := k + 1;
      }
      UpToOnly(at, |was|, i, k);
      PushedOld(out, was, at, added, i, k);
      out := out + [was[i]];
      i := i + 1;
    }
    while k < |at|
      invariant k <= |at| && |out| == i + k
      invariant forall l {:trigger at[l]} :: k <= l < |at| ==> at[l] >= i
      invariant HasOld(out, was, at, i) && HasNew(out, at, added, k)
    {
      PushedNew(out, was, at, added, i, k);
      out := out + [added[k]];
      k := k + 1;
    }
  }

  lemma StartsEmpty<T>(was: seq<T>, at: seq<nat>, added: seq<T>)
    requires |at| == |added|
    ensures HasOld([], was, at, 0) && HasNew([], at, added, 0)
  {
  }

  /** The string table's loop: the next new entry when its index has come, else the next old one. */
  method MergeByIndex<T>(was: seq<T>, at: seq<nat>, added: seq<T>) returns (out: seq<T>)
    requires Places(at, |was|) && |at| == |added| && |was| <= NO_INDEX
    ensures IsMerge(out, was, at, added)
  {
    hide HasOld, HasNew;
    out := [];
    StartsEmpty(was, at, added);
    var k := 0;
    var n := |was| + |added|;
    while |out| < n
      invariant |out| <= n && k <= |at| && k <= |out| && |out| - k <= |was|
      invariant forall l {:trigger NewIndex(at, l)} :: 0 <= l < k ==> NewIndex(at, l) < |out|
      invariant k < |at| ==> NewIndex(at, k) >= |out|
      invariant HasOld(out, was, at, |out| - k) && HasNew(out, at, added, k)
      decreases n - |out|
    {
      if k < |at| && at[k] + k == |out| {
        PushedNew(out, was, at, added, |out| - k, k);
        out := out + [added[k]];
        k := k + 1;
      } else {
        Covered(at, |was|, |out|, k);
        PushedOld(out, was, at, added, |out| - k, k);
        out := out + [was[|out| - k]];
      }
    }
  }

  // ---- one table ----

  /** What is added to a table: the keys and the places they go. */
  datatype Insertion = Insertion(at: seq<nat>, added: seq<Key>)

  /** The keys added belong where they go, are in order, and were missing. */
  ghost predicate Fits(keys: seq<Key>, ins: Insertion) {
    && |ins.at| == |ins.added| && Sorted(ins.added)
    && (forall k {:trigger ins.added[k]} {:trigger ins.at[k]} :: 0 <= k < |ins.added| ==>
          Belongs(keys, ins.added[k], ins.at[k]) && ins.added[k] !in keys)
  }

  /** Exactly what is wanted and missing is added. */
  ghost predicate Supplies(keys: seq<Key>, wanted: seq<Key>, ins: Insertion) {
    forall w {:trigger w in ins.added} :: w in ins.added <==> w in wanted && w !in keys
  }

  lemma SortedMore(keys: seq<Key>, key: Key)
    requires Sorted(keys) && (keys != [] ==> Below(keys[|keys| - 1], key))
    ensures Sorted(keys + [key])
  {
    forall i | 0 <= i < |keys| ensures Below(keys[i], key) {
      if i < |keys| - 1 {
        BelowTrans(keys[i], keys[|keys| - 1], key);
      }
    }
  }

  /** One table's part of `Plan::new`: `wanted` is in order, as a `BTreeSet` yields it. */
  method PlanTable(keys: seq<Key>, wanted: seq<Key>) returns (ins: Insertion)
    requires Sorted(keys) && Sorted(wanted)
    ensures Fits(keys, ins) && Supplies(keys, wanted, ins)
  {
    var at: seq<nat>, added: seq<Key> := [], [];
    var i := 0;
    while i < |wanted|
      invariant i <= |wanted| && Fits(keys, Insertion(at, added)) && Supplies(keys, wanted[..i], Insertion(at, added))
      invariant forall k {:trigger added[k]} :: 0 <= k < |added| && i < |wanted| ==> Below(added[k], wanted[i])
    {
      var key := wanted[i];
      var place := LowerBound(keys, key);
      PresentAt(keys, key, place);
      assert wanted[..i + 1] == wanted[..i] + [key];
      forall k | 0 <= k < |added| && i + 1 < |wanted| ensures Below(added[k], wanted[i + 1]) {
        BelowTrans(added[k], key, wanted[i + 1]);
      }
      if place == |keys| || keys[place] != key {
        SortedMore(added, key);
        at, added := at + [place], added + [key];
      }
      i := i + 1;
    }
    assert wanted[..i] == wanted;
    ins := Insertion(at, added);
  }

  lemma FitsPlaces(keys: seq<Key>, ins: Insertion)
    requires Fits(keys, ins)
    ensures Places(ins.at, |keys|)
  {
    forall k, l | 0 <= k < l < |ins.at| ensures ins.at[k] <= ins.at[l] {
      var a, b := ins.at[k], ins.at[l];
      if b < |keys| && Below(keys[b], ins.added[k]) {
        BelowTrans(keys[b], ins.added[k], ins.added[l]);
      }
    }
  }

  /** The two kinds of index, for an index of the merged table. */
  ghost predicate IsNew(at: seq<nat>, x: nat, k: nat) {
    k < |at| && NewIndex(at, k) == x
  }

  ghost predicate IsOld(at: seq<nat>, n: nat, x: nat, i: nat) {
    i < n && Map(at, i) == x
  }

  lemma EveryIndex(at: seq<nat>, n: nat, x: nat)
    requires Places(at, n) && n <= NO_INDEX && x < n + |at|
    ensures (exists k: nat :: IsNew(at, x, k)) || (exists i: nat :: IsOld(at, n, x, i))
  {
    var c := FirstNotBelow(at, n, x);
    if c < |at| && NewIndex(at, c) == x {
      assert IsNew(at, x, c);
    } else {
      Covered(at, n, x, c);
      assert IsOld(at, n, x, x - c);
    }
  }

  lemma OldBelowNew(keys: seq<Key>, ins: Insertion, i: nat, k: nat)
    requires Fits(keys, ins) && i < |keys| && k < |ins.at|
    ensures if i < ins.at[k] then Below(keys[i], ins.added[k]) else Below(ins.added[k], keys[i])
  {
    assert Belongs(keys, ins.added[k], ins.at[k]);
    if ins.at[k] <= i {
      assert keys[i] in keys;
      BelowTotal(keys[i], ins.added[k]);
    }
  }

  /** The merged table is in order again. */
  lemma MergedSorted(out: seq<Key>, keys: seq<Key>, ins: Insertion)
    requires Sorted(keys) && Fits(keys, ins) && |keys| <= NO_INDEX && IsMerge(out, keys, ins.at, ins.added)
    ensures Sorted(out)
  {
    FitsPlaces(keys, ins);
    forall x, y | 0 <= x < y < |out| ensures Below(out[x], out[y]) {
      EveryIndex(ins.at, |keys|, x);
      EveryIndex(ins.at, |keys|, y);
      if i: nat :| IsOld(ins.at, |keys|, x, i) {
        OldFirst(out, keys, ins, x, y, i);
      } else {
        var k: nat :| IsNew(ins.at, x, k);
        NewFirst(out, keys, ins, x, y, k);
      }
    }
  }

  lemma OldFirst(out: seq<Key>, keys: seq<Key>, ins: Insertion, x: nat, y: nat, i: nat)
    requires Sorted(keys) && Fits(keys, ins) && Places(ins.at, |keys|) && |keys| <= NO_INDEX
             && IsMerge(out, keys, ins.at, ins.added)
    requires x < y < |out| && IsOld(ins.at, |keys|, x, i)
    ensures Below(out[x], out[y])
  {
    var at, n := ins.at, |keys|;
    EveryIndex(at, n, y);
    assert out[x] == keys[i];
    if k: nat :| IsNew(at, y, k) {
      MapVersusNew(at, n, i, k);
      OldBelowNew(keys, ins, i, k);
      assert out[y] == ins.added[k];
    } else {
      var j: nat :| IsOld(at, n, y, j);
      assert out[y] == keys[j];
      if j < i {
        MapMonotone(at, n, j, i);
      }
    }
  }

  lemma NewFirst(out: seq<Key>, keys: seq<Key>, ins: Insertion, x: nat, y: nat, k: nat)
    requires Sorted(keys) && Fits(keys, ins) && Places(ins.at, |keys|) && |keys| <= NO_INDEX
             && IsMerge(out, keys, ins.at, ins.added)
    requires x < y < |out| && IsNew(ins.at, x, k)
    ensures Below(out[x], out[y])
  {
    var at, n := ins.at, |keys|;
    EveryIndex(at, n, y);
    assert out[x] == ins.added[k];
    if l: nat :| IsNew(at, y, l) {
      assert out[y] == ins.added[l];
      assert k < l;
    } else {
      var j: nat :| IsOld(at, n, y, j);
      MapVersusNew(at, n, j, k);
      OldBelowNew(keys, ins, j, k);
      assert out[y] == keys[j];
    }
  }

  /** `string_index`, `type_index`, `proto_index` and `method_index`: a key's index in the merged table. */
  method IndexOf(keys: seq<Key>, ins: Insertion, key: Key) returns (x: nat)
    requires Sorted(keys) && Fits(keys, ins) && (key in keys || key in ins.added)
    ensures forall out {:trigger IsMerge(out, keys, ins.at, ins.added)} ::
            IsMerge(out, keys, ins.at, ins.added) ==> x < |out| && out[x] == key
  {
    var k := 0;
    while k < |ins.added|
      invariant k <= |ins.added| && key !in ins.added[..k]
    {
      if ins.added[k] == key {
        x := NewIndex(ins.at, k);
        return;
      }
      k := k + 1;
    }
    var at := LowerBound(keys, key);
    PresentAt(keys, key, at);
    x := Map(ins.at, at);
  }

  // ---- ordered sets ----

  /** A `BTreeSet` of keys, as the sequence it yields. */
  method Put(keys: seq<Key>, key: Key) returns (more: seq<Key>)
    requires Sorted(keys)
    ensures Sorted(more) && (forall k {:trigger k in more} {:trigger k in keys} :: k in more <==> k in keys || k == key)
  {
    var at := LowerBound(keys, key);
    PresentAt(keys, key, at);
    if at < |keys| && keys[at] == key {
      return keys;
    }
    forall i | at <= i < |keys| ensures Below(key, keys[i]) {
      assert keys[i] in keys;
      BelowTotal(key, keys[i]);
    }
    more := keys[..at] + [key] + keys[at..];
    assert keys == keys[..at] + keys[at..];
  }

  // ---- a table of entries with keys ----

  function Keys<T>(table: seq<T>, key: T -> Key): (r: seq<Key>)
    ensures |r| == |table| && forall i {:trigger r[i]} :: 0 <= i < |r| ==> r[i] == key(table[i])
  {
    seq(|table|, i requires 0 <= i < |table| => key(table[i]))
  }

  function Made<T>(added: seq<Key>, make: Key -> T): (r: seq<T>)
    ensures |r| == |added| && forall i {:trigger r[i]} :: 0 <= i < |r| ==> r[i] == make(added[i])
  {
    seq(|added|, i requires 0 <= i < |added| => make(added[i]))
  }

  /** A table with the wanted keys added: in order, with every old entry and every wanted key in place. */
  ghost predicate Extended<T>(table: seq<T>, key: T -> Key, ins: Insertion, make: Key -> T, now: seq<T>) {
    && Fits(Keys(table, key), ins)
    && IsMerge(now, table, ins.at, Made(ins.added, make))
    && IsMerge(Keys(now, key), Keys(table, key), ins.at, ins.added)
    && Sorted(Keys(now, key))
    && (forall x {:trigger now[x]} :: 0 <= x < |now| ==> now[x] in table || now[x] in Made(ins.added, make))
  }

  lemma MergedKeys<T>(now: seq<T>, table: seq<T>, key: T -> Key, ins: Insertion, make: Key -> T)
    requires IsMerge(now, table, ins.at, Made(ins.added, make)) && |ins.at| == |ins.added|
    requires forall k {:trigger ins.added[k]} :: 0 <= k < |ins.added| ==> key(make(ins.added[k])) == ins.added[k]
    ensures IsMerge(Keys(now, key), Keys(table, key), ins.at, ins.added)
  {
    var a, b := Keys(now, key), Keys(table, key);
    forall i | 0 <= i < |b| ensures Map(ins.at, i) < |a| && a[Map(ins.at, i)] == b[i] {
      assert now[Map(ins.at, i)] == table[i];
    }
    forall k | 0 <= k < |ins.added| ensures NewIndex(ins.at, k) < |a| && a[NewIndex(ins.at, k)] == ins.added[k] {
      assert now[NewIndex(ins.at, k)] == Made(ins.added, make)[k];
    }
  }

  lemma MergedFrom<T>(now: seq<T>, table: seq<T>, at: seq<nat>, added: seq<T>)
    requires IsMerge(now, table, at, added) && Places(at, |table|) && |table| <= NO_INDEX
    ensures forall x {:trigger now[x]} :: 0 <= x < |now| ==> now[x] in table || now[x] in added
  {
    forall x | 0 <= x < |now| ensures now[x] in table || now[x] in added {
      EveryIndex(at, |table|, x);
      if k: nat :| IsNew(at, x, k) {
        assert now[x] == added[k];
      } else {
        var i: nat :| IsOld(at, |table|, x, i);
        assert now[x] == table[i];
      }
    }
  }

  method Extend<T>(table: seq<T>, key: T -> Key, wanted: seq<Key>, make: Key -> T) returns (ins: Insertion, now: seq<T>)
    requires Sorted(Keys(table, key)) && Sorted(wanted) && |table| <= NO_INDEX
    requires forall k {:trigger make(k)} :: k in wanted ==> key(make(k)) == k
    ensures Extended(table, key, ins, make, now)
    ensures Supplies(Keys(table, key), wanted, ins)
  {
    var keys := Keys(table, key);
    ins := PlanTable(keys, wanted);
    FitsPlaces(keys, ins);
    now := Merge(table, ins.at, Made(ins.added, make));
    forall k | 0 <= k < |ins.added| ensures key(make(ins.added[k])) == ins.added[k] {
      assert ins.added[k] in ins.added;
    }
    MergedKeys(now, table, key, ins, make);
    MergedSorted(Keys(now, key), keys, ins);
    MergedFrom(now, table, ins.at, Made(ins.added, make));
  }

  /** The indices of several keys in the merged table. */
  method IndicesOf(keys: seq<Key>, ins: Insertion, wanted: seq<Key>, ghost now: seq<Key>) returns (xs: seq<nat>)
    requires Sorted(keys) && Fits(keys, ins) && IsMerge(now, keys, ins.at, ins.added)
    requires forall w {:trigger w in wanted} :: w in wanted ==> w in keys || w in ins.added
    ensures |xs| == |wanted| && forall i {:trigger xs[i]} :: 0 <= i < |xs| ==> xs[i] < |now| && now[xs[i]] == wanted[i]
  {
    xs := [];
    while |xs| < |wanted|
      invariant |xs| <= |wanted|
      invariant forall i {:trigger xs[i]} :: 0 <= i < |xs| ==> xs[i] < |now| && now[xs[i]] == wanted[i]
    {
      assert wanted[|xs|] in wanted;
      var x := IndexOf(keys, ins, wanted[|xs|]);
      xs := xs + [x];
    }
  }

  method PutAll(keys: seq<Key>, more: seq<Key>) returns (all: seq<Key>)
    requires Sorted(keys)
    ensures Sorted(all) && (forall k {:trigger k in all} :: k in all <==> k in keys || k in more)
  {
    all := keys;
    var i := 0;
    while i < |more|
      invariant i <= |more| && Sorted(all)
                && (forall k {:trigger k in all} :: k in all <==> k in keys || k in more[..i])
    {
      assert more[..i + 1] == more[..i] + [more[i]];
      all := Put(all, more[i]);
      i := i + 1;
    }
    assert more[..i] == more;
  }
}
