/** `Plan::new` and the table part of `Writer::write` in `crates/aim-android-image/src/reindex.rs`, one
    table after the other: each is planned on the keys the tables before it give, then merged. */
module DexAdd {
  import opened DexInsert
  import opened DexPlan
  import opened DexMeaning

  /** A method asked for, its signature already taken apart. */
  datatype Request = Request(holder: Key, name: Key, ret: Key, params: seq<Key>)

  const OBJECT: nat := 76
  const ARRAY: nat := 91

  /** One letter of a shorty; a descriptor is never empty. */
  function Letter(t: Key): nat {
    if t == [] then 0 else if t[0] == OBJECT || t[0] == ARRAY then OBJECT else t[0]
  }

  function Letters(ts: seq<Key>): Key {
    seq(|ts|, i requires 0 <= i < |ts| => Letter(ts[i]))
  }

  function Shorty(ret: Key, params: seq<Key>): Key {
    [Letter(ret)] + Letters(params)
  }

  /** A shorty has a letter for the return type and one for each parameter: 'L' for classes and arrays, else the
      descriptor's own. */
  lemma ShortyLetters(ret: Key, params: seq<Key>, i: nat)
    requires i < 1 + |params| && (if i == 0 then ret else params[i - 1]) != []
    ensures |Shorty(ret, params)| == 1 + |params|
    ensures var d := if i == 0 then ret else params[i - 1];
            Shorty(ret, params)[i] ==
            if d[0] == 'L' as nat || d[0] == '[' as nat then 'L' as nat else d[0]
  {
  }

  function Descriptors(r: Request): seq<Key> {
    [r.holder, r.ret] + r.params
  }

  function Texts(r: Request): seq<Key> {
    [Shorty(r.ret, r.params), r.name] + Descriptors(r)
  }

  // ---- keys keep their order when their indices move ----

  lemma {:induction false} BelowMapped(at: seq<nat>, n: nat, a: Key, b: Key)
    requires Places(at, n) && n <= NO_INDEX && Below(a, b)
    requires (forall k {:trigger a[k]} :: 0 <= k < |a| ==> a[k] < n)
             && (forall k {:trigger b[k]} :: 0 <= k < |b| ==> b[k] < n)
    ensures Below(MapAll(at, a), MapAll(at, b))
  {
    if a != [] {
      if a[0] < b[0] {
        MapMonotone(at, n, a[0], b[0]);
      } else {
        BelowMapped(at, n, a[1..], b[1..]);
        assert MapAll(at, a)[1..] == MapAll(at, a[1..]);
        assert MapAll(at, b)[1..] == MapAll(at, b[1..]);
      }
    }
  }

  lemma MovedTypesSorted(was: Tables, at: seq<nat>)
    requires InRange(was) && Sorted(Keys(was.types, TypeKey)) && Places(at, |was.strings|) && |was.strings| <= NO_INDEX
    ensures Sorted(Keys(MapAll(at, was.types), TypeKey))
  {
    var a, b := Keys(was.types, TypeKey), Keys(MapAll(at, was.types), TypeKey);
    forall i, j | 0 <= i < j < |b| ensures Below(b[i], b[j]) {
      assert Below(a[i], a[j]);
      BelowMapped(at, |was.strings|, a[i], a[j]);
      assert MapAll(at, a[i]) == b[i] && MapAll(at, a[j]) == b[j];
    }
  }

  function MovedProtos(s: Shifts, table: seq<Proto>): (r: seq<Proto>)
    ensures |r| == |table| && forall i {:trigger r[i]} :: 0 <= i < |r| ==> r[i] == MovedProto(s, table[i])
  {
    seq(|table|, i requires 0 <= i < |table| => MovedProto(s, table[i]))
  }

  function MovedMethods(s: Shifts, table: seq<Method>): (r: seq<Method>)
    ensures |r| == |table| && forall i {:trigger r[i]} :: 0 <= i < |r| ==> r[i] == MovedMethod(s, table[i])
  {
    seq(|table|, i requires 0 <= i < |table| => MovedMethod(s, table[i]))
  }

  function MovedFields(s: Shifts, table: seq<Field>): (r: seq<Field>)
    ensures |r| == |table| && forall i {:trigger r[i]} :: 0 <= i < |r| ==> r[i] == MovedField(s, table[i])
  {
    seq(|table|, i requires 0 <= i < |table| => MovedField(s, table[i]))
  }

  lemma MovedProtosSorted(was: Tables, s: Shifts)
    requires InRange(was) && Small(was) && Sorted(Keys(was.protos, ProtoKey)) && Places(s.types, |was.types|)
    ensures Sorted(Keys(MovedProtos(s, was.protos), ProtoKey))
  {
    var a, b := Keys(was.protos, ProtoKey), Keys(MovedProtos(s, was.protos), ProtoKey);
    forall i, j | 0 <= i < j < |b| ensures Below(b[i], b[j]) {
      assert Below(a[i], a[j]);
      assert ProtoInRange(was, was.protos[i]) && ProtoInRange(was, was.protos[j]);
      BelowMapped(s.types, |was.types|, a[i], a[j]);
      assert MapAll(s.types, a[i]) == b[i] && MapAll(s.types, a[j]) == b[j];
    }
  }

  lemma Below3(a: nat, b: nat, c: nat, x: nat, y: nat, z: nat)
    ensures Below([a, b, c], [x, y, z]) <==> a < x || (a == x && (b < y || (b == y && c < z)))
  {
    assert [a, b, c][1..] == [b, c] && [x, y, z][1..] == [y, z];
    assert [b, c][1..] == [c] && [y, z][1..] == [z];
    assert [c][1..] == [] && [z][1..] == [];
    assert Below([c], [z]) <==> c < z;
    assert Below([b, c], [y, z]) <==> b < y || (b == y && c < z);
  }

  lemma MovedMethodsSorted(was: Tables, s: Shifts)
    requires InRange(was) && Small(was) && Sorted(Keys(was.methods, MethodKey)) && |was.strings| <= NO_INDEX
    requires Places(s.strings, |was.strings|) && Places(s.types, |was.types|) && Places(s.protos, |was.protos|)
    ensures Sorted(Keys(MovedMethods(s, was.methods), MethodKey))
  {
    var a, b := Keys(was.methods, MethodKey), Keys(MovedMethods(s, was.methods), MethodKey);
    forall i, j | 0 <= i < j < |b| ensures Below(b[i], b[j]) {
      assert Below(a[i], a[j]);
      MethodsBelow(was, s, was.methods[i], was.methods[j]);
    }
  }

  lemma MethodsBelow(was: Tables, s: Shifts, m: Method, o: Method)
    requires InRange(was) && Small(was) && Places(s.strings, |was.strings|) && Places(s.types, |was.types|)
             && Places(s.protos, |was.protos|)
    requires |was.strings| <= NO_INDEX
    requires m.holder < |was.types| && m.proto < |was.protos| && m.name < |was.strings|
    requires o.holder < |was.types| && o.proto < |was.protos| && o.name < |was.strings|
    requires Below(MethodKey(m), MethodKey(o))
    ensures Below(MethodKey(MovedMethod(s, m)), MethodKey(MovedMethod(s, o)))
  {
    Below3(m.holder, m.name, m.proto, o.holder, o.name, o.proto);
    if m.holder < o.holder {
      MapMonotone(s.types, |was.types|, m.holder, o.holder);
    } else if m.name < o.name {
      MapMonotone(s.strings, |was.strings|, m.name, o.name);
    } else {
      MapMonotone(s.protos, |was.protos|, m.proto, o.proto);
    }
    hide Map;
    Below3(Map(s.types, m.holder), Map(s.strings, m.name), Map(s.protos, m.proto),
           Map(s.types, o.holder), Map(s.strings, o.name), Map(s.protos, o.proto));
  }

  // ---- the strings ----

  /** Every text of every request is in the set. */
  ghost predicate HasTexts(all: seq<Key>, requests: seq<Request>) {
    forall r, t {:trigger r in requests, t in Texts(r)} :: r in requests && t in Texts(r) ==> t in all
  }

  method WantedTexts(requests: seq<Request>) returns (wanted: seq<Key>)
    ensures Sorted(wanted) && HasTexts(wanted, requests)
    ensures forall t {:trigger t in wanted} :: t in wanted ==> exists r :: r in requests && t in Texts(r)
  {
    wanted := [];
    var i := 0;
    while i < |requests|
      invariant i <= |requests| && Sorted(wanted) && HasTexts(wanted, requests[..i])
      invariant forall t {:trigger t in wanted} :: t in wanted ==> exists r :: r in requests && t in Texts(r)
    {
      assert requests[..i + 1] == requests[..i] + [requests[i]];
      assert requests[i] in requests;
      wanted := PutAll(wanted, Texts(requests[i]));
      i := i + 1;
    }
    assert requests[..i] == requests;
  }

  // ---- what a request's indices name, in the new tables ----

  /** `x` is the index of a type with that descriptor. */
  ghost predicate IsType(strings: seq<Key>, types: seq<nat>, x: nat, name: Key) {
    x < |types| && types[x] < |strings| && strings[types[x]] == name
  }

  ghost predicate AreTypes(strings: seq<Key>, types: seq<nat>, xs: seq<nat>, names: seq<Key>) {
    |xs| == |names| && forall k {:trigger xs[k]} {:trigger names[k]} ::
        0 <= k < |xs| ==> IsType(strings, types, xs[k], names[k])
  }

  ghost predicate AreStrings(strings: seq<Key>, xs: seq<nat>, names: seq<Key>) {
    |xs| == |names| && forall k {:trigger xs[k]} {:trigger names[k]} ::
        0 <= k < |xs| ==> xs[k] < |strings| && strings[xs[k]] == names[k]
  }

  /** A key of the old table or one of those added. */
  ghost predicate Available(keys: seq<Key>, ins: Insertion, key: Key) {
    key in keys || key in ins.added
  }

  method AddStrings(was: Tables, requests: seq<Request>) returns (ins: Insertion, strings: seq<Key>)
    requires Sorted(was.strings) && |was.strings| <= NO_INDEX
    ensures Fits(was.strings, ins) && IsMerge(strings, was.strings, ins.at, ins.added) && Sorted(strings)
    ensures forall r, t {:trigger r in requests, t in Texts(r)} ::
            r in requests && t in Texts(r) ==> Available(was.strings, ins, t)
    ensures forall t {:trigger t in ins.added} :: t in ins.added ==> exists r :: r in requests && t in Texts(r)
  {
    var wanted := WantedTexts(requests);
    ins := PlanTable(was.strings, wanted);
    FitsPlaces(was.strings, ins);
    strings := MergeByIndex(was.strings, ins.at, ins.added);
    MergedSorted(strings, was.strings, ins);
  }

  function MakeType(k: Key): nat {
    if |k| == 1 then k[0] else 0
  }

  ghost predicate DescribedBy(requests: seq<Request>, name: Key) {
    exists r :: r in requests && name in Descriptors(r)
  }

  /** The string indices of each request's descriptors, and the set of them. */
  method DescriptorStrings(was: Tables, ins: Insertion, requests: seq<Request>, ghost strings: seq<Key>)
    returns (ids: seq<seq<nat>>, wanted: seq<Key>)
    requires Sorted(was.strings) && Fits(was.strings, ins) && IsMerge(strings, was.strings, ins.at, ins.added)
    requires forall r, t {:trigger r in requests, t in Texts(r)} ::
             r in requests && t in Texts(r) ==> Available(was.strings, ins, t)
    ensures |ids| == |requests| && Sorted(wanted)
    ensures forall k {:trigger ids[k]} :: 0 <= k < |ids| ==> AreStrings(strings, ids[k], Descriptors(requests[k]))
    ensures forall k, x {:trigger x in ids[k]} :: 0 <= k < |ids| && x in ids[k] ==> TypeKey(x) in wanted
    ensures forall w {:trigger w in wanted} ::
            w in wanted ==> |w| == 1 && w[0] < |strings| && DescribedBy(requests, strings[w[0]])
  {
    hide DescribedBy, Descriptors, Texts, Sorted, Fits, IsMerge, TypeKey;
    ids, wanted := [], [];
    EmptySorted();
    while |ids| < |requests|
      invariant |ids| <= |requests| && Sorted(wanted)
      invariant forall k {:trigger ids[k]} :: 0 <= k < |ids| ==> AreStrings(strings, ids[k], Descriptors(requests[k]))
      invariant forall k, x {:trigger x in ids[k]} :: 0 <= k < |ids| && x in ids[k] ==> TypeKey(x) in wanted
      invariant forall w {:trigger w in wanted} ::
                w in wanted ==> |w| == 1 && w[0] < |strings| && DescribedBy(requests, strings[w[0]])
    {
      var r := requests[|ids|];
      assert r in requests;
      DescriptorsAreTexts(r);
      var xs := IndicesOf(was.strings, ins, Descriptors(r), strings);
      RowKeys(strings, requests, r, xs);
      wanted := PutAll(wanted, Keys(xs, TypeKey));
      ids := ids + [xs];
    }
  }

  lemma DescriptorsAreTexts(r: Request)
    ensures forall t {:trigger t in Descriptors(r)} :: t in Descriptors(r) ==> t in Texts(r)
  {
  }

  lemma RowKeys(strings: seq<Key>, requests: seq<Request>, r: Request, xs: seq<nat>)
    requires r in requests && AreStrings(strings, xs, Descriptors(r))
    ensures forall x {:trigger x in xs} :: x in xs ==> TypeKey(x) in Keys(xs, TypeKey)
    ensures forall w {:trigger w in Keys(xs, TypeKey)} ::
            w in Keys(xs, TypeKey) ==> |w| == 1 && w[0] < |strings| && DescribedBy(requests, strings[w[0]])
  {
    var keys := Keys(xs, TypeKey);
    forall x | x in xs ensures TypeKey(x) in keys {
      var i :| 0 <= i < |xs| && xs[i] == x;
      assert keys[i] == TypeKey(x);
    }
    forall w | w in keys ensures |w| == 1 && w[0] < |strings| && DescribedBy(requests, strings[w[0]]) {
      var i :| 0 <= i < |keys| && keys[i] == w;
      assert strings[xs[i]] == Descriptors(r)[i];
    }
  }

  /** The type table, and the type indices of each request's descriptors. */
  method AddTypes(was: Tables, texts: Insertion, strings: seq<Key>, requests: seq<Request>)
    returns (ins: Insertion, types: seq<nat>, xss: seq<seq<nat>>)
    requires InRange(was) && Small(was) && Ordered(was) && |was.strings| <= NO_INDEX
    requires Fits(was.strings, texts) && IsMerge(strings, was.strings, texts.at, texts.added)
    requires forall r, t {:trigger r in requests, t in Texts(r)} ::
             r in requests && t in Texts(r) ==> Available(was.strings, texts, t)
    ensures Extended(MapAll(texts.at, was.types), TypeKey, ins, MakeType, types)
    ensures forall x {:trigger types[x]} :: 0 <= x < |types| ==>
              types[x] < |strings|
                  && (types[x] in MapAll(texts.at, was.types) || DescribedBy(requests, strings[types[x]]))
    ensures |xss| == |requests|
    ensures forall k {:trigger xss[k]} :: 0 <= k < |xss| ==> AreTypes(strings, types, xss[k], Descriptors(requests[k]))
  {
    var table := MapAll(texts.at, was.types);
    FitsPlaces(was.strings, texts);
    MovedTypesSorted(was, texts.at);
    var ids, wanted := DescriptorStrings(was, texts, requests, strings);
    ins, types := Extend(table, TypeKey, wanted, MakeType);
    TypesInRange(was, texts, strings, ins, types, wanted, requests);
    hide DescribedBy;
    xss := [];
    while |xss| < |requests|
      invariant |xss| <= |requests|
      invariant forall k {:trigger xss[k]} ::
                0 <= k < |xss| ==> AreTypes(strings, types, xss[k], Descriptors(requests[k]))
    {
      var k := |xss|;
      var keys := Keys(ids[k], TypeKey);
      forall w | w in keys ensures w in Keys(table, TypeKey) || w in ins.added {
        var i :| 0 <= i < |keys| && keys[i] == w;
        assert ids[k][i] in ids[k];
      }
      var xs := IndicesOf(Keys(table, TypeKey), ins, keys, Keys(types, TypeKey));
      TypesNamed(strings, types, ids[k], xs, Descriptors(requests[k]));
      xss := xss + [xs];
    }
  }

  lemma TypesNamed(strings: seq<Key>, types: seq<nat>, ids: seq<nat>, xs: seq<nat>, names: seq<Key>)
    requires AreStrings(strings, ids, names) && |xs| == |ids|
    requires forall i {:trigger xs[i]} ::
             0 <= i < |xs| ==> xs[i] < |types| && Keys(types, TypeKey)[xs[i]] == Keys(ids, TypeKey)[i]
    ensures AreTypes(strings, types, xs, names)
  {
    forall i | 0 <= i < |xs| ensures IsType(strings, types, xs[i], names[i]) {
      assert TypeKey(types[xs[i]]) == TypeKey(ids[i]);
      assert TypeKey(ids[i])[0] == ids[i];
    }
  }

  lemma TypesInRange(was: Tables, texts: Insertion, strings: seq<Key>, ins: Insertion, types: seq<nat>,
      wanted: seq<Key>, requests: seq<Request>)
    requires InRange(was) && IsMerge(strings, was.strings, texts.at, texts.added)
    requires Extended(MapAll(texts.at, was.types), TypeKey, ins, MakeType, types)
    requires Supplies(Keys(MapAll(texts.at, was.types), TypeKey), wanted, ins)
    requires forall w {:trigger w in wanted} ::
             w in wanted ==> |w| == 1 && w[0] < |strings| && DescribedBy(requests, strings[w[0]])
    ensures forall x {:trigger types[x]} :: 0 <= x < |types| ==>
              types[x] < |strings|
                  && (types[x] in MapAll(texts.at, was.types) || DescribedBy(requests, strings[types[x]]))
  {
    hide DescribedBy;
    var table := MapAll(texts.at, was.types);
    forall x | 0 <= x < |types|
        ensures types[x] < |strings| && (types[x] in table || DescribedBy(requests, strings[types[x]])) {
      if types[x] in table {
        var i :| 0 <= i < |table| && table[i] == types[x];
        assert was.types[i] < |was.strings|;
      } else {
        var made := Made(ins.added, MakeType);
        var k :| 0 <= k < |made| && made[k] == types[x];
        assert ins.added[k] in ins.added;
      }
    }
  }

  // ---- the protos ----

  function NameAt(strings: seq<Key>, types: seq<nat>, x: nat): Key {
    if x < |types| && types[x] < |strings| then strings[types[x]] else []
  }

  function NamesAt(strings: seq<Key>, types: seq<nat>, xs: seq<nat>): seq<Key> {
    seq(|xs|, i requires 0 <= i < |xs| => NameAt(strings, types, xs[i]))
  }

  lemma NamesAre(strings: seq<Key>, types: seq<nat>, xs: seq<nat>, names: seq<Key>)
    requires AreTypes(strings, types, xs, names)
    ensures NamesAt(strings, types, xs) == names
  {
  }

  /** A proto whose parts are in range. */
  ghost predicate GoodProto(strings: seq<Key>, types: seq<nat>, p: Proto) {
    && p.shorty < |strings| && p.ret < |types|
    && (forall k {:trigger p.params[k]} :: 0 <= k < |p.params| ==> p.params[k] < |types|)
  }

  /** A proto whose shorty abbreviates its types. */
  ghost predicate FitShorty(strings: seq<Key>, types: seq<nat>, p: Proto) {
    && p.shorty < |strings|
    && strings[p.shorty] == Shorty(NameAt(strings, types, p.ret), NamesAt(strings, types, p.params))
  }

  function MakeProto(shorties: map<Key, nat>, k: Key): Proto {
    Proto(if k in shorties then shorties[k] else 0, if k == [] then 0 else k[0], if k == [] then [] else k[1..])
  }

  ghost predicate WellMade(strings: seq<Key>, types: seq<nat>, shorties: map<Key, nat>, k: Key) {
    var p := MakeProto(shorties, k);
    k != [] && k in shorties && GoodProto(strings, types, p) && FitShorty(strings, types, p)
  }

  lemma MadeKey(shorties: map<Key, nat>, k: Key)
    requires k != []
    ensures ProtoKey(MakeProto(shorties, k)) == k
  {
  }

  /** `key` is what some request's types make a proto's key. */
  ghost predicate FromRow(xss: seq<seq<nat>>, key: Key) {
    exists k {:trigger xss[k]} :: 0 <= k < |xss| && |xss[k]| >= 2 && xss[k][1..] == key
  }

  /** The keys of the protos the requests need, with the shorty each is to have. */
  method WantedProtos(was: Tables, texts: Insertion, strings: seq<Key>, types: seq<nat>, requests: seq<Request>,
      xss: seq<seq<nat>>)
    returns (wanted: seq<Key>, shorties: map<Key, nat>)
    requires Sorted(was.strings) && Fits(was.strings, texts) && IsMerge(strings, was.strings, texts.at, texts.added)
    requires forall r, t {:trigger r in requests, t in Texts(r)} ::
             r in requests && t in Texts(r) ==> Available(was.strings, texts, t)
    requires |xss| == |requests|
    requires forall k {:trigger xss[k]} :: 0 <= k < |xss| ==> AreTypes(strings, types, xss[k], Descriptors(requests[k]))
    ensures Sorted(wanted)
    ensures forall k {:trigger xss[k]} :: 0 <= k < |xss| ==> |xss[k]| >= 2 && xss[k][1..] in wanted
    ensures forall w {:trigger w in wanted} :: w in wanted ==> WellMade(strings, types, shorties, w) && FromRow(xss, w)
  {
    hide AreTypes, Sorted, Fits, IsMerge, WellMade, Below, Shorty;
    wanted, shorties := [], map[];
    EmptySorted();
    XssLong(strings, types, requests, xss);
    var k := 0;
    while k < |xss|
      invariant k <= |xss| && Sorted(wanted)
      invariant forall l {:trigger xss[l]} :: 0 <= l < k ==> |xss[l]| >= 2 && xss[l][1..] in wanted
      invariant forall w {:trigger w in wanted} ::
                w in wanted ==> WellMade(strings, types, shorties, w) && FromRow(xss, w)
    {
      var r := requests[k];
      var key := xss[k][1..];
      assert FromRow(xss, key);
      assert r in requests && Texts(r)[0] in Texts(r);
      assert Available(was.strings, texts, Shorty(r.ret, r.params));
      var shorty := IndexOf(was.strings, texts, Shorty(r.ret, r.params));
      ProtoMade(strings, types, r, xss[k], shorty, shorties);
      KeptOthers(strings, types, wanted, shorties, key, shorty);
      shorties := shorties[key := shorty];
      wanted := Put(wanted, key);
      k := k + 1;
    }
  }

  lemma EmptySorted()
    ensures Sorted([])
  {
  }

  lemma XssLong(strings: seq<Key>, types: seq<nat>, requests: seq<Request>, xss: seq<seq<nat>>)
    requires |xss| == |requests|
    requires forall k {:trigger xss[k]} :: 0 <= k < |xss| ==> AreTypes(strings, types, xss[k], Descriptors(requests[k]))
    ensures forall k {:trigger xss[k]} :: 0 <= k < |xss| ==> |xss[k]| >= 2
  {
  }

  lemma ProtoMade(strings: seq<Key>, types: seq<nat>, r: Request, xs: seq<nat>, shorty: nat, shorties: map<Key, nat>)
    requires AreTypes(strings, types, xs, Descriptors(r)) && shorty < |strings|
             && strings[shorty] == Shorty(r.ret, r.params)
    ensures |xs| >= 2 && WellMade(strings, types, shorties[xs[1..] := shorty], xs[1..])
  {
    var key := xs[1..];
    forall i | 0 <= i < |xs| ensures IsType(strings, types, xs[i], Descriptors(r)[i]) {
    }
    assert key[1..] == xs[2..];
    assert AreTypes(strings, types, xs[2..], r.params) by {
      forall i | 0 <= i < |r.params| ensures IsType(strings, types, xs[2..][i], r.params[i]) {
        assert IsType(strings, types, xs[i + 2], Descriptors(r)[i + 2]);
      }
    }
    NamesAre(strings, types, xs[2..], r.params);
    assert IsType(strings, types, xs[1], Descriptors(r)[1]);
    forall i | 0 <= i < |key[1..]| ensures key[1..][i] < |types| {
      assert IsType(strings, types, xs[2..][i], r.params[i]);
    }
  }

  lemma KeptOthers(strings: seq<Key>, types: seq<nat>, wanted: seq<Key>, shorties: map<Key, nat>, key: Key, shorty: nat)
    requires forall w {:trigger w in wanted} :: w in wanted ==> WellMade(strings, types, shorties, w)
    ensures forall w {:trigger w in wanted} ::
            w in wanted && w != key ==> WellMade(strings, types, shorties[key := shorty], w)
  {
    forall w | w in wanted && w != key ensures MakeProto(shorties[key := shorty], w) == MakeProto(shorties, w) {
    }
  }

  /** The proto table, and the proto index of each request. */
  method AddProtos(was: Tables, s: Shifts, texts: Insertion, strings: seq<Key>, types: seq<nat>, requests: seq<Request>,
      xss: seq<seq<nat>>)
    returns (ins: Insertion, protos: seq<Proto>, indices: seq<nat>)
    requires InRange(was) && Small(was) && Ordered(was) && s.strings == texts.at && Places(s.types, |was.types|)
    requires Fits(was.strings, texts) && IsMerge(strings, was.strings, texts.at, texts.added)
    requires HasOld(types, MapAll(s.strings, was.types), s.types, |was.types|)
    requires forall r, t {:trigger r in requests, t in Texts(r)} ::
             r in requests && t in Texts(r) ==> Available(was.strings, texts, t)
    requires |xss| == |requests|
    requires forall k {:trigger xss[k]} :: 0 <= k < |xss| ==> AreTypes(strings, types, xss[k], Descriptors(requests[k]))
    ensures Places(ins.at, |was.protos|) && |protos| == |was.protos| + |ins.at|
    ensures HasOld(protos, MovedProtos(s, was.protos), ins.at, |was.protos|) && Sorted(Keys(protos, ProtoKey))
    ensures forall x {:trigger protos[x]} :: 0 <= x < |protos| ==> GoodProto(strings, types, protos[x])
    ensures forall x {:trigger protos[x]} :: 0 <= x < |protos| && protos[x] !in MovedProtos(s, was.protos) ==>
              FitShorty(strings, types, protos[x]) && FromRow(xss, ProtoKey(protos[x]))
    ensures |indices| == |requests|
    ensures forall k {:trigger indices[k]} {:trigger xss[k]} :: 0 <= k < |indices| ==>
              indices[k] < |protos| && |xss[k]| >= 2 && ProtoKey(protos[indices[k]]) == xss[k][1..]
  {
    hide InRange, Ordered, AreTypes, HasOld, HasNew, Below, GoodProto, FitShorty, ProtoKey, Available, Sorted, Fits,
         Places, WellMade, FromRow;
    var table := MovedProtos(s, was.protos);
    MovedProtosOrdered(was, s);
    var wanted, shorties := WantedProtos(was, texts, strings, types, requests, xss);
    var make := k => MakeProto(shorties, k);
    WellMadeKeys(strings, types, wanted, shorties);
    ins, protos := Extend(table, ProtoKey, wanted, make);
    FitsPlaces(Keys(table, ProtoKey), ins);
    ProtosGood(was, s, texts, strings, types, ins, protos, wanted, shorties, make, xss);
    FitsLength(Keys(table, ProtoKey), ins);
    indices := [];
    while |indices| < |requests|
      invariant |indices| <= |requests|
      invariant forall k {:trigger indices[k]} {:trigger xss[k]} :: 0 <= k < |indices| ==>
                  indices[k] < |protos| && |xss[k]| >= 2 && ProtoKey(protos[indices[k]]) == xss[k][1..]
    {
      var key := xss[|indices|][1..];
      assert key in wanted;
      var x := IndexOf(Keys(table, ProtoKey), ins, key);
      assert Keys(protos, ProtoKey)[x] == key;
      indices := indices + [x];
    }
  }

  lemma MovedProtosOrdered(was: Tables, s: Shifts)
    requires InRange(was) && Small(was) && Ordered(was) && Places(s.types, |was.types|)
    ensures Sorted(Keys(MovedProtos(s, was.protos), ProtoKey)) && |was.protos| <= NO_INDEX && Sorted(was.strings)
  {
    MovedProtosSorted(was, s);
  }

  lemma WellMadeKeys(strings: seq<Key>, types: seq<nat>, wanted: seq<Key>, shorties: map<Key, nat>)
    requires forall w {:trigger w in wanted} :: w in wanted ==> WellMade(strings, types, shorties, w)
    ensures forall k {:trigger MakeProto(shorties, k)} :: k in wanted ==> ProtoKey(MakeProto(shorties, k)) == k
  {
    forall k | k in wanted ensures ProtoKey(MakeProto(shorties, k)) == k {
      assert WellMade(strings, types, shorties, k);
      MadeKey(shorties, k);
    }
  }

  lemma FitsLength(keys: seq<Key>, ins: Insertion)
    requires Fits(keys, ins)
    ensures |ins.at| == |ins.added|
  {
  }

  lemma ProtosGood(was: Tables, s: Shifts, texts: Insertion, strings: seq<Key>, types: seq<nat>, ins: Insertion,
                   protos: seq<Proto>, wanted: seq<Key>, shorties: map<Key, nat>, make: Key -> Proto,
                       xss: seq<seq<nat>>)
    requires InRange(was) && s.strings == texts.at && IsMerge(strings, was.strings, texts.at, texts.added)
    requires HasOld(types, MapAll(s.strings, was.types), s.types, |was.types|)
    requires Extended(MovedProtos(s, was.protos), ProtoKey, ins, make, protos)
    requires Supplies(Keys(MovedProtos(s, was.protos), ProtoKey), wanted, ins)
    requires forall k {:trigger make(k)} :: make(k) == MakeProto(shorties, k)
    requires forall w {:trigger w in wanted} :: w in wanted ==> WellMade(strings, types, shorties, w) && FromRow(xss, w)
    ensures forall x {:trigger protos[x]} :: 0 <= x < |protos| ==> GoodProto(strings, types, protos[x])
    ensures forall x {:trigger protos[x]} :: 0 <= x < |protos| && protos[x] !in MovedProtos(s, was.protos) ==>
              FitShorty(strings, types, protos[x]) && FromRow(xss, ProtoKey(protos[x]))
  {
    hide FromRow;
    var table := MovedProtos(s, was.protos);
    forall x | 0 <= x < |protos|
      ensures GoodProto(strings, types, protos[x])
              && (protos[x] !in table ==> FitShorty(strings, types, protos[x]) && FromRow(xss, ProtoKey(protos[x])))
    {
      if protos[x] in table {
        var i :| 0 <= i < |table| && table[i] == protos[x];
        MovedGood(was, s, texts, strings, types, was.protos[i]);
      } else {
        var made := Made(ins.added, make);
        var k :| 0 <= k < |made| && made[k] == protos[x];
        assert ins.added[k] in ins.added;
        assert make(ins.added[k]) == MakeProto(shorties, ins.added[k]);
        MadeKey(shorties, ins.added[k]);
      }
    }
  }

  lemma MovedGood(was: Tables, s: Shifts, texts: Insertion, strings: seq<Key>, types: seq<nat>, p: Proto)
    requires InRange(was) && s.strings == texts.at && IsMerge(strings, was.strings, texts.at, texts.added)
    requires HasOld(types, MapAll(s.strings, was.types), s.types, |was.types|) && ProtoInRange(was, p)
    ensures GoodProto(strings, types, MovedProto(s, p))
  {
    assert Map(s.types, p.ret) < |types|;
    forall k | 0 <= k < |p.params| ensures MovedProto(s, p).params[k] < |types| {
      assert p.params[k] < |was.types|;
    }
  }

  // ---- the methods ----

  function MakeMethod(k: Key): Method {
    if |k| == 3 then Method(k[0], k[2], k[1]) else Method(0, 0, 0)
  }

  ghost predicate GoodMethod(strings: seq<Key>, types: seq<nat>, protos: seq<Proto>, m: Method) {
    m.holder < |types| && m.proto < |protos| && m.name < |strings|
  }

  /** Method `m` has the holder, name and proto asked for. */
  ghost predicate Asked(strings: seq<Key>, r: Request, holder: nat, proto: nat, m: Method) {
    m.holder == holder && m.proto == proto && m.name < |strings| && strings[m.name] == r.name
  }

  method MethodKeys(was: Tables, texts: Insertion, strings: seq<Key>, types: seq<nat>, protos: seq<Proto>,
      requests: seq<Request>,
                    xss: seq<seq<nat>>, ps: seq<nat>)
    returns (keys: seq<Key>, wanted: seq<Key>)
    requires Sorted(was.strings) && Fits(was.strings, texts) && IsMerge(strings, was.strings, texts.at, texts.added)
    requires forall r, t {:trigger r in requests, t in Texts(r)} ::
             r in requests && t in Texts(r) ==> Available(was.strings, texts, t)
    requires |xss| == |requests| == |ps|
    requires forall k {:trigger xss[k]} :: 0 <= k < |xss| ==> AreTypes(strings, types, xss[k], Descriptors(requests[k]))
    requires forall k {:trigger ps[k]} :: 0 <= k < |ps| ==> ps[k] < |protos|
    ensures |keys| == |requests| && Sorted(wanted)
    ensures forall k {:trigger keys[k]} {:trigger xss[k]} :: 0 <= k < |keys| ==>
              keys[k] in wanted && |xss[k]| >= 1 && Asked(strings, requests[k], xss[k][0], ps[k], MakeMethod(keys[k]))
    ensures forall w {:trigger w in wanted} ::
            w in wanted ==> |w| == 3 && GoodMethod(strings, types, protos, MakeMethod(w)) && w in keys
  {
    hide AreTypes, Sorted, Fits, IsMerge, Below;
    keys, wanted := [], [];
    EmptySorted();
    while |keys| < |requests|
      invariant |keys| <= |requests| && Sorted(wanted)
      invariant forall k {:trigger keys[k]} {:trigger xss[k]} :: 0 <= k < |keys| ==>
                  keys[k] in wanted && |xss[k]| >= 1
                      && Asked(strings, requests[k], xss[k][0], ps[k], MakeMethod(keys[k]))
      invariant forall w {:trigger w in wanted} ::
                w in wanted ==> |w| == 3 && GoodMethod(strings, types, protos, MakeMethod(w)) && w in keys
    {
      var k := |keys|;
      var r := requests[k];
      assert r in requests && Texts(r)[1] in Texts(r);
      var name := IndexOf(was.strings, texts, r.name);
      HolderIs(strings, types, xss[k], r);
      var key := [xss[k][0], name, ps[k]];
      wanted := Put(wanted, key);
      keys := keys + [key];
    }
  }

  lemma HolderIs(strings: seq<Key>, types: seq<nat>, xs: seq<nat>, r: Request)
    requires AreTypes(strings, types, xs, Descriptors(r))
    ensures |xs| >= 1 && IsType(strings, types, xs[0], r.holder)
  {
    assert IsType(strings, types, xs[0], Descriptors(r)[0]);
  }

  /** `m` is one of the methods at `indices`. */
  ghost predicate AmongAsked(methods: seq<Method>, indices: seq<nat>, m: Method) {
    exists k {:trigger indices[k]} :: 0 <= k < |indices| && indices[k] < |methods| && methods[indices[k]] == m
  }

  /** The method table, and the index of each method asked for. */
  method AddMethodIds(was: Tables, s: Shifts, texts: Insertion, strings: seq<Key>, types: seq<nat>, protos: seq<Proto>,
                      requests: seq<Request>, xss: seq<seq<nat>>, ps: seq<nat>)
    returns (ins: Insertion, methods: seq<Method>, indices: seq<nat>)
    requires InRange(was) && Small(was) && Ordered(was) && |was.strings| <= NO_INDEX && s.strings == texts.at
    requires Places(s.types, |was.types|) && Places(s.protos, |was.protos|)
    requires Fits(was.strings, texts) && IsMerge(strings, was.strings, texts.at, texts.added)
    requires HasOld(types, MapAll(s.strings, was.types), s.types, |was.types|)
    requires HasOld(protos, MovedProtos(s, was.protos), s.protos, |was.protos|)
    requires forall r, t {:trigger r in requests, t in Texts(r)} ::
             r in requests && t in Texts(r) ==> Available(was.strings, texts, t)
    requires |xss| == |requests| == |ps|
    requires forall k {:trigger xss[k]} :: 0 <= k < |xss| ==> AreTypes(strings, types, xss[k], Descriptors(requests[k]))
    requires forall k {:trigger ps[k]} :: 0 <= k < |ps| ==> ps[k] < |protos|
    ensures Places(ins.at, |was.methods|) && |methods| == |was.methods| + |ins.at|
    ensures HasOld(methods, MovedMethods(s, was.methods), ins.at, |was.methods|) && Sorted(Keys(methods, MethodKey))
    ensures forall x {:trigger methods[x]} :: 0 <= x < |methods| ==> GoodMethod(strings, types, protos, methods[x])
    ensures |indices| == |requests|
    ensures forall k {:trigger indices[k]} {:trigger xss[k]} :: 0 <= k < |indices| ==>
              indices[k] < |methods| && |xss[k]| >= 1
                  && Asked(strings, requests[k], xss[k][0], ps[k], methods[indices[k]])
    ensures forall x {:trigger methods[x]} ::
            0 <= x < |methods| ==>
                methods[x] in MovedMethods(s, was.methods) || AmongAsked(methods, indices, methods[x])
  {
    hide InRange, Ordered, AreTypes, HasOld, HasNew, Below, GoodMethod, MethodKey, MakeMethod, Available, Sorted, Fits,
         Places, Asked;
    var table := MovedMethods(s, was.methods);
    MovedMethodsOrdered(was, s, texts);
    var keys, wanted := MethodKeys(was, texts, strings, types, protos, requests, xss, ps);
    MethodMakeKeys(wanted);
    ins, methods := Extend(table, MethodKey, wanted, MakeMethod);
    FitsPlaces(Keys(table, MethodKey), ins);
    FitsLength(Keys(table, MethodKey), ins);
    MethodsGood(was, s, texts, strings, types, protos, ins, methods, wanted);
    indices := [];
    while |indices| < |requests|
      invariant |indices| <= |requests|
      invariant forall k {:trigger indices[k]} {:trigger xss[k]} :: 0 <= k < |indices| ==>
                  indices[k] < |methods| && |xss[k]| >= 1
                      && Asked(strings, requests[k], xss[k][0], ps[k], methods[indices[k]])
      invariant forall k {:trigger indices[k]} {:trigger keys[k]} ::
                0 <= k < |indices| ==> methods[indices[k]] == MakeMethod(keys[k])
    {
      var k := |indices|;
      assert keys[k] in wanted;
      var x := IndexOf(Keys(table, MethodKey), ins, keys[k]);
      assert Keys(methods, MethodKey)[x] == keys[k];
      MethodOfKey(methods[x], keys[k]);
      indices := indices + [x];
    }
    NothingUnasked(table, ins, methods, wanted, keys, indices);
  }

  lemma NothingUnasked(table: seq<Method>, ins: Insertion, methods: seq<Method>, wanted: seq<Key>, keys: seq<Key>,
      indices: seq<nat>)
    requires Extended(table, MethodKey, ins, MakeMethod, methods) && Supplies(Keys(table, MethodKey), wanted, ins)
    requires (forall w {:trigger w in wanted} :: w in wanted ==> w in keys) && |indices| == |keys|
    requires forall k {:trigger indices[k]} {:trigger keys[k]} ::
             0 <= k < |indices| ==> indices[k] < |methods| && methods[indices[k]] == MakeMethod(keys[k])
    ensures forall x {:trigger methods[x]} ::
            0 <= x < |methods| ==> methods[x] in table || AmongAsked(methods, indices, methods[x])
  {
    hide Extended, Supplies, MakeMethod, MethodKey;
    forall x | 0 <= x < |methods| ensures methods[x] in table || AmongAsked(methods, indices, methods[x]) {
      OldOrWanted(table, ins, methods, wanted, x);
      if methods[x] !in table {
        var w :| w in wanted && methods[x] == MakeMethod(w);
        var k :| 0 <= k < |keys| && keys[k] == w;
        assert methods[indices[k]] == methods[x];
      }
    }
  }

  lemma MethodOfKey(m: Method, k: Key)
    requires MethodKey(m) == k
    ensures m == MakeMethod(k)
  {
    assert k[0] == m.holder && k[1] == m.name && k[2] == m.proto;
  }

  lemma MethodMakeKeys(wanted: seq<Key>)
    requires forall w {:trigger w in wanted} :: w in wanted ==> |w| == 3
    ensures forall k {:trigger MakeMethod(k)} :: k in wanted ==> MethodKey(MakeMethod(k)) == k
  {
  }

  lemma MovedMethodsOrdered(was: Tables, s: Shifts, texts: Insertion)
    requires InRange(was) && Small(was) && Ordered(was) && |was.strings| <= NO_INDEX && s.strings == texts.at
             && Fits(was.strings, texts)
    requires Places(s.types, |was.types|) && Places(s.protos, |was.protos|)
    ensures Sorted(Keys(MovedMethods(s, was.methods), MethodKey)) && |was.methods| <= NO_INDEX && Sorted(was.strings)
  {
    FitsPlaces(was.strings, texts);
    MovedMethodsSorted(was, s);
  }

  lemma MethodsGood(was: Tables, s: Shifts, texts: Insertion, strings: seq<Key>, types: seq<nat>, protos: seq<Proto>,
      ins: Insertion,
                    methods: seq<Method>, wanted: seq<Key>)
    requires InRange(was) && s.strings == texts.at && IsMerge(strings, was.strings, texts.at, texts.added)
    requires HasOld(types, MapAll(s.strings, was.types), s.types, |was.types|)
    requires HasOld(protos, MovedProtos(s, was.protos), s.protos, |was.protos|)
    requires Extended(MovedMethods(s, was.methods), MethodKey, ins, MakeMethod, methods)
    requires Supplies(Keys(MovedMethods(s, was.methods), MethodKey), wanted, ins)
    requires forall w {:trigger w in wanted} ::
             w in wanted ==> |w| == 3 && GoodMethod(strings, types, protos, MakeMethod(w))
    ensures forall x {:trigger methods[x]} :: 0 <= x < |methods| ==> GoodMethod(strings, types, protos, methods[x])
  {
    hide *;
    var table := MovedMethods(s, was.methods);
    forall x | 0 <= x < |methods| ensures GoodMethod(strings, types, protos, methods[x]) {
      OldOrWanted(table, ins, methods, wanted, x);
      if methods[x] in table {
        var i :| 0 <= i < |table| && table[i] == methods[x];
        MovedMethodGood(was, s, texts, strings, types, protos, i);
      }
    }
  }

  lemma OldOrWanted(table: seq<Method>, ins: Insertion, methods: seq<Method>, wanted: seq<Key>, x: nat)
    requires Extended(table, MethodKey, ins, MakeMethod, methods) && Supplies(Keys(table, MethodKey), wanted, ins)
             && x < |methods|
    ensures methods[x] in table || exists w {:trigger MakeMethod(w)} :: w in wanted && methods[x] == MakeMethod(w)
  {
    hide IsMerge, Fits, Sorted, MakeMethod;
    if methods[x] !in table {
      var made := Made(ins.added, MakeMethod);
      var k :| 0 <= k < |made| && made[k] == methods[x];
      assert ins.added[k] in ins.added;
    }
  }

  lemma MovedMethodGood(was: Tables, s: Shifts, texts: Insertion, strings: seq<Key>, types: seq<nat>,
      protos: seq<Proto>, i: nat)
    requires InRange(was) && s.strings == texts.at && IsMerge(strings, was.strings, texts.at, texts.added)
    requires HasOld(types, MapAll(s.strings, was.types), s.types, |was.types|)
    requires HasOld(protos, MovedProtos(s, was.protos), s.protos, |was.protos|) && i < |was.methods|
    ensures GoodMethod(strings, types, protos, MovedMethod(s, was.methods[i]))
  {
    var m := was.methods[i];
    assert Map(s.types, m.holder) < |types| && Map(s.protos, m.proto) < |protos| && Map(s.strings, m.name) < |strings|;
  }

  // ---- all of it ----

  /** Method `i` is the one asked for. */
  ghost predicate Answers(t: Tables, i: nat, r: Request)
    requires InRange(t)
  {
    && i < |t.methods|
    && (var m := MethodOf(t, i);
        m.holder == r.holder && m.name == r.name && m.sig.ret == r.ret && m.sig.params == r.params)
  }

  /** Every proto's shorty abbreviates its types. */
  ghost predicate WellAbbreviated(t: Tables) {
    forall i {:trigger t.protos[i]} :: 0 <= i < |t.protos| ==> FitShorty(t.strings, t.types, t.protos[i])
  }

  lemma ResultInRange(was: Tables, s: Shifts, texts: Insertion, now: Tables)
    requires InRange(was) && s.strings == texts.at && IsMerge(now.strings, was.strings, texts.at, texts.added)
    requires HasOld(now.types, MapAll(s.strings, was.types), s.types, |was.types|)
    requires forall x {:trigger now.types[x]} :: 0 <= x < |now.types| ==> now.types[x] < |now.strings|
    requires forall x {:trigger now.protos[x]} ::
             0 <= x < |now.protos| ==> GoodProto(now.strings, now.types, now.protos[x])
    requires forall x {:trigger now.methods[x]} ::
             0 <= x < |now.methods| ==> GoodMethod(now.strings, now.types, now.protos, now.methods[x])
    requires now.fields == MovedFields(s, was.fields)
    ensures InRange(now)
  {
    forall i | 0 <= i < |now.protos| ensures ProtoInRange(now, now.protos[i]) {
      assert GoodProto(now.strings, now.types, now.protos[i]);
    }
    forall i | 0 <= i < |now.fields|
      ensures now.fields[i].holder < |now.types| && now.fields[i].typ < |now.types|
              && now.fields[i].name < |now.strings|
    {
      var f := was.fields[i];
      assert f.holder < |was.types| && f.typ < |was.types| && f.name < |was.strings|;
      assert Map(s.types, f.holder) < |now.types| && Map(s.types, f.typ) < |now.types|
             && Map(s.strings, f.name) < |now.strings|;
    }
    forall i | 0 <= i < |now.methods|
      ensures now.methods[i].holder < |now.types| && now.methods[i].proto < |now.protos|
              && now.methods[i].name < |now.strings|
    {
      assert GoodMethod(now.strings, now.types, now.protos, now.methods[i]);
    }
  }

  lemma ResultMoved(was: Tables, s: Shifts, texts: Insertion, now: Tables)
    requires s.strings == texts.at && IsMerge(now.strings, was.strings, texts.at, texts.added)
    requires HasOld(now.types, MapAll(s.strings, was.types), s.types, |was.types|)
    requires HasOld(now.protos, MovedProtos(s, was.protos), s.protos, |was.protos|)
    requires HasOld(now.methods, MovedMethods(s, was.methods), s.methods, |was.methods|)
    requires now.fields == MovedFields(s, was.fields)
    ensures Moved(was, s, now)
  {
    hide Map, MovedProto, MovedField, MovedMethod;
    forall i | 0 <= i < |was.types|
        ensures Map(s.types, i) < |now.types| && now.types[Map(s.types, i)] == Map(s.strings, was.types[i]) {
      assert MapAll(s.strings, was.types)[i] == Map(s.strings, was.types[i]);
    }
    forall i | 0 <= i < |was.protos|
        ensures Map(s.protos, i) < |now.protos| && now.protos[Map(s.protos, i)] == MovedProto(s, was.protos[i]) {
      assert MovedProtos(s, was.protos)[i] == MovedProto(s, was.protos[i]);
    }
    forall i | 0 <= i < |was.methods|
        ensures Map(s.methods, i) < |now.methods| && now.methods[Map(s.methods, i)] == MovedMethod(s, was.methods[i]) {
      assert MovedMethods(s, was.methods)[i] == MovedMethod(s, was.methods[i]);
    }
    forall i | 0 <= i < |was.fields| ensures now.fields[i] == MovedField(s, was.fields[i]) {
      assert MovedFields(s, was.fields)[i] == MovedField(s, was.fields[i]);
    }
  }

  /** A proto with the key a request's types make has the request's types. */
  lemma AskedSig(now: Tables, r: Request, xs: seq<nat>, p: nat)
    requires InRange(now) && AreTypes(now.strings, now.types, xs, Descriptors(r)) && |xs| >= 2
    requires p < |now.protos| && ProtoKey(now.protos[p]) == xs[1..]
    ensures SigOf(now, p) == Sig(r.ret, r.params)
  {
    var proto := now.protos[p];
    assert ProtoInRange(now, proto);
    assert proto.ret == ProtoKey(proto)[0] && proto.params == ProtoKey(proto)[1..];
    assert xs[1..][0] == xs[1] && xs[1..][1..] == xs[2..];
    assert IsType(now.strings, now.types, xs[1], Descriptors(r)[1]);
    forall k | 0 <= k < |r.params|
        ensures proto.params[k] < |now.types| && TypeName(now, proto.params[k]) == r.params[k] {
      assert IsType(now.strings, now.types, xs[k + 2], Descriptors(r)[k + 2]);
    }
    assert TypeNames(now, proto.params) == r.params;
  }

  lemma ResultAnswers(now: Tables, r: Request, xs: seq<nat>, p: nat, i: nat)
    requires InRange(now) && AreTypes(now.strings, now.types, xs, Descriptors(r)) && |xs| >= 2
    requires p < |now.protos| && ProtoKey(now.protos[p]) == xs[1..]
    requires i < |now.methods| && Asked(now.strings, r, xs[0], p, now.methods[i])
    ensures Answers(now, i, r)
  {
    HolderIs(now.strings, now.types, xs, r);
    AskedSig(now, r, xs, p);
  }

  lemma MovedAbbreviated(was: Tables, s: Shifts, now: Tables, i: nat)
    requires InRange(was) && InRange(now) && Moved(was, s, now) && i < |was.protos|
    requires FitShorty(was.strings, was.types, was.protos[i])
    ensures FitShorty(now.strings, now.types, MovedProto(s, was.protos[i]))
  {
    var p := was.protos[i];
    var q := MovedProto(s, p);
    ProtoKept(was, s, now, i);
    assert ProtoInRange(was, p) && ProtoInRange(now, now.protos[Map(s.protos, i)]);
    assert now.protos[Map(s.protos, i)] == q;
    assert NamesAt(was.strings, was.types, p.params) == TypeNames(was, p.params);
    assert NamesAt(now.strings, now.types, q.params) == TypeNames(now, q.params);
  }

  lemma ResultAbbreviated(was: Tables, s: Shifts, now: Tables)
    requires InRange(was) && InRange(now) && Moved(was, s, now) && WellAbbreviated(was)
    requires forall x {:trigger now.protos[x]} ::
             0 <= x < |now.protos| && now.protos[x] !in MovedProtos(s, was.protos) ==>
                 FitShorty(now.strings, now.types, now.protos[x])
    ensures WellAbbreviated(now)
  {
    hide InRange, Moved, FitShorty;
    forall x | 0 <= x < |now.protos| ensures FitShorty(now.strings, now.types, now.protos[x]) {
      var table := MovedProtos(s, was.protos);
      if now.protos[x] in table {
        var i :| 0 <= i < |table| && table[i] == now.protos[x];
        MovedAbbreviated(was, s, now, i);
      }
    }
  }

  // ---- nothing else is added ----

  ghost function WantedTypes(requests: seq<Request>): set<Key> {
    set r, t | r in requests && t in Descriptors(r) :: t
  }

  ghost function WantedSigs(requests: seq<Request>): set<Sig> {
    set r | r in requests :: Sig(r.ret, r.params)
  }

  ghost function WantedNamed(requests: seq<Request>): set<Named> {
    set r | r in requests :: Named(r.holder, r.name, Sig(r.ret, r.params))
  }

  /** What the types, protos and methods are to name: the old ones and those asked for. */
  ghost function AllTypes(was: Tables, requests: seq<Request>): set<Key>
    requires InRange(was)
  {
    Elements(TypeList(was)) + WantedTypes(requests)
  }

  ghost function AllSigs(was: Tables, requests: seq<Request>): set<Sig>
    requires InRange(was)
  {
    Elements(SigList(was)) + WantedSigs(requests)
  }

  ghost function AllNamed(was: Tables, requests: seq<Request>): set<Named>
    requires InRange(was)
  {
    Elements(NamedList(was)) + WantedNamed(requests)
  }

  ghost function WantedStrings(requests: seq<Request>): set<Key> {
    set r, t | r in requests && t in Texts(r) :: t
  }

  /** The tables name exactly the old entries and those asked for. */
  ghost predicate Exact(was: Tables, requests: seq<Request>, now: Tables)
    requires InRange(was) && InRange(now)
  {
    && Elements(now.strings) == Elements(was.strings) + WantedStrings(requests)
    && Elements(TypeList(now)) == AllTypes(was, requests) && Elements(SigList(now)) == AllSigs(was, requests)
    && Elements(NamedList(now)) == AllNamed(was, requests)
  }

  /** How long the tables have to be. */
  lemma ExactSizes(was: Tables, requests: seq<Request>, now: Tables)
    requires InRange(was) && InRange(now) && Ordered(now) && Exact(was, requests, now)
    ensures |now.types| == |AllTypes(was, requests)| && |now.protos| == |AllSigs(was, requests)|
            && |now.methods| == |AllNamed(was, requests)|
  {
    hide InRange, Ordered, TypeList, SigList, NamedList;
    Sizes(now);
  }

  lemma StringsExact(was: seq<Key>, strings: seq<Key>, ins: Insertion, requests: seq<Request>)
    requires Fits(was, ins) && IsMerge(strings, was, ins.at, ins.added) && |was| <= NO_INDEX
    requires forall r, t {:trigger r in requests, t in Texts(r)} ::
             r in requests && t in Texts(r) ==> Available(was, ins, t)
    requires forall t {:trigger t in ins.added} :: t in ins.added ==> exists r :: r in requests && t in Texts(r)
    ensures Elements(strings) == Elements(was) + WantedStrings(requests)
  {
    FitsPlaces(was, ins);
    MergedFrom(strings, was, ins.at, ins.added);
    hide Texts, Map, NewIndex;
    forall t | t in was ensures t in strings {
      var i :| 0 <= i < |was| && was[i] == t;
      assert strings[Map(ins.at, i)] == t;
    }
    forall t | t in ins.added ensures t in strings {
      var k :| 0 <= k < |ins.added| && ins.added[k] == t;
      assert strings[NewIndex(ins.at, k)] == t;
    }
  }

  lemma TypesExact(was: Tables, s: Shifts, now: Tables, requests: seq<Request>, xss: seq<seq<nat>>)
    requires InRange(was) && InRange(now) && Moved(was, s, now) && |xss| == |requests|
    requires forall k {:trigger xss[k]} ::
             0 <= k < |xss| ==> AreTypes(now.strings, now.types, xss[k], Descriptors(requests[k]))
    requires forall x {:trigger now.types[x]} :: 0 <= x < |now.types| ==>
               now.types[x] < |now.strings|
                   && (now.types[x] in MapAll(s.strings, was.types) || DescribedBy(requests, now.strings[now.types[x]]))
    ensures Elements(TypeList(now)) == AllTypes(was, requests)
  {
    OldStillNamed(was, s, now);
    forall t | t in TypeList(now) ensures t in AllTypes(was, requests) {
      var x :| 0 <= x < |now.types| && TypeList(now)[x] == t;
      TypeFrom(was, s, now, requests, x);
    }
    hide InRange, Moved;
    forall t | t in WantedTypes(requests) ensures t in TypeList(now) {
      var r :| r in requests && t in Descriptors(r);
      var k :| 0 <= k < |requests| && requests[k] == r;
      var i :| 0 <= i < |Descriptors(r)| && Descriptors(r)[i] == t;
      assert IsType(now.strings, now.types, xss[k][i], t);
      assert TypeList(now)[xss[k][i]] == t;
    }
  }

  lemma TypeFrom(was: Tables, s: Shifts, now: Tables, requests: seq<Request>, x: nat)
    requires InRange(was) && InRange(now) && Moved(was, s, now) && x < |now.types|
    requires now.types[x] in MapAll(s.strings, was.types) || DescribedBy(requests, TypeName(now, x))
    ensures TypeName(now, x) in AllTypes(was, requests)
  {
    hide Map;
    var table := MapAll(s.strings, was.types);
    if now.types[x] in table {
      var i :| 0 <= i < |table| && table[i] == now.types[x];
      TypeKept(was, s, now, i);
      assert now.types[Map(s.types, i)] == now.types[x];
      assert TypeList(was)[i] == TypeName(now, x);
    }
  }

  lemma SigsExact(was: Tables, s: Shifts, now: Tables, requests: seq<Request>, xss: seq<seq<nat>>, ps: seq<nat>)
    requires InRange(was) && InRange(now) && Moved(was, s, now) && |xss| == |requests| == |ps|
    requires forall k {:trigger xss[k]} ::
             0 <= k < |xss| ==> AreTypes(now.strings, now.types, xss[k], Descriptors(requests[k]))
    requires forall k {:trigger ps[k]} {:trigger xss[k]} ::
             0 <= k < |ps| ==> ps[k] < |now.protos| && |xss[k]| >= 2 && ProtoKey(now.protos[ps[k]]) == xss[k][1..]
    requires forall x {:trigger now.protos[x]} ::
             0 <= x < |now.protos| && now.protos[x] !in MovedProtos(s, was.protos) ==>
                 FromRow(xss, ProtoKey(now.protos[x]))
    ensures Elements(SigList(now)) == AllSigs(was, requests)
  {
    hide InRange, Moved, AreTypes, SigOf, FromRow, ProtoKey, MovedProtos;
    OldStillNamed(was, s, now);
    forall g | g in SigList(now) ensures g in AllSigs(was, requests) {
      var x :| 0 <= x < |now.protos| && SigList(now)[x] == g;
      SigFrom(was, s, now, requests, xss, x);
    }
    forall g | g in WantedSigs(requests) ensures g in SigList(now) {
      var r :| r in requests && g == Sig(r.ret, r.params);
      var k :| 0 <= k < |requests| && requests[k] == r;
      AskedSig(now, r, xss[k], ps[k]);
      assert SigList(now)[ps[k]] == g;
    }
  }

  lemma SigFrom(was: Tables, s: Shifts, now: Tables, requests: seq<Request>, xss: seq<seq<nat>>, x: nat)
    requires InRange(was) && InRange(now) && Moved(was, s, now) && |xss| == |requests| && x < |now.protos|
    requires forall k {:trigger xss[k]} ::
             0 <= k < |xss| ==> AreTypes(now.strings, now.types, xss[k], Descriptors(requests[k]))
    requires now.protos[x] in MovedProtos(s, was.protos) || FromRow(xss, ProtoKey(now.protos[x]))
    ensures SigOf(now, x) in AllSigs(was, requests)
  {
    hide InRange, Map, AreTypes, TypeName, TypeNames, ProtoKey;
    var table := MovedProtos(s, was.protos);
    if now.protos[x] in table {
      var i :| 0 <= i < |table| && table[i] == now.protos[x];
      ProtoKept(was, s, now, i);
      assert now.protos[Map(s.protos, i)] == now.protos[x];
      assert SigList(was)[i] == SigOf(now, x);
    } else {
      var k :| 0 <= k < |xss| && |xss[k]| >= 2 && xss[k][1..] == ProtoKey(now.protos[x]);
      AskedSig(now, requests[k], xss[k], x);
      assert requests[k] in requests;
    }
  }

  lemma AnsweredNamed(now: Tables, i: nat, r: Request)
    requires InRange(now) && Answers(now, i, r)
    ensures NamedOf(now, i) == Named(r.holder, r.name, Sig(r.ret, r.params))
  {
  }

  lemma NamedExact(was: Tables, s: Shifts, now: Tables, requests: seq<Request>, indices: seq<nat>)
    requires InRange(was) && InRange(now) && Moved(was, s, now) && |indices| == |requests|
    requires forall k {:trigger indices[k]} :: 0 <= k < |indices| ==> Answers(now, indices[k], requests[k])
    requires forall x {:trigger now.methods[x]} :: 0 <= x < |now.methods| ==>
               now.methods[x] in MovedMethods(s, was.methods) || AmongAsked(now.methods, indices, now.methods[x])
    ensures Elements(NamedList(now)) == AllNamed(was, requests)
  {
    hide InRange, Moved, NamedOf, Answers, AmongAsked, MovedMethods;
    OldStillNamed(was, s, now);
    forall m | m in NamedList(now) ensures m in AllNamed(was, requests) {
      var x :| 0 <= x < |now.methods| && NamedList(now)[x] == m;
      NamedFrom(was, s, now, requests, indices, x);
    }
    forall m | m in WantedNamed(requests) ensures m in NamedList(now) {
      var r :| r in requests && m == Named(r.holder, r.name, Sig(r.ret, r.params));
      var k :| 0 <= k < |requests| && requests[k] == r;
      AnsweredNamed(now, indices[k], r);
      AnswersIn(now, indices[k], r);
      assert NamedList(now)[indices[k]] == m;
    }
  }

  lemma AnswersIn(now: Tables, i: nat, r: Request)
    requires InRange(now) && Answers(now, i, r)
    ensures i < |now.methods|
  {
  }

  lemma NamedFrom(was: Tables, s: Shifts, now: Tables, requests: seq<Request>, indices: seq<nat>, x: nat)
    requires InRange(was) && InRange(now) && Moved(was, s, now) && |indices| == |requests| && x < |now.methods|
    requires forall k {:trigger indices[k]} :: 0 <= k < |indices| ==> Answers(now, indices[k], requests[k])
    requires now.methods[x] in MovedMethods(s, was.methods) || AmongAsked(now.methods, indices, now.methods[x])
    ensures NamedOf(now, x) in AllNamed(was, requests)
  {
    hide InRange, Map, Answers, TypeName, ProtoOf;
    var table := MovedMethods(s, was.methods);
    if now.methods[x] in table {
      var i :| 0 <= i < |table| && table[i] == now.methods[x];
      NamedKept(was, s, now, i);
      assert now.methods[Map(s.methods, i)] == now.methods[x];
      assert NamedList(was)[i] == NamedOf(now, x);
    } else {
      var k :| 0 <= k < |indices| && indices[k] < |now.methods| && now.methods[indices[k]] == now.methods[x];
      AnsweredNamed(now, indices[k], requests[k]);
      assert requests[k] in requests;
    }
  }

  /** Protos move with the strings and types only, methods with the protos too. */
  lemma SameMoves(was: Tables, s: Shifts, t: Shifts)
    requires s.strings == t.strings && s.types == t.types
    ensures MovedProtos(t, was.protos) == MovedProtos(s, was.protos)
    ensures s.protos == t.protos ==> MovedMethods(t, was.methods) == MovedMethods(s, was.methods)
  {
  }

  /** `add_methods`, up to how the tables are laid out in the file. */
  method AddMethods(was: Tables, requests: seq<Request>) returns (r: Result<(Tables, Shifts, seq<nat>)>)
    requires InRange(was) && Small(was) && Ordered(was) && |was.strings| <= NO_INDEX
    ensures r.Ok? <==>
            |AllTypes(was, requests)| <= 0x10000 && |AllSigs(was, requests)| <= 0x10000
                && |AllNamed(was, requests)| <= 0x10000
    ensures r.TooMany? ==> r.entries == if |AllTypes(was, requests)| > 0x10000 then |AllTypes(was, requests)|
                                        else if |AllSigs(was, requests)| > 0x10000 then |AllSigs(was, requests)|
                                            else |AllNamed(was, requests)|
    ensures r.Ok? ==>
              var (now, s, indices) := r.value;
              && InRange(now) && Small(now) && Ordered(now) && Exact(was, requests, now) && Moved(was, s, now)
                   && (WellAbbreviated(was) ==> WellAbbreviated(now))
              && |indices| == |requests|
                   && (forall k {:trigger indices[k]} :: 0 <= k < |indices| ==> Answers(now, indices[k], requests[k]))
  {
    hide InRange, HasOld, HasNew, Fits, Moved, Sorted, Places, AreTypes, Available, GoodProto, GoodMethod, FitShorty,
         Answers, Asked, Below,
         WellAbbreviated, Texts, ProtoKey, MethodKey, TypeKey, Map, TypeList, SigList, NamedList, AllTypes, AllSigs,
             AllNamed, Elements,
         AmongAsked, FromRow, DescribedBy, WantedStrings;
    var texts, strings := AddStrings(was, requests);
    var t, types, xss := AddTypes(was, texts, strings, requests);
    FitsPlaces(Keys(MapAll(texts.at, was.types), TypeKey), t);
    FitsLength(Keys(MapAll(texts.at, was.types), TypeKey), t);
    var s := Shifts(texts.at, t.at, [], []);
    var p, protos, ps := AddProtos(was, s, texts, strings, types, requests, xss);
    SameMoves(was, s, s.(protos := p.at));
    s := s.(protos := p.at);
    var m, methods, indices := AddMethodIds(was, s, texts, strings, types, protos, requests, xss, ps);
    SameMoves(was, s, s.(methods := m.at));
    s := s.(methods := m.at);
    ghost var full := Tables(strings, types, protos, MovedFields(s, was.fields), methods);
    ResultInRange(was, s, texts, full);
    ResultMoved(was, s, texts, full);
    forall k | 0 <= k < |indices| ensures Answers(full, indices[k], requests[k]) {
      ResultAnswers(full, requests[k], xss[k], ps[k], indices[k]);
    }
    StringsExact(was.strings, strings, texts, requests);
    TypesExact(was, s, full, requests, xss);
    SigsExact(was, s, full, requests, xss, ps);
    NamedExact(was, s, full, requests, indices);
    ExactSizes(was, requests, full);
    if |types| > 0x10000 {
      return TooMany(|types|);
    }
    if |protos| > 0x10000 {
      return TooMany(|protos|);
    }
    if |methods| > 0x10000 {
      return TooMany(|methods|);
    }
    if WellAbbreviated(was) {
      ResultAbbreviated(was, s, full);
    }
    return Ok((Tables(strings, types, protos, MovedFields(s, was.fields), methods), s, indices));
  }
}
