/** Adding methods to a dex file's id tables (`Plan` in `crates/aim-android-image/src/reindex.rs`): the
    strings, types, protos and methods a request needs are inserted where they sort, and every index is
    remapped. */
module DexPlan {
  import opened DexInsert

  /** An error names how many entries a table would have. */
  datatype Result<+T> = Ok(value: T) | TooMany(entries: nat)

  datatype Proto = Proto(shorty: nat, ret: nat, params: seq<nat>)
  datatype Field = Field(holder: nat, typ: nat, name: nat)
  datatype Method = Method(holder: nat, proto: nat, name: nat)

  /** The id tables; a string is its UTF-16 units, a type the string of its descriptor. */
  datatype Tables = Tables(strings: seq<Key>, types: seq<nat>, protos: seq<Proto>, fields: seq<Field>,
      methods: seq<Method>)

  /** Where the new entries of each table go. */
  datatype Shifts = Shifts(strings: seq<nat>, types: seq<nat>, protos: seq<nat>, methods: seq<nat>)

  // ---- what indices mean ----

  datatype Signature = Signature(shorty: Key, ret: Key, params: seq<Key>)
  datatype FieldName = FieldName(holder: Key, typ: Key, name: Key)
  datatype MethodName = MethodName(holder: Key, name: Key, sig: Signature)

  ghost predicate ProtoInRange(t: Tables, p: Proto) {
    && p.shorty < |t.strings| && p.ret < |t.types|
    && (forall k {:trigger p.params[k]} :: 0 <= k < |p.params| ==> p.params[k] < |t.types|)
  }

  /** Types, protos and methods fit 16-bit indices. */
  predicate Small(t: Tables) {
    |t.types| <= 0x10000 && |t.protos| <= 0x10000 && |t.methods| <= 0x10000
  }

  /** Every index names an entry. */
  ghost predicate InRange(t: Tables) {
    && (forall i {:trigger t.types[i]} :: 0 <= i < |t.types| ==> t.types[i] < |t.strings|)
    && (forall i {:trigger t.protos[i]} :: 0 <= i < |t.protos| ==> ProtoInRange(t, t.protos[i]))
    && (forall i {:trigger t.fields[i]} :: 0 <= i < |t.fields| ==>
          t.fields[i].holder < |t.types| && t.fields[i].typ < |t.types| && t.fields[i].name < |t.strings|)
    && (forall i {:trigger t.methods[i]} :: 0 <= i < |t.methods| ==>
          t.methods[i].holder < |t.types| && t.methods[i].proto < |t.protos| && t.methods[i].name < |t.strings|)
  }

  function TypeKey(s: nat): Key { [s] }
  function ProtoKey(p: Proto): Key { [p.ret] + p.params }
  function MethodKey(m: Method): Key { [m.holder, m.name, m.proto] }

  /** All four tables are strictly in the order the format requires. */
  ghost predicate Ordered(t: Tables) {
    && Sorted(t.strings) && Sorted(Keys(t.types, TypeKey))
    && Sorted(Keys(t.protos, ProtoKey)) && Sorted(Keys(t.methods, MethodKey))
  }

  /** The order of the format, written out: types by descriptor, protos by return type and then parameters, methods by
      class, then name, then proto. */
  lemma OrderIs(t: Tables)
    ensures Ordered(t) <==>
            && (forall i, j {:trigger t.strings[i], t.strings[j]} :: 0 <= i < j < |t.strings| ==>
                  Below(t.strings[i], t.strings[j]))
            && (forall i, j {:trigger t.types[i], t.types[j]} :: 0 <= i < j < |t.types| ==> t.types[i] < t.types[j])
            && (forall i, j {:trigger t.protos[i], t.protos[j]} :: 0 <= i < j < |t.protos| ==>
                  || t.protos[i].ret < t.protos[j].ret
                  || (t.protos[i].ret == t.protos[j].ret && Below(t.protos[i].params, t.protos[j].params)))
            && (forall i, j {:trigger t.methods[i], t.methods[j]} :: 0 <= i < j < |t.methods| ==>
                  var m, o := t.methods[i], t.methods[j];
                  || m.holder < o.holder
                  || (m.holder == o.holder && m.name < o.name)
                  || (m.holder == o.holder && m.name == o.name && m.proto < o.proto))
  {
    hide Below;
    forall x: nat, y: nat ensures Below(TypeKey(x), TypeKey(y)) <==> x < y {
      TypeOrder(x, y);
    }
    forall p: Proto, q: Proto
      ensures Below(ProtoKey(p), ProtoKey(q)) <==> p.ret < q.ret || (p.ret == q.ret && Below(p.params, q.params))
    {
      ProtoOrder(p, q);
    }
    forall m: Method, o: Method
      ensures Below(MethodKey(m), MethodKey(o)) <==>
              || m.holder < o.holder || (m.holder == o.holder && m.name < o.name)
              || (m.holder == o.holder && m.name == o.name && m.proto < o.proto)
    {
      MethodOrder(m, o);
    }
    hide TypeKey, ProtoKey, MethodKey;
    SortedKeys(t.types, TypeKey);
    SortedKeys(t.protos, ProtoKey);
    SortedKeys(t.methods, MethodKey);
  }

  lemma SortedKeys<T>(s: seq<T>, key: T -> Key)
    ensures Sorted(Keys(s, key)) <==>
            forall i, j {:trigger s[i], s[j]} :: 0 <= i < j < |s| ==> Below(key(s[i]), key(s[j]))
  {
    hide Below;
    var keys := Keys(s, key);
    assert forall i {:trigger keys[i]} {:trigger s[i]} :: 0 <= i < |s| ==> keys[i] == key(s[i]);
  }

  lemma TypeOrder(x: nat, y: nat)
    ensures Below(TypeKey(x), TypeKey(y)) <==> x < y
  {
    assert TypeKey(x)[1..] == [] && TypeKey(y)[1..] == [];
  }

  lemma ProtoOrder(p: Proto, q: Proto)
    ensures Below(ProtoKey(p), ProtoKey(q)) <==> p.ret < q.ret || (p.ret == q.ret && Below(p.params, q.params))
  {
    assert ProtoKey(p)[1..] == p.params && ProtoKey(q)[1..] == q.params;
  }

  lemma MethodOrder(m: Method, o: Method)
    ensures Below(MethodKey(m), MethodKey(o)) <==>
            || m.holder < o.holder || (m.holder == o.holder && m.name < o.name)
            || (m.holder == o.holder && m.name == o.name && m.proto < o.proto)
  {
    assert MethodKey(m)[1..] == [m.name, m.proto] && MethodKey(o)[1..] == [o.name, o.proto];
    assert [m.name, m.proto][1..] == TypeKey(m.proto) && [o.name, o.proto][1..] == TypeKey(o.proto);
    TypeOrder(m.proto, o.proto);
  }

  ghost function TypeName(t: Tables, i: nat): Key
    requires InRange(t) && i < |t.types|
  {
    t.strings[t.types[i]]
  }

  ghost function TypeNames(t: Tables, list: seq<nat>): seq<Key>
    requires InRange(t) && (forall k {:trigger list[k]} :: 0 <= k < |list| ==> list[k] < |t.types|)
  {
    seq(|list|, k requires 0 <= k < |list| => TypeName(t, list[k]))
  }

  ghost function ProtoOf(t: Tables, i: nat): Signature
    requires InRange(t) && i < |t.protos|
  {
    var p := t.protos[i];
    assert ProtoInRange(t, p);
    Signature(t.strings[p.shorty], TypeName(t, p.ret), TypeNames(t, p.params))
  }

  ghost function FieldOf(t: Tables, i: nat): FieldName
    requires InRange(t) && i < |t.fields|
  {
    var f := t.fields[i];
    FieldName(TypeName(t, f.holder), TypeName(t, f.typ), t.strings[f.name])
  }

  ghost function MethodOf(t: Tables, i: nat): MethodName
    requires InRange(t) && i < |t.methods|
  {
    var m := t.methods[i];
    MethodName(TypeName(t, m.holder), t.strings[m.name], ProtoOf(t, m.proto))
  }

  // ---- remapping keeps meaning ----

  function MapAll(at: seq<nat>, list: seq<nat>): seq<nat> {
    seq(|list|, k requires 0 <= k < |list| => Map(at, list[k]))
  }

  function MovedProto(s: Shifts, p: Proto): Proto {
    Proto(Map(s.strings, p.shorty), Map(s.types, p.ret), MapAll(s.types, p.params))
  }

  function MovedField(s: Shifts, f: Field): Field {
    Field(Map(s.types, f.holder), Map(s.types, f.typ), Map(s.strings, f.name))
  }

  function MovedMethod(s: Shifts, m: Method): Method {
    Method(Map(s.types, m.holder), Map(s.protos, m.proto), Map(s.strings, m.name))
  }

  /** Every old entry is found, remapped, at its remapped index. */
  ghost predicate Moved(was: Tables, s: Shifts, now: Tables) {
    && (forall i {:trigger was.strings[i]} {:trigger Map(s.strings, i)} :: 0 <= i < |was.strings| ==>
          Map(s.strings, i) < |now.strings| && now.strings[Map(s.strings, i)] == was.strings[i])
    && (forall i {:trigger was.types[i]} {:trigger Map(s.types, i)} :: 0 <= i < |was.types| ==>
          Map(s.types, i) < |now.types| && now.types[Map(s.types, i)] == Map(s.strings, was.types[i]))
    && (forall i {:trigger was.protos[i]} {:trigger Map(s.protos, i)} :: 0 <= i < |was.protos| ==>
          Map(s.protos, i) < |now.protos| && now.protos[Map(s.protos, i)] == MovedProto(s, was.protos[i]))
    && (forall i {:trigger was.methods[i]} {:trigger Map(s.methods, i)} :: 0 <= i < |was.methods| ==>
          Map(s.methods, i) < |now.methods| && now.methods[Map(s.methods, i)] == MovedMethod(s, was.methods[i]))
    && |now.fields| == |was.fields|
    && (forall i {:trigger was.fields[i]} {:trigger now.fields[i]} ::
         0 <= i < |was.fields| ==> now.fields[i] == MovedField(s, was.fields[i]))
  }

  lemma TypeKept(was: Tables, s: Shifts, now: Tables, i: nat)
    requires InRange(was) && InRange(now) && Moved(was, s, now) && i < |was.types|
    ensures Map(s.types, i) < |now.types| && TypeName(now, Map(s.types, i)) == TypeName(was, i)
  {
    assert was.types[i] < |was.strings|;
  }

  lemma TypesKept(was: Tables, s: Shifts, now: Tables, list: seq<nat>)
    requires InRange(was) && InRange(now) && Moved(was, s, now)
    requires forall k {:trigger list[k]} :: 0 <= k < |list| ==> list[k] < |was.types|
    ensures forall k {:trigger MapAll(s.types, list)[k]} :: 0 <= k < |list| ==> MapAll(s.types, list)[k] < |now.types|
    ensures TypeNames(now, MapAll(s.types, list)) == TypeNames(was, list)
  {
    hide InRange, Moved;
    forall k | 0 <= k < |list|
        ensures Map(s.types, list[k]) < |now.types| && TypeName(now, Map(s.types, list[k])) == TypeName(was, list[k]) {
      TypeKept(was, s, now, list[k]);
    }
  }

  lemma ProtoKept(was: Tables, s: Shifts, now: Tables, i: nat)
    requires InRange(was) && InRange(now) && Moved(was, s, now) && i < |was.protos|
    ensures Map(s.protos, i) < |now.protos| && ProtoOf(now, Map(s.protos, i)) == ProtoOf(was, i)
  {
    var p := was.protos[i];
    assert ProtoInRange(was, p);
    var q := now.protos[Map(s.protos, i)];
    assert q == MovedProto(s, p);
    assert ProtoInRange(now, q);
    TypeKept(was, s, now, p.ret);
    TypesKept(was, s, now, p.params);
  }

  lemma FieldKept(was: Tables, s: Shifts, now: Tables, i: nat)
    requires InRange(was) && InRange(now) && Moved(was, s, now) && i < |was.fields|
    ensures FieldOf(now, i) == FieldOf(was, i)
  {
    var f := was.fields[i];
    TypeKept(was, s, now, f.holder);
    TypeKept(was, s, now, f.typ);
    assert now.strings[Map(s.strings, f.name)] == was.strings[f.name];
  }

  /** Adding entries changes no meaning: an old method's remapped index names the same method. */
  lemma MethodKept(was: Tables, s: Shifts, now: Tables, i: nat)
    requires InRange(was) && InRange(now) && Moved(was, s, now) && i < |was.methods|
    ensures Map(s.methods, i) < |now.methods| && MethodOf(now, Map(s.methods, i)) == MethodOf(was, i)
  {
    var m := was.methods[i];
    TypeKept(was, s, now, m.holder);
    ProtoKept(was, s, now, m.proto);
    assert now.strings[Map(s.strings, m.name)] == was.strings[m.name];
  }
}
