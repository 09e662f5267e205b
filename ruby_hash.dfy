/**
 * Ruby's Hash with String keys, as the crontab code uses it: a table that
 * remembers the order in which its keys were first inserted. Assigning to an
 * existing key keeps its place; deleting a key removes it from the order.
 */
module RubyHash {

  datatype Hash<V> = Hash(keys: seq<string>, values: map<string, V>) {
    /** Every key is listed once, and the listed keys are exactly those with a value. */
    predicate Valid() {
      Distinct(keys) && (forall k :: k in values ==> k in keys) && (forall k :: k in keys ==> k in values)
    }
  }

  predicate Distinct(ks: seq<string>) {
    forall i, j :: 0 <= i < j < |ks| ==> ks[i] != ks[j]
  }

  /** `{}`. */
  function Empty<V>(): (r: Hash<V>)
    ensures r.Valid()
  {
    Hash([], map[])
  }

  /** `h[k] = v`: a new key goes to the end of the order, an existing key keeps its place. */
  function Put<V>(h: Hash<V>, k: string, v: V): (r: Hash<V>)
    ensures r.values == h.values[k := v]
    ensures r.keys == if k in h.values then h.keys else h.keys + [k]
  {
    if k in h.values then Hash(h.keys, h.values[k := v]) else Hash(h.keys + [k], h.values[k := v])
  }

  /** The keys of `ks` not in `drop`, in their order. */
  function Without(ks: seq<string>, drop: set<string>): (r: seq<string>)
    ensures forall k :: k in r <==> k in ks && k !in drop
  {
    if ks == [] then []
    else if ks[0] in drop then Without(ks[1..], drop)
    else [ks[0]] + Without(ks[1..], drop)
  }

  /** `h.delete_if { |k, _| drop.include? k }`; with a single key, `h.delete k`. */
  function DeleteAll<V>(h: Hash<V>, drop: set<string>): (r: Hash<V>)
    ensures forall k :: k in r.values <==> k in h.values && k !in drop
    ensures forall k :: k in r.values ==> r.values[k] == h.values[k]
    ensures h.Valid() ==> r.Valid()
  {
    DeleteAllValid(h, drop);
    Hash(Without(h.keys, drop), map k | k in h.values && k !in drop :: h.values[k])
  }

  /** Assignment keeps every key listed once. */
  lemma PutValid<V>(h: Hash<V>, k: string, v: V)
    requires h.Valid()
    ensures Put(h, k, v).Valid()
  {
    if k !in h.values {
      var ks := h.keys + [k];
      assert forall i :: 0 <= i < |h.keys| ==> ks[i] == h.keys[i];
    }
  }

  /** Filtering a list of distinct keys leaves them distinct. */
  lemma {:induction false} WithoutDistinct(ks: seq<string>, drop: set<string>)
    requires Distinct(ks)
    ensures Distinct(Without(ks, drop))
  {
    if ks != [] {
      DistinctTail(ks);
      WithoutDistinct(ks[1..], drop);
      var rest := Without(ks[1..], drop);
      if ks[0] !in drop {
        var r := [ks[0]] + rest;
        assert forall i :: 0 < i < |r| ==> r[i] == rest[i - 1];
      }
    }
  }

  lemma DeleteAllValid<V>(h: Hash<V>, drop: set<string>)
    ensures h.Valid() ==> Hash(Without(h.keys, drop), map k | k in h.values && k !in drop :: h.values[k]).Valid()
  {
    if h.Valid() {
      WithoutDistinct(h.keys, drop);
    }
  }

  lemma {:induction false} PutAllValid<V>(h: Hash<V>, ks: seq<string>, vals: map<string, V>)
    requires h.Valid()
    requires forall k :: k in ks ==> k in vals
    ensures PutAll(h, ks, vals).Valid()
    decreases |ks|
  {
    if ks != [] {
      PutAllValid(Put(h, ks[0], vals[ks[0]]), ks[1..], vals);
    }
  }

  lemma MergeValid<V>(h: Hash<V>, other: Hash<V>)
    requires other.Valid()
    ensures h.Valid() ==> Merge(h, other).Valid()
  {
    if h.Valid() {
      PutAllValid(h, other.keys, other.values);
    }
  }

  /** Dropping keys a list does not hold changes nothing. */
  lemma {:induction false} WithoutOthers(ks: seq<string>, drop: set<string>, more: set<string>)
    requires forall k :: k in more ==> k !in ks
    ensures Without(ks, drop + more) == Without(ks, drop)
  {
    if ks != [] {
      WithoutOthers(ks[1..], drop, more);
    }
  }

  /** Dropping nothing keeps the whole list. */
  lemma {:induction false} WithoutNothing(ks: seq<string>)
    ensures Without(ks, {}) == ks
  {
    if ks != [] {
      WithoutNothing(ks[1..]);
    }
  }

  /** `h[k] = vals[k]` for each key of `ks` in turn. */
  function PutAll<V>(h: Hash<V>, ks: seq<string>, vals: map<string, V>): (r: Hash<V>)
    requires forall k :: k in ks ==> k in vals
    decreases |ks|
  {
    if ks == [] then h else PutAll(Put(h, ks[0], vals[ks[0]]), ks[1..], vals)
  }

  /** `h.merge other`: the pairs of `other` are assigned into a copy of `h` in `other`'s order. */
  function Merge<V>(h: Hash<V>, other: Hash<V>): (r: Hash<V>)
    requires other.Valid()
  {
    PutAll(h, other.keys, other.values)
  }

  /** After assigning the keys of `ks`, a key has a value when it had one or is in `ks`, and the assigned value wins. */
  lemma {:induction false} PutAllValues<V>(h: Hash<V>, ks: seq<string>, vals: map<string, V>)
    requires forall k :: k in ks ==> k in vals
    ensures forall k :: k in PutAll(h, ks, vals).values <==> k in h.values || k in ks
    ensures forall k :: k in PutAll(h, ks, vals).values ==>
      PutAll(h, ks, vals).values[k] == if k in ks then vals[k] else h.values[k]
    decreases |ks|
  {
    if ks != [] {
      var h' := Put(h, ks[0], vals[ks[0]]);
      PutAllValues(h', ks[1..], vals);
      assert forall k :: k in ks <==> k == ks[0] || k in ks[1..];
    }
  }

  lemma DistinctTail(ks: seq<string>)
    requires ks != [] && Distinct(ks)
    ensures Distinct(ks[1..]) && ks[0] !in ks[1..]
  {
    assert forall i :: 0 <= i < |ks| - 1 ==> ks[1..][i] == ks[i + 1];
  }

  /** The keys assigned that were new follow the old keys, in the order `ks` lists them. */
  lemma {:induction false} PutAllKeys<V>(h: Hash<V>, ks: seq<string>, vals: map<string, V>)
    requires Distinct(ks)
    requires forall k :: k in ks ==> k in vals
    ensures PutAll(h, ks, vals).keys == h.keys + Without(ks, h.values.Keys)
    decreases |ks|
  {
    if ks != [] {
      var k0 := ks[0];
      var h' := Put(h, k0, vals[k0]);
      var hk := h.values.Keys;
      var rest := Without(ks[1..], hk);
      assert PutAll(h, ks, vals).keys == h'.keys + rest by {
        DistinctTail(ks);
        PutAllKeys(h', ks[1..], vals);
        assert h'.values.Keys == hk + {k0};
        assert Without(ks[1..], hk + {k0}) == rest by {
          WithoutOthers(ks[1..], hk, {k0});
        }
      }
      PutThenWithout(h, ks, vals[k0]);
    }
  }

  /** Assigning the first of `ks` adds it to the keys just when the rest of `ks` filtered by the old keys misses it. */
  lemma PutThenWithout<V>(h: Hash<V>, ks: seq<string>, v: V)
    requires ks != []
    ensures Put(h, ks[0], v).keys + Without(ks[1..], h.values.Keys) == h.keys + Without(ks, h.values.Keys)
  {
    var rest := Without(ks[1..], h.values.Keys);
    if ks[0] !in h.values {
      assert Without(ks, h.values.Keys) == [ks[0]] + rest;
      assert (h.keys + [ks[0]]) + rest == h.keys + ([ks[0]] + rest);
    }
  }

  /** Merging with a hash keeps the pairs of `h` it does not override and takes all of `other`'s. */
  lemma MergeContents<V>(h: Hash<V>, other: Hash<V>)
    requires h.Valid() && other.Valid()
    ensures forall k :: k in Merge(h, other).values <==> k in h.values || k in other.values
    ensures forall k :: k in other.values ==> Merge(h, other).values[k] == other.values[k]
    ensures forall k :: k in h.values && k !in other.values ==> Merge(h, other).values[k] == h.values[k]
    ensures Merge(h, other).keys == h.keys + Without(other.keys, h.values.Keys)
  {
    PutAllValues(h, other.keys, other.values);
    PutAllKeys(h, other.keys, other.values);
  }

  /** Assigning every pair of a hash, in its order, into an empty one rebuilds it. */
  lemma PutAllRebuilds<V>(h: Hash<V>)
    requires h.Valid()
    ensures PutAll(Empty(), h.keys, h.values) == h
  {
    var e: Hash<V> := Empty();
    PutAllValues(e, h.keys, h.values);
    PutAllKeys(e, h.keys, h.values);
    assert e.values.Keys == {};
    WithoutNothing(h.keys);
    var r := PutAll(e, h.keys, h.values);
    assert r.keys == h.keys;
    assert forall k :: k in r.values <==> k in h.values;
    assert forall k :: k in r.values ==> r.values[k] == h.values[k];
    assert r.values == h.values;
  }

  /** Deleting no key leaves a hash as it is. */
  lemma DeleteNothing<V>(h: Hash<V>)
    requires h.Valid()
    ensures DeleteAll(h, {}) == h
  {
    WithoutNothing(h.keys);
    var r := DeleteAll(h, {});
    assert r.values == h.values;
  }

  /** Deleting a key a hash does not hold leaves it as it is. */
  lemma DeleteAbsent<V>(h: Hash<V>, k: string)
    requires h.Valid() && k !in h.values
    ensures DeleteAll(h, {k}) == h
  {
    WithoutOthers(h.keys, {}, {k});
    WithoutNothing(h.keys);
    assert {} + {k} == {k};
    var r := DeleteAll(h, {k});
    assert r.keys == h.keys;
    assert r.values == h.values;
  }
}
