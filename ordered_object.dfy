/** A JavaScript object whose property order is observable: the list of its keys
    in enumeration order beside the map from key to value. Assigning an existing
    property keeps its position, assigning a new one appends it, and `delete`
    removes it; `Object.keys` lists `keys`. */
module OrderedObject {
  import opened Json
  import opened Strings

  datatype Object<V> = Object(keys: seq<string>, props: map<string, V>)

  /** The key list names each property exactly once. */
  predicate WellFormed<V>(o: Object<V>) {
    && Distinct(o.keys)
    && (forall k :: k in o.keys ==> k in o.props)
    && (forall k :: k in o.props ==> k in o.keys)
  }

  function Empty<V>(): (o: Object<V>)
    ensures WellFormed(o)
  {
    Object([], map[])
  }

  /** Property read `o[k]`. */
  function Lookup<V>(o: Object<V>, k: string): Option<V> {
    if k in o.props then Some(o.props[k]) else None
  }

  /** The property read `o[k]` of an object of JSON values: `undefined` when there is no such property. */
  function Read(o: Object<Value>, k: string): Value {
    if k in o.props then o.props[k] else Undefined
  }

  /** Assignment `o[k] = v`. */
  function Put<V>(o: Object<V>, k: string, v: V): (r: Object<V>)
    ensures WellFormed(o) ==> WellFormed(r)
    ensures k in o.keys ==> r.keys == o.keys
    ensures k !in o.keys ==> r.keys == o.keys + [k]
    ensures r.props == o.props[k := v]
  {
    Object(if k in o.keys then o.keys else o.keys + [k], o.props[k := v])
  }

  /** `delete o[k]`. */
  function Delete<V>(o: Object<V>, k: string): (r: Object<V>)
    ensures WellFormed(o) ==> WellFormed(r)
    ensures r.keys == Without(o.keys, k)
    ensures r.props == o.props - {k}
  {
    assert Distinct(o.keys) ==> Distinct(Without(o.keys, k)) by {
      WithoutSubsequence(o.keys, k);
    }
    Object(Without(o.keys, k), o.props - {k})
  }

  /** `keys.reduce((obj, key) => { obj[key] = src[key]; return obj; }, {})`: each
      listed key gets its value in `src`, in list order. */
  function Rebuild<V>(src: Object<V>, keys: seq<string>): (r: Object<V>)
    requires forall k :: k in keys ==> k in src.props
    ensures WellFormed(r)
    ensures Distinct(keys) ==> r.keys == keys
    ensures forall k :: k in r.props <==> k in keys
    ensures forall k :: k in r.props ==> r.props[k] == src.props[k]
    decreases |keys|
  {
    if keys == [] then Empty()
    else
      var n := |keys| - 1;
      assert keys == keys[..n] + [keys[n]];
      assert Distinct(keys) ==> Distinct(keys[..n]) && keys[n] !in keys[..n];
      Put(Rebuild(src, keys[..n]), keys[n], src.props[keys[n]])
  }

  /** The object with its keys in ascending order and the same properties. */
  function SortedByKey<V>(o: Object<V>): (r: Object<V>)
    requires WellFormed(o)
    ensures WellFormed(r)
    ensures r.props == o.props
    ensures r.keys == SortStrings(o.keys) && Ascending(r.keys)
  {
    SortStringsSameElements(o.keys);
    SortStringsAscending(o.keys);
    Object(SortStrings(o.keys), o.props)
  }

  /** `Object.keys(o).sort().reduce((obj, key) => { obj[key] = o[key]; return obj; }, {})`
      builds exactly the key-sorted object. */
  lemma {:induction false} RebuildSorted<V>(o: Object<V>)
    requires WellFormed(o)
    ensures forall k :: k in SortStrings(o.keys) ==> k in o.props
    ensures Rebuild(o, SortStrings(o.keys)) == SortedByKey(o)
  {
    SortStringsSameElements(o.keys);
    SortStringsAscending(o.keys);
    RebuildAll(o, SortStrings(o.keys));
  }

  /** Rebuilding from a list naming every property once copies the object with that key order. */
  lemma {:induction false} RebuildAll<V>(src: Object<V>, keys: seq<string>)
    requires Distinct(keys) && forall k :: k in keys <==> k in src.props
    ensures Rebuild(src, keys) == Object(keys, src.props)
  {
    var r := Rebuild(src, keys);
    SameMap(r.props, src.props);
  }

  lemma SameMap<V>(a: map<string, V>, b: map<string, V>)
    requires forall k :: k in a <==> k in b
    requires forall k :: k in a ==> a[k] == b[k]
    ensures a == b
  {
  }

  /** The same reduce, as the accumulator loop it is. */
  method SortObject<V>(o: Object<V>) returns (r: Object<V>)
    requires WellFormed(o)
    ensures r == SortedByKey(o)
  {
    var keys := SortStrings(o.keys);
    SortStringsSameElements(o.keys);
    r := Empty();
    var i := 0;
    while i < |keys|
      invariant 0 <= i <= |keys|
      invariant r == Rebuild(o, keys[..i])
    {
      RebuildStep(o, keys, i);
      r := Put(r, keys[i], o.props[keys[i]]);
      i := i + 1;
    }
    assert keys[..|keys|] == keys;
    RebuildSorted(o);
  }

  /** One more step of the reduce assigns one more key. */
  lemma RebuildStep<V>(src: Object<V>, keys: seq<string>, i: nat)
    requires i < |keys| && forall k :: k in keys ==> k in src.props
    ensures Rebuild(src, keys[..i + 1]) == Put(Rebuild(src, keys[..i]), keys[i], src.props[keys[i]])
  {
    assert keys[..i + 1][..i] == keys[..i];
  }

  /** An object literal `{k1: v1, k2: v2, ...}`, given as its property definitions in
      source order: a repeated key takes the value of its last definition. */
  function ObjectLiteral<V>(defs: seq<(string, V)>): (r: Object<V>)
    ensures WellFormed(r)
    ensures forall k :: Lookup(r, k) == LastDefinition(defs, k)
  {
    if defs == [] then Empty()
    else
      var n := |defs| - 1;
      Put(ObjectLiteral(defs[..n]), defs[n].0, defs[n].1)
  }

  /** The value the last definition of `k` in `defs` gives it. */
  function LastDefinition<V>(defs: seq<(string, V)>, k: string): Option<V> {
    if defs == [] then None
    else if defs[|defs| - 1].0 == k then Some(defs[|defs| - 1].1)
    else LastDefinition(defs[..|defs| - 1], k)
  }

  /** Definitions after the last one of `k` do not affect it. */
  lemma {:induction false} LastDefinitionSkip<V>(defs: seq<(string, V)>, k: string, n: nat)
    requires n <= |defs|
    requires forall j :: n <= j < |defs| ==> defs[j].0 != k
    ensures LastDefinition(defs, k) == LastDefinition(defs[..n], k)
    decreases |defs| - n
  {
    if n < |defs| {
      var m := |defs| - 1;
      LastDefinitionSkip(defs[..m], k, n);
      assert defs[..m][..n] == defs[..n];
    } else {
      assert defs[..n] == defs;
    }
  }
}
