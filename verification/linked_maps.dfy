/** Insertion-ordered maps with string keys (`LinkedHashMap<String, V>`):
    the key sequence remembers the order of first insertion, and putting an
    existing key replaces its value without moving it. */
module LinkedMaps {

  datatype LinkedMap<V> = LinkedMap(keys: seq<string>, entries: map<string, V>) {

    /** The keys are distinct and are exactly the keys of the entries. */
    ghost predicate Valid() {
      (forall i, j :: 0 <= i < j < |keys| ==> keys[i] != keys[j]) &&
      (forall k :: k in entries <==> k in keys)
    }
  }

  function Empty<V>(): (r: LinkedMap<V>)
    ensures r.Valid() && |r.keys| == 0 && r.entries == map[]
  {
    LinkedMap([], map[])
  }

  /** `m.put(k, v)`. */
  function Put<V>(m: LinkedMap<V>, k: string, v: V): (r: LinkedMap<V>)
    requires m.Valid()
    ensures r.Valid()
    ensures r.entries == m.entries[k := v]
    ensures k in m.entries ==> r.keys == m.keys
    ensures k !in m.entries ==> r.keys == m.keys + [k]
  {
    if k in m.entries then LinkedMap(m.keys, m.entries[k := v])
    else LinkedMap(m.keys + [k], m.entries[k := v])
  }

  /** The entries of `src` whose keys are listed in `ks`. */
  function Restrict<V>(src: map<string, V>, ks: seq<string>): map<string, V> {
    map k | k in src && k in ks :: src[k]
  }

  lemma UnionUpdate<V>(a: map<string, V>, b: map<string, V>, k: string, v: V)
    ensures (a + b)[k := v] == a + b[k := v]
  {
    var l := (a + b)[k := v];
    var r := a + b[k := v];
    assert l.Keys == r.Keys;
    forall j | j in l ensures l[j] == r[j] {
    }
  }

  /** Puts the given keys of `src`, in order, into `m`. */
  function PutKeys<V>(m: LinkedMap<V>, ks: seq<string>, src: map<string, V>): (r: LinkedMap<V>)
    requires m.Valid()
    requires forall i :: 0 <= i < |ks| ==> ks[i] in src
    ensures r.Valid()
    ensures r.entries == m.entries + Restrict(src, ks)
    decreases |ks|
  {
    if |ks| == 0 then
      assert Restrict(src, ks) == map[];
      m
    else
      var init := ks[..|ks| - 1];
      var last := ks[|ks| - 1];
      var r := Put(PutKeys(m, init, src), last, src[last]);
      assert forall k :: k in ks <==> k in init || k == last;
      assert Restrict(src, ks) == Restrict(src, init)[last := src[last]];
      UnionUpdate(m.entries, Restrict(src, init), last, src[last]);
      r
  }

  /** `m.putAll(n)`: every entry of `n`, in `n`'s order; `n` wins on a
      shared key. */
  function PutAll<V>(m: LinkedMap<V>, n: LinkedMap<V>): (r: LinkedMap<V>)
    requires m.Valid() && n.Valid()
    ensures r.Valid()
    ensures r.entries == m.entries + n.entries
  {
    assert Restrict(n.entries, n.keys) == n.entries;
    PutKeys(m, n.keys, n.entries)
  }

  /** A sequence without repetitions has as many elements as its set. */
  lemma {:induction false} DistinctCardinality(ks: seq<string>)
    requires forall i, j :: 0 <= i < j < |ks| ==> ks[i] != ks[j]
    ensures |set k | k in ks| == |ks|
  {
    if |ks| > 0 {
      var init := ks[..|ks| - 1];
      DistinctCardinality(init);
      assert (set k | k in ks) == (set k | k in init) + {ks[|ks| - 1]};
      assert ks[|ks| - 1] !in init;
    }
  }

  /** `m.size()`: the number of keys, which is the number of entries. */
  function Size<V>(m: LinkedMap<V>): (n: nat)
    requires m.Valid()
    ensures n == |m.entries.Keys|
  {
    DistinctCardinality(m.keys);
    assert m.entries.Keys == set k | k in m.keys;
    |m.keys|
  }
}
