/** The layered containers of a configuration
    (`RecursiveOverridableMapContainer`). A configuration keeps its own
    entries of each kind (configuration values, tools, enumerations, ...)
    and sees those of its parents through the parents' containers of the
    same id. Parents are listed with increasing priority: a later parent
    overrides an earlier one, and the own entries override all parents.

    A container is modelled together with the same-id containers of its
    parent configurations, so the configuration graph is unfolded into a
    tree. Stored values carry their own id (`getID()`), given by `idOf`;
    `elevate` is the copy a container hands out for a value
    (`temporarilyElevateValue`), the identity for plain containers. */
module Overridable {
  import opened Wrappers
  import LM = LinkedMaps

  datatype Container<V> = Container(id: string, own: LM.LinkedMap<V>, parents: seq<Container<V>>)

  /** Every own map is a valid linked map and every parent container has
      this container's id (it is `parent.getContainer(id)`). */
  ghost predicate WellFormed<V>(c: Container<V>)
    decreases c
  {
    c.own.Valid() &&
    forall i :: 0 <= i < |c.parents| ==> c.parents[i].id == c.id && WellFormed(c.parents[i])
  }

  /** Every stored value sits under its own id, as `add` stores it. */
  ghost predicate WellKeyed<V>(c: Container<V>, idOf: V -> string)
    decreases c
  {
    (forall k :: k in c.own.entries ==> idOf(c.own.entries[k]) == k) &&
    forall i :: 0 <= i < |c.parents| ==> WellKeyed(c.parents[i], idOf)
  }

  // ---------------------------------------------------------------------
  // The resolved view
  // ---------------------------------------------------------------------

  /** `getAllUnevaluatedValues()`: the parents' resolved maps put one after
      the other, in parent order, and then the own map. */
  function AllUnevaluated<V>(c: Container<V>): (r: LM.LinkedMap<V>)
    requires WellFormed(c)
    ensures r.Valid() && r.entries == AllMap(c)
    decreases c, |c.parents| + 1
  {
    LM.PutAll(MergeParents(c, |c.parents|), c.own)
  }

  /** The resolved maps of the first `n` parents put one after the other. */
  function MergeParents<V>(c: Container<V>, n: nat): (r: LM.LinkedMap<V>)
    requires WellFormed(c) && n <= |c.parents|
    ensures r.Valid() && r.entries == ParentsMap(c, n)
    decreases c, n
  {
    if n == 0 then LM.Empty()
    else LM.PutAll(MergeParents(c, n - 1), AllUnevaluated(c.parents[n - 1]))
  }

  /** `getListOfAllValueKeys()`: the parents' key lists in parent order,
      then the own keys (repetitions kept). */
  function AllKeys<V>(c: Container<V>): seq<string>
    decreases c, |c.parents| + 1
  {
    ParentKeys(c, |c.parents|) + c.own.keys
  }

  function ParentKeys<V>(c: Container<V>, n: nat): seq<string>
    requires n <= |c.parents|
    decreases c, n
  {
    if n == 0 then [] else ParentKeys(c, n - 1) + AllKeys(c.parents[n - 1])
  }

  /** `hasValue(id)`. */
  predicate HasValue<V>(c: Container<V>, k: string) {
    k in AllKeys(c)
  }

  /** The value a key resolves to, defined by priority rather than by
      merging: the own entry if there is one, otherwise what the
      highest-priority (last) parent that knows the key resolves it to. */
  function Lookup<V>(c: Container<V>, k: string): Option<V>
    decreases c, |c.parents| + 1
  {
    if k in c.own.entries then Some(c.own.entries[k]) else LookupParents(c, |c.parents|, k)
  }

  function LookupParents<V>(c: Container<V>, n: nat, k: string): Option<V>
    requires n <= |c.parents|
    decreases c, n
  {
    if n == 0 then None
    else
      var r := Lookup(c.parents[n - 1], k);
      if r.Some? then r else LookupParents(c, n - 1, k)
  }

  /** The merged maps as plain maps, without the key order. */
  ghost function AllMap<V>(c: Container<V>): map<string, V>
    decreases c, |c.parents| + 1
  {
    ParentsMap(c, |c.parents|) + c.own.entries
  }

  ghost function ParentsMap<V>(c: Container<V>, n: nat): map<string, V>
    requires n <= |c.parents|
    decreases c, n
  {
    if n == 0 then map[] else ParentsMap(c, n - 1) + AllMap(c.parents[n - 1])
  }

  /** The plain merged map resolves a key as the priority lookup does. */
  lemma {:induction false} AllMapIsLookup<V>(c: Container<V>, k: string)
    ensures k in AllMap(c) <==> Lookup(c, k).Some?
    ensures k in AllMap(c) ==> AllMap(c)[k] == Lookup(c, k).value
    decreases c, |c.parents| + 1
  {
    ParentsMapIsLookup(c, |c.parents|, k);
  }

  lemma {:induction false} ParentsMapIsLookup<V>(c: Container<V>, n: nat, k: string)
    requires n <= |c.parents|
    ensures k in ParentsMap(c, n) <==> LookupParents(c, n, k).Some?
    ensures k in ParentsMap(c, n) ==> ParentsMap(c, n)[k] == LookupParents(c, n, k).value
    decreases c, n
  {
    if n > 0 {
      ParentsMapIsLookup(c, n - 1, k);
      AllMapIsLookup(c.parents[n - 1], k);
      UnionLookup(ParentsMap(c, n - 1), AllMap(c.parents[n - 1]),
                  LookupParents(c, n - 1, k), Lookup(c.parents[n - 1], k), k);
    }
  }

  /** The merged map holds exactly the keys some layer defines, each with
      the value of the highest-priority layer defining it. */
  lemma AllUnevaluatedIsLookup<V>(c: Container<V>, k: string)
    requires WellFormed(c)
    ensures k in AllUnevaluated(c).entries <==> Lookup(c, k).Some?
    ensures k in AllUnevaluated(c).entries ==> AllUnevaluated(c).entries[k] == Lookup(c, k).value
  {
    AllMapIsLookup(c, k);
  }

  lemma MergeParentsIsLookup<V>(c: Container<V>, n: nat, k: string)
    requires WellFormed(c) && n <= |c.parents|
    ensures k in MergeParents(c, n).entries <==> LookupParents(c, n, k).Some?
    ensures k in MergeParents(c, n).entries ==> MergeParents(c, n).entries[k] == LookupParents(c, n, k).value
  {
    ParentsMapIsLookup(c, n, k);
  }

  /** Putting map `b` over map `a` resolves a key like a lookup that asks
      `b` first and `a` second. */
  lemma UnionLookup<V>(a: map<string, V>, b: map<string, V>, la: Option<V>, lb: Option<V>, k: string)
    requires (k in a <==> la.Some?) && (k in a ==> a[k] == la.value)
    requires (k in b <==> lb.Some?) && (k in b ==> b[k] == lb.value)
    ensures var l := if lb.Some? then lb else la;
      (k in a + b <==> l.Some?) && (k in a + b ==> (a + b)[k] == l.value)
  {
  }

  /** The key list and the merged map agree on which keys are known. */
  lemma AllKeysAreMerged<V>(c: Container<V>, k: string)
    requires WellFormed(c)
    ensures k in AllKeys(c) <==> k in AllUnevaluated(c).entries
  {
    AllKeysInMap(c, k);
  }

  lemma ParentKeysAreMerged<V>(c: Container<V>, n: nat, k: string)
    requires WellFormed(c) && n <= |c.parents|
    ensures k in ParentKeys(c, n) <==> k in MergeParents(c, n).entries
  {
    ParentKeysInMap(c, n, k);
  }

  lemma {:induction false} AllKeysInMap<V>(c: Container<V>, k: string)
    requires WellFormed(c)
    ensures k in AllKeys(c) <==> k in AllMap(c)
    decreases c, |c.parents| + 1
  {
    ParentKeysInMap(c, |c.parents|, k);
  }

  lemma {:induction false} ParentKeysInMap<V>(c: Container<V>, n: nat, k: string)
    requires WellFormed(c) && n <= |c.parents|
    ensures k in ParentKeys(c, n) <==> k in ParentsMap(c, n)
    decreases c, n
  {
    if n > 0 {
      ParentKeysInMap(c, n - 1, k);
      AllKeysInMap(c.parents[n - 1], k);
    }
  }

  /** `hasValue(id)` holds iff the id is an own key or a key of some
      transitive parent, i.e. iff it resolves. */
  lemma HasValueIffResolves<V>(c: Container<V>, k: string)
    requires WellFormed(c)
    ensures HasValue(c, k) <==> Lookup(c, k).Some?
  {
    AllKeysAreMerged(c, k);
    AllUnevaluatedIsLookup(c, k);
  }

  /** Without an own entry, the last parent that resolves the key decides:
      it overrides every earlier parent. */
  lemma LastParentOverrides<V>(c: Container<V>, k: string, j: nat)
    requires k !in c.own.entries
    requires j < |c.parents| && Lookup(c.parents[j], k).Some?
    requires forall i :: j < i < |c.parents| ==> Lookup(c.parents[i], k).None?
    ensures Lookup(c, k) == Lookup(c.parents[j], k)
  {
    LookupParentsFrom(c, |c.parents|, k, j);
  }

  lemma {:induction false} LookupParentsFrom<V>(c: Container<V>, n: nat, k: string, j: nat)
    requires j < n <= |c.parents| && Lookup(c.parents[j], k).Some?
    requires forall i :: j < i < n ==> Lookup(c.parents[i], k).None?
    ensures LookupParents(c, n, k) == Lookup(c.parents[j], k)
    decreases n
  {
    if n - 1 != j {
      LookupParentsFrom(c, n - 1, k, j);
    }
  }

  /** Resolving through the parents looks at nothing but the parents. */
  lemma {:induction false} LookupParentsOnlyParents<V>(c: Container<V>, d: Container<V>, n: nat, k: string)
    requires c.parents == d.parents && n <= |c.parents|
    ensures LookupParents(c, n, k) == LookupParents(d, n, k)
  {
    if n > 0 {
      LookupParentsOnlyParents(c, d, n - 1, k);
    }
  }

  /** A resolved value sits under its own id when every layer is keyed so. */
  lemma {:induction false} LookupWellKeyed<V>(c: Container<V>, k: string, idOf: V -> string)
    requires WellKeyed(c, idOf)
    requires Lookup(c, k).Some?
    ensures idOf(Lookup(c, k).value) == k
    decreases c, |c.parents| + 1
  {
    if k !in c.own.entries {
      LookupParentsWellKeyed(c, |c.parents|, k, idOf);
    }
  }

  lemma {:induction false} LookupParentsWellKeyed<V>(c: Container<V>, n: nat, k: string, idOf: V -> string)
    requires n <= |c.parents| && WellKeyed(c, idOf)
    requires LookupParents(c, n, k).Some?
    ensures idOf(LookupParents(c, n, k).value) == k
    decreases c, n
  {
    if Lookup(c.parents[n - 1], k).Some? {
      LookupWellKeyed(c.parents[n - 1], k, idOf);
    } else {
      LookupParentsWellKeyed(c, n - 1, k, idOf);
    }
  }

  // ---------------------------------------------------------------------
  // Values handed out
  // ---------------------------------------------------------------------

  /** Re-keys the first `n` entries of `m` by the values' own ids and
      elevates them (the loop of `getAllValues()`). */
  function ReKey<V>(m: LM.LinkedMap<V>, n: nat, idOf: V -> string, elevate: V -> V): (r: LM.LinkedMap<V>)
    requires m.Valid() && n <= |m.keys|
    ensures r.Valid() && r.entries == ReKeyMap(m.keys[..n], m.entries, idOf, elevate)
  {
    if n == 0 then LM.Empty()
    else
      var v := m.entries[m.keys[n - 1]];
      assert m.keys[..n][..n - 1] == m.keys[..n - 1];
      LM.Put(ReKey(m, n - 1, idOf, elevate), idOf(v), elevate(v))
  }

  /** The entries of the re-keyed map, without the key order: each listed
      key's value put under its own id, elevated, later keys winning. */
  ghost function ReKeyMap<V>(ks: seq<string>, src: map<string, V>, idOf: V -> string, elevate: V -> V): map<string, V>
    requires forall i :: 0 <= i < |ks| ==> ks[i] in src
  {
    if |ks| == 0 then map[]
    else
      var v := src[ks[|ks| - 1]];
      ReKeyMap(ks[..|ks| - 1], src, idOf, elevate)[idOf(v) := elevate(v)]
  }

  /** When every value sits under its own id, re-keying only elevates. */
  lemma {:induction false} ReKeyWellKeyed<V>(ks: seq<string>, src: map<string, V>, idOf: V -> string,
                                             elevate: V -> V, k: string)
    requires forall i :: 0 <= i < |ks| ==> ks[i] in src
    requires forall j :: j in src ==> idOf(src[j]) == j
    ensures k in ReKeyMap(ks, src, idOf, elevate) <==> k in ks
    ensures k in ReKeyMap(ks, src, idOf, elevate) ==>
      k in src && ReKeyMap(ks, src, idOf, elevate)[k] == elevate(src[k])
  {
    if |ks| > 0 {
      var init := ks[..|ks| - 1];
      var key := ks[|ks| - 1];
      ReKeyWellKeyed(init, src, idOf, elevate, k);
      assert ks == init + [key];
      assert k in ks <==> k in init || k == key;
    }
  }

  /** `getAllValues()`. */
  function AllValues<V>(c: Container<V>, idOf: V -> string, elevate: V -> V): (r: LM.LinkedMap<V>)
    requires WellFormed(c)
    ensures r.Valid()
  {
    var m := AllUnevaluated(c);
    ReKey(m, |m.keys|, idOf, elevate)
  }

  /** `_getValueUnchecked(id)`: `None` is Java's `null` for an id no value
      carries. A value inherited from a parent is elevated once more. */
  function GetValueUnchecked<V>(c: Container<V>, k: string, idOf: V -> string, elevate: V -> V): Option<V>
    requires WellFormed(c)
  {
    var all := AllValues(c, idOf, elevate);
    if k !in all.entries then None
    else if k in c.own.entries then Some(all.entries[k])
    else Some(elevate(all.entries[k]))
  }

  /** `getValue(id, defaultValue)`. */
  function GetValueOr<V>(c: Container<V>, k: string, def: V, idOf: V -> string, elevate: V -> V): (r: Option<V>)
    requires WellFormed(c)
    ensures !HasValue(c, k) ==> r == Some(def)
  {
    if !HasValue(c, k) then Some(def) else GetValueUnchecked(c, k, idOf, elevate)
  }

  /** `getValue(id)`: a `ConfigurationError` for an unknown id. */
  function GetValue<V>(c: Container<V>, k: string, idOf: V -> string, elevate: V -> V): (r: Result<Option<V>, string>)
    requires WellFormed(c)
    ensures r.Failure? <==> !HasValue(c, k)
  {
    if !HasValue(c, k) then Failure("Value for '" + k + "' could not be found in containers")
    else Success(GetValueUnchecked(c, k, idOf, elevate))
  }

  /** The value handed out for a known id is the elevated resolved value
      (elevated twice when it is inherited); an unknown id yields the
      default or the error. */
  lemma GetValueIsResolved<V>(c: Container<V>, k: string, def: V, idOf: V -> string, elevate: V -> V)
    requires WellFormed(c) && WellKeyed(c, idOf)
    ensures GetValue(c, k, idOf, elevate).Success? <==> Lookup(c, k).Some?
    ensures Lookup(c, k).Some? ==>
      GetValue(c, k, idOf, elevate).value == GetValueOr(c, k, def, idOf, elevate) ==
        Some(if k in c.own.entries then elevate(Lookup(c, k).value) else elevate(elevate(Lookup(c, k).value)))
    ensures Lookup(c, k).None? ==> GetValueOr(c, k, def, idOf, elevate) == Some(def)
  {
    HasValueIffResolves(c, k);
    AllValuesIsLookup(c, k, idOf, elevate);
  }

  /** In a well-keyed container, the resolved values sit under their ids. */
  lemma AllUnevaluatedWellKeyed<V>(c: Container<V>, idOf: V -> string)
    requires WellFormed(c) && WellKeyed(c, idOf)
    ensures forall j :: j in AllUnevaluated(c).entries ==> idOf(AllUnevaluated(c).entries[j]) == j
  {
    var m := AllUnevaluated(c);
    forall j | j in m.entries ensures idOf(m.entries[j]) == j {
      AllUnevaluatedIsLookup(c, j);
      LookupWellKeyed(c, j, idOf);
    }
  }

  /** `getAllValues()` of a well-keyed container holds the resolved values,
      each elevated once. */
  lemma AllValuesIsLookup<V>(c: Container<V>, k: string, idOf: V -> string, elevate: V -> V)
    requires WellFormed(c) && WellKeyed(c, idOf)
    ensures k in AllValues(c, idOf, elevate).entries <==> Lookup(c, k).Some?
    ensures k in AllValues(c, idOf, elevate).entries ==>
      AllValues(c, idOf, elevate).entries[k] == elevate(Lookup(c, k).value)
  {
    var m := AllUnevaluated(c);
    AllUnevaluatedIsLookup(c, k);
    AllUnevaluatedWellKeyed(c, idOf);
    assert m.keys[..|m.keys|] == m.keys;
    ReKeyWellKeyed(m.keys, m.entries, idOf, elevate, k);
  }

  // ---------------------------------------------------------------------
  // Inheritance list, size, id
  // ---------------------------------------------------------------------

  /** `getInheritanceList(id)`: the value handed out for the id when it is
      an own key, then each parent's inheritance list in parent order. */
  function InheritanceList<V>(c: Container<V>, k: string, idOf: V -> string, elevate: V -> V): seq<Option<V>>
    requires WellFormed(c)
    decreases c, |c.parents| + 1
  {
    (if k in c.own.entries then [GetValueUnchecked(c, k, idOf, elevate)] else []) +
    ParentInheritance(c, |c.parents|, k, idOf, elevate)
  }

  function ParentInheritance<V>(c: Container<V>, n: nat, k: string, idOf: V -> string, elevate: V -> V): seq<Option<V>>
    requires WellFormed(c) && n <= |c.parents|
    decreases c, n
  {
    if n == 0 then []
    else ParentInheritance(c, n - 1, k, idOf, elevate) + InheritanceList(c.parents[n - 1], k, idOf, elevate)
  }

  /** The inheritance list is non-empty exactly for the known ids. */
  lemma {:induction false} InheritanceListNonEmpty<V>(c: Container<V>, k: string, idOf: V -> string, elevate: V -> V)
    requires WellFormed(c)
    ensures |InheritanceList(c, k, idOf, elevate)| > 0 <==> HasValue(c, k)
    decreases c, |c.parents| + 1
  {
    assert k in c.own.entries <==> k in c.own.keys;
    ParentInheritanceNonEmpty(c, |c.parents|, k, idOf, elevate);
  }

  lemma {:induction false} ParentInheritanceNonEmpty<V>(c: Container<V>, n: nat, k: string, idOf: V -> string, elevate: V -> V)
    requires WellFormed(c) && n <= |c.parents|
    ensures |ParentInheritance(c, n, k, idOf, elevate)| > 0 <==> k in ParentKeys(c, n)
    decreases c, n
  {
    if n > 0 {
      ParentInheritanceNonEmpty(c, n - 1, k, idOf, elevate);
      InheritanceListNonEmpty(c.parents[n - 1], k, idOf, elevate);
    }
  }

  /** With an own entry, the inheritance list starts with the elevated own
      value. */
  lemma InheritanceListHead<V>(c: Container<V>, k: string, idOf: V -> string, elevate: V -> V)
    requires WellFormed(c) && WellKeyed(c, idOf)
    requires k in c.own.entries
    ensures InheritanceList(c, k, idOf, elevate)[0] == Some(elevate(c.own.entries[k]))
  {
    GetValueIsResolved(c, k, c.own.entries[k], idOf, elevate);
    HasValueIffResolves(c, k);
  }

  /** `size()`: the own entries only. */
  function Size<V>(c: Container<V>): (n: nat)
    requires WellFormed(c)
    ensures n == |c.own.entries.Keys|
  {
    LM.Size(c.own)
  }

  /** `is(id)`. */
  predicate Is<V>(c: Container<V>, s: string) {
    c.id == s
  }

  // ---------------------------------------------------------------------
  // Changing the own entries
  // ---------------------------------------------------------------------

  /** `put(key, value)`. */
  function Put<V>(c: Container<V>, k: string, v: V): (r: Container<V>)
    requires WellFormed(c)
    ensures WellFormed(r) && r.id == c.id && r.parents == c.parents
    ensures Lookup(r, k) == Some(v)
    ensures forall j :: j != k ==> Lookup(r, j) == Lookup(c, j)
    ensures Size(r) == Size(c) + (if k in c.own.entries then 0 else 1)
  {
    var r := c.(own := LM.Put(c.own, k, v));
    assert forall j :: j != k ==> (j in r.own.entries <==> j in c.own.entries);
    forall j ensures LookupParents(r, |r.parents|, j) == LookupParents(c, |c.parents|, j) {
      LookupParentsOnlyParents(r, c, |c.parents|, j);
    }
    assert r.own.entries.Keys == c.own.entries.Keys + {k};
    r
  }

  /** `add(value)`: stores the value under its own id. */
  function Add<V>(c: Container<V>, v: V, idOf: V -> string): (r: Container<V>)
    requires WellFormed(c)
    ensures WellFormed(r) && r.parents == c.parents
    ensures Lookup(r, idOf(v)) == Some(v)
    ensures forall j :: j != idOf(v) ==> Lookup(r, j) == Lookup(c, j)
  {
    Put(c, idOf(v), v)
  }

  /** `putAll(values)`: `None` (Java's `null`) changes nothing; otherwise
      the given entries override the own ones. */
  function PutAll<V>(c: Container<V>, m: Option<LM.LinkedMap<V>>): (r: Container<V>)
    requires WellFormed(c)
    requires m.Some? ==> m.value.Valid()
    ensures WellFormed(r) && r.parents == c.parents
    ensures m.None? ==> r == c
    ensures m.Some? ==> r.own.entries == c.own.entries + m.value.entries
  {
    if m.None? then c else c.(own := LM.PutAll(c.own, m.value))
  }

  /** `addAll(values)`: adds every value in order; `None` or an empty list
      changes nothing. */
  function AddAll<V>(c: Container<V>, vs: Option<seq<V>>, idOf: V -> string): (r: Container<V>)
    requires WellFormed(c)
    ensures WellFormed(r) && r.parents == c.parents
    ensures vs.None? || |vs.value| == 0 ==> r == c
  {
    if vs.None? then c else AddSeq(c, vs.value, idOf)
  }

  function AddSeq<V>(c: Container<V>, vs: seq<V>, idOf: V -> string): (r: Container<V>)
    requires WellFormed(c)
    ensures WellFormed(r) && r.parents == c.parents
  {
    if |vs| == 0 then c else Add(AddSeq(c, vs[..|vs| - 1], idOf), vs[|vs| - 1], idOf)
  }

  /** The last of the values carrying id `k`, if any. */
  function LastWithId<V>(vs: seq<V>, k: string, idOf: V -> string): (r: Option<V>)
    ensures r.Some? ==> r.value in vs && idOf(r.value) == k
    ensures r.None? <==> forall i :: 0 <= i < |vs| ==> idOf(vs[i]) != k
  {
    if |vs| == 0 then None
    else if idOf(vs[|vs| - 1]) == k then Some(vs[|vs| - 1])
    else LastWithId(vs[..|vs| - 1], k, idOf)
  }

  /** After `addAll`, an id resolves to the last added value carrying it,
      and every other id resolves as before. */
  lemma {:induction false} AddAllResolves<V>(c: Container<V>, vs: seq<V>, k: string, idOf: V -> string)
    requires WellFormed(c)
    ensures Lookup(AddAll(c, Some(vs), idOf), k) ==
      if LastWithId(vs, k, idOf).Some? then LastWithId(vs, k, idOf) else Lookup(c, k)
    decreases |vs|
  {
    if |vs| > 0 {
      AddAllResolves(c, vs[..|vs| - 1], k, idOf);
    }
  }
}
