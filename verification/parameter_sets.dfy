/** Parameter sets and the two strategies `group-configs.py` offers for
    combining them. A parameter set pairs the directories (contexts) it was
    found in with the summarised parameters, a JSON-like value. */
module ParameterSets {

  /** The values a configuration summary can produce: JSON's data model
      without floating point. `Null` is Python's `None`. */
  datatype Value =
    | Null
    | Bool(b: bool)
    | Int(i: int)
    | Str(s: string)
    | Obj(fields: map<string, Value>)
    | Arr(items: seq<Value>)

  /** Python's `==` on such values: like structural equality, except that
      `True == 1` and `False == 0`. */
  predicate PyEqual(a: Value, b: Value) {
    match (a, b)
    case (Bool(x), Int(y)) => (if x then 1 else 0) == y
    case (Int(x), Bool(y)) => x == (if y then 1 else 0)
    case (Obj(m), Obj(n)) => m.Keys == n.Keys && forall k :: k in m ==> PyEqual(m[k], n[k])
    case (Arr(s), Arr(t)) => |s| == |t| && forall i :: 0 <= i < |s| ==> PyEqual(s[i], t[i])
    case _ => a == b
  }

  lemma {:induction false} PyEqualReflexive(a: Value)
    ensures PyEqual(a, a)
  {
    match a
    case Obj(m) =>
      forall k | k in m ensures PyEqual(m[k], m[k]) {
        PyEqualReflexive(m[k]);
      }
    case Arr(s) =>
      forall i | 0 <= i < |s| ensures PyEqual(s[i], s[i]) {
        PyEqualReflexive(s[i]);
      }
    case _ =>
  }

  /** `json.dumps(v, sort_keys=True)` tells `True` from `1` while `==` does
      not: `{"b": True}` and `{"b": 1}` are equal to Python but are grouped
      apart. */
  lemma PyEqualIsCoarser()
    ensures PyEqual(Obj(map["b" := Bool(true)]), Obj(map["b" := Int(1)]))
    ensures Obj(map["b" := Bool(true)]) != Obj(map["b" := Int(1)])
  {
    var m := map["b" := Bool(true)];
    var n := map["b" := Int(1)];
    assert m["b"] != n["b"];
  }

  /** Paths are kept as the strings they print as. */
  type Path = string

  datatype ParameterSet = ParameterSet(contexts: seq<Path>, parameters: Value)

  /** All contexts, in order (`flatten(map(lambda p: p.contexts, ...))`). */
  function Flatten(xs: seq<ParameterSet>): seq<Path> {
    if |xs| == 0 then [] else xs[0].contexts + Flatten(xs[1..])
  }

  lemma {:induction false} FlattenAppend(xs: seq<ParameterSet>, p: ParameterSet)
    ensures Flatten(xs + [p]) == Flatten(xs) + p.contexts
    decreases |xs|
  {
    if |xs| == 0 {
      assert xs + [p] == [p];
      assert Flatten([p]) == p.contexts + Flatten([]);
    } else {
      assert (xs + [p])[1..] == xs[1..] + [p];
      FlattenAppend(xs[1..], p);
    }
  }

  /** Extending one set's contexts adds exactly those contexts to the bag of
      all contexts. */
  lemma {:induction false} FlattenExtend(xs: seq<ParameterSet>, i: nat, extra: seq<Path>, v: Value)
    requires i < |xs|
    ensures multiset(Flatten(xs[i := ParameterSet(xs[i].contexts + extra, v)]))
         == multiset(Flatten(xs)) + multiset(extra)
    decreases i
  {
    var x := ParameterSet(xs[i].contexts + extra, v);
    var ys := xs[i := x];
    assert Flatten(ys) == ys[0].contexts + Flatten(ys[1..]);
    assert Flatten(xs) == xs[0].contexts + Flatten(xs[1..]);
    if i == 0 {
      assert ys[1..] == xs[1..];
    } else {
      assert ys[1..] == xs[1..][i - 1 := x];
      FlattenExtend(xs[1..], i - 1, extra, v);
    }
  }

  lemma {:induction false} FlattenConcat(xs: seq<ParameterSet>, ys: seq<ParameterSet>)
    ensures Flatten(xs + ys) == Flatten(xs) + Flatten(ys)
    decreases |xs|
  {
    if |xs| == 0 {
      assert xs + ys == ys;
    } else {
      assert (xs + ys)[1..] == xs[1..] + ys;
      FlattenConcat(xs[1..], ys);
    }
  }

  /** The parameters of each set, in order. */
  function Params(xs: seq<ParameterSet>): (vs: seq<Value>)
    ensures |vs| == |xs| && forall i :: 0 <= i < |xs| ==> vs[i] == xs[i].parameters
  {
    seq(|xs|, i requires 0 <= i < |xs| => xs[i].parameters)
  }

  predicate DistinctParams(xs: seq<ParameterSet>) {
    forall i, j :: 0 <= i < j < |xs| ==> xs[i].parameters != xs[j].parameters
  }

  // ----- simple_combine_parameter_sets -----

  /** Every set's parameters are `==` to the first set's. */
  predicate Consistent(xs: seq<ParameterSet>)
    requires |xs| > 0
  {
    forall i :: 0 <= i < |xs| ==> PyEqual(xs[i].parameters, xs[0].parameters)
  }

  /** `simple_combine_parameter_sets`: one set holding all contexts when all
      parameters are `==` to the first set's, otherwise the input unchanged.
      The source indexes the first element, so an empty input is an error
      there. */
  function SimpleCombine(xs: seq<ParameterSet>): (r: seq<ParameterSet>)
    requires |xs| > 0
    ensures Flatten(r) == Flatten(xs)
    ensures |r| == 1 || r == xs
    ensures Consistent(xs) ==> |r| == 1 && r[0].parameters == xs[0].parameters
    ensures !Consistent(xs) ==> r == xs
  {
    if Consistent(xs) then
      var r := [ParameterSet(Flatten(xs), xs[0].parameters)];
      assert Flatten(r) == Flatten(xs) + Flatten([]);
      r
    else xs
  }

  // ----- grouping_combine_parameter_sets -----

  /** Position of the group holding parameters `v`, or -1. */
  function FindGroup(gs: seq<ParameterSet>, v: Value): (r: int)
    ensures -1 <= r < |gs|
    ensures r >= 0 ==> gs[r].parameters == v
    ensures r == -1 <==> forall j :: 0 <= j < |gs| ==> gs[j].parameters != v
    decreases |gs|
  {
    if |gs| == 0 then -1
    else
      var r := FindGroup(gs[..|gs| - 1], v);
      if r >= 0 then r else if gs[|gs| - 1].parameters == v then |gs| - 1 else -1
  }

  /** One iteration of the loop over `mapped_params`: a new key opens a
      group at the end (the dictionary keeps insertion order), a known key
      appends the contexts to its group. */
  function Step(gs: seq<ParameterSet>, p: ParameterSet): seq<ParameterSet> {
    var i := FindGroup(gs, p.parameters);
    if i < 0 then gs + [p]
    else gs[i := ParameterSet(gs[i].contexts + p.contexts, gs[i].parameters)]
  }

  /** `grouping_combine_parameter_sets`. Two sets share a key exactly when
      their parameters serialise to the same sorted-key JSON text, which for
      `Value` is structural equality. */
  function Grouping(xs: seq<ParameterSet>): seq<ParameterSet>
    decreases |xs|
  {
    if |xs| == 0 then [] else Step(Grouping(xs[..|xs| - 1]), xs[|xs| - 1])
  }

  // ----- an independent description of the groups -----

  /** `vs` without the occurrences of `v`. */
  function Without<T(==,!new)>(vs: seq<T>, v: T): (r: seq<T>)
    ensures |r| <= |vs|
    ensures forall w :: w in r <==> w in vs && w != v
  {
    if |vs| == 0 then []
    else (if vs[0] == v then [] else [vs[0]]) + Without(vs[1..], v)
  }

  /** The distinct values of `vs` in order of first appearance. */
  function Distinct<T(==,!new)>(vs: seq<T>): (r: seq<T>)
    ensures |r| <= |vs|
    ensures forall w :: w in r <==> w in vs
    ensures forall i, j :: 0 <= i < j < |r| ==> r[i] != r[j]
    decreases |vs|
  {
    if |vs| == 0 then []
    else
      var rest := Distinct(Without(vs[1..], vs[0]));
      assert forall w :: w in vs <==> w == vs[0] || w in vs[1..];
      var r := [vs[0]] + rest;
      forall j | 1 <= j < |r| ensures r[j] == rest[j - 1] && r[j] != vs[0] {
        assert rest[j - 1] in rest;
      }
      r
  }

  /** The contexts of the sets whose parameters are `v`, in input order. */
  function ContextsFor(xs: seq<ParameterSet>, v: Value): seq<Path> {
    if |xs| == 0 then []
    else (if xs[0].parameters == v then xs[0].contexts else []) + ContextsFor(xs[1..], v)
  }

  /** One group per distinct parameter value, in order of first appearance,
      each holding the contexts of all sets with that value. */
  function GroupsReference(xs: seq<ParameterSet>): (gs: seq<ParameterSet>)
    ensures |gs| == |Distinct(Params(xs))|
  {
    var ks := Distinct(Params(xs));
    seq(|ks|, j requires 0 <= j < |ks| => ParameterSet(ContextsFor(xs, ks[j]), ks[j]))
  }

  lemma {:induction false} WithoutAppend<T(!new)>(vs: seq<T>, w: T, v: T)
    ensures Without(vs + [w], v) == Without(vs, v) + (if w == v then [] else [w])
    decreases |vs|
  {
    if |vs| == 0 {
      assert vs + [w] == [w];
      assert Without([w], v) == (if w == v then [] else [w]) + Without([], v);
    } else {
      var h: seq<T> := if vs[0] == v then [] else [vs[0]];
      var t: seq<T> := if w == v then [] else [w];
      assert (vs + [w])[0] == vs[0] && (vs + [w])[1..] == vs[1..] + [w];
      assert Without(vs + [w], v) == h + Without(vs[1..] + [w], v);
      WithoutAppend(vs[1..], w, v);
      assert Without(vs, v) == h + Without(vs[1..], v);
      assert h + (Without(vs[1..], v) + t) == (h + Without(vs[1..], v)) + t;
    }
  }

  /** Appending a value extends the distinct values exactly when it is new. */
  lemma {:induction false} DistinctAppend<T(!new)>(vs: seq<T>, w: T)
    ensures Distinct(vs + [w]) == if w in vs then Distinct(vs) else Distinct(vs) + [w]
    decreases |vs|
  {
    if |vs| == 0 {
      assert vs + [w] == [w];
      assert Distinct([w]) == [w] + Distinct(Without([], w));
    } else {
      var h := vs[0];
      assert (vs + [w])[0] == h && (vs + [w])[1..] == vs[1..] + [w];
      WithoutAppend(vs[1..], w, h);
      if w == h {
        assert Without(vs[1..] + [w], h) == Without(vs[1..], h);
      } else {
        var t := Without(vs[1..], h);
        DistinctAppend(t, w);
        assert w in t <==> w in vs;
        assert Distinct(vs + [w]) == [h] + Distinct(t + [w]);
      }
    }
  }

  lemma {:induction false} ContextsForAppend(xs: seq<ParameterSet>, p: ParameterSet, v: Value)
    ensures ContextsFor(xs + [p], v) == ContextsFor(xs, v) + (if p.parameters == v then p.contexts else [])
    decreases |xs|
  {
    if |xs| == 0 {
      assert xs + [p] == [p];
      assert ContextsFor([p], v) == (if p.parameters == v then p.contexts else []) + ContextsFor([], v);
    } else {
      assert (xs + [p])[1..] == xs[1..] + [p];
      ContextsForAppend(xs[1..], p, v);
    }
  }

  lemma {:induction false} ContextsForAbsent(xs: seq<ParameterSet>, v: Value)
    requires v !in Params(xs)
    ensures ContextsFor(xs, v) == []
    decreases |xs|
  {
    if |xs| > 0 {
      assert Params(xs)[0] == xs[0].parameters;
      assert Params(xs[1..]) == Params(xs)[1..];
      ContextsForAbsent(xs[1..], v);
    }
  }

  /** The groups of the reference, one per distinct value. */
  lemma ReferenceAt(xs: seq<ParameterSet>, j: nat)
    requires j < |Distinct(Params(xs))|
    ensures GroupsReference(xs)[j]
         == ParameterSet(ContextsFor(xs, Distinct(Params(xs))[j]), Distinct(Params(xs))[j])
  {
  }

  /** A set with new parameters opens a group at the end. */
  lemma ReferenceAppendNew(ys: seq<ParameterSet>, p: ParameterSet)
    requires p.parameters !in Params(ys)
    ensures GroupsReference(ys + [p]) == GroupsReference(ys) + [p]
  {
    var xs := ys + [p];
    var v := p.parameters;
    ParamsAppend(ys, p);
    DistinctAppend(Params(ys), v);
    var ks := Distinct(Params(ys));
    var r := GroupsReference(xs);
    var g := GroupsReference(ys) + [p];
    forall j | 0 <= j < |ks|
      ensures r[j] == g[j]
    {
      ReferenceAppendNewAt(ys, p, j);
    }
    ReferenceAt(xs, |ks|);
    ContextsForAbsent(ys, v);
    ContextsForAppend(ys, p, v);
    assert r[|ks|] == g[|ks|];
  }

  lemma ParamsAppend(ys: seq<ParameterSet>, p: ParameterSet)
    ensures Params(ys + [p]) == Params(ys) + [p.parameters]
  {
  }

  lemma ReferenceAppendNewAt(ys: seq<ParameterSet>, p: ParameterSet, j: nat)
    requires p.parameters !in Params(ys)
    requires j < |Distinct(Params(ys))|
    ensures |GroupsReference(ys + [p])| > j
    ensures GroupsReference(ys + [p])[j] == GroupsReference(ys)[j]
  {
    var ks := Distinct(Params(ys));
    ParamsAppend(ys, p);
    DistinctAppend(Params(ys), p.parameters);
    ReferenceAt(ys + [p], j);
    ReferenceAt(ys, j);
    ContextsForAppend(ys, p, ks[j]);
    assert ks[j] in Params(ys);
  }

  /** A set with known parameters extends that group's contexts. */
  lemma ReferenceAppendOld(ys: seq<ParameterSet>, p: ParameterSet, i: nat)
    requires i < |Distinct(Params(ys))| && Distinct(Params(ys))[i] == p.parameters
    ensures GroupsReference(ys + [p])
         == GroupsReference(ys)[i := ParameterSet(GroupsReference(ys)[i].contexts + p.contexts, p.parameters)]
  {
    var xs := ys + [p];
    var v := p.parameters;
    assert Params(xs) == Params(ys) + [v];
    var ks := Distinct(Params(ys));
    assert v in ks;
    DistinctAppend(Params(ys), v);
    assert Distinct(Params(xs)) == ks;
    var r := GroupsReference(xs);
    var g := GroupsReference(ys)[i := ParameterSet(GroupsReference(ys)[i].contexts + p.contexts, p.parameters)];
    assert |r| == |g|;
    forall j | 0 <= j < |ks|
      ensures r[j] == g[j]
    {
      ReferenceAt(xs, j);
      ReferenceAt(ys, j);
      ContextsForAppend(ys, p, ks[j]);
    }
  }

  /** The dictionary fold builds exactly the reference groups. */
  lemma {:induction false} GroupingIsReference(xs: seq<ParameterSet>)
    ensures Grouping(xs) == GroupsReference(xs)
    decreases |xs|
  {
    if |xs| == 0 {
      assert Params(xs) == [];
    } else {
      var ys := xs[..|xs| - 1];
      var p := xs[|xs| - 1];
      assert xs == ys + [p];
      GroupingIsReference(ys);
      var gs := Grouping(ys);
      var ks := Distinct(Params(ys));
      var i := FindGroup(gs, p.parameters);
      forall j | 0 <= j < |ks| ensures gs[j].parameters == ks[j] {
        ReferenceAt(ys, j);
      }
      if i < 0 {
        assert p.parameters !in ks;
        ReferenceAppendNew(ys, p);
      } else {
        assert ks[i] == p.parameters;
        ReferenceAppendOld(ys, p, i);
      }
    }
  }

  // ----- properties of the grouping -----

  /** No two groups share parameters; there are at most as many groups as
      sets, and at least one when there is a set. */
  lemma GroupingShape(xs: seq<ParameterSet>)
    ensures DistinctParams(Grouping(xs))
    ensures |Grouping(xs)| <= |xs|
    ensures |xs| > 0 ==> |Grouping(xs)| > 0
  {
    GroupingIsReference(xs);
    if |xs| > 0 {
      assert xs[0].parameters in Params(xs);
    }
  }

  /** A group with parameters `v` exists exactly when some set has them, and
      it holds the contexts of all those sets, in input order. */
  lemma GroupingContents(xs: seq<ParameterSet>, v: Value)
    ensures (exists j :: 0 <= j < |Grouping(xs)| && Grouping(xs)[j].parameters == v)
        <==> (exists i :: 0 <= i < |xs| && xs[i].parameters == v)
    ensures var gs := Grouping(xs);
      forall j :: 0 <= j < |gs| && gs[j].parameters == v ==> gs[j].contexts == ContextsFor(xs, v)
  {
    GroupingIsReference(xs);
    ParamsHas(xs, v);
    ReferenceHas(xs, v);
    var gs := GroupsReference(xs);
    forall j | 0 <= j < |gs| && gs[j].parameters == v ensures gs[j].contexts == ContextsFor(xs, v) {
      ReferenceAt(xs, j);
    }
  }

  lemma ParamsHas(xs: seq<ParameterSet>, v: Value)
    ensures v in Params(xs) <==> exists i :: 0 <= i < |xs| && xs[i].parameters == v
  {
    if v in Params(xs) {
      var i :| 0 <= i < |xs| && Params(xs)[i] == v;
    }
  }

  lemma ReferenceHas(xs: seq<ParameterSet>, v: Value)
    ensures (exists j :: 0 <= j < |GroupsReference(xs)| && GroupsReference(xs)[j].parameters == v)
        <==> v in Params(xs)
  {
    var ks := Distinct(Params(xs));
    var gs := GroupsReference(xs);
    if v in Params(xs) {
      var j :| 0 <= j < |ks| && ks[j] == v;
      ReferenceAt(xs, j);
    }
    if exists j :: 0 <= j < |gs| && gs[j].parameters == v {
      var j :| 0 <= j < |gs| && gs[j].parameters == v;
      ReferenceAt(xs, j);
      assert ks[j] in ks;
    }
  }

  /** Grouping moves contexts around but neither loses nor invents any. */
  lemma {:induction false} GroupingPermutesContexts(xs: seq<ParameterSet>)
    ensures multiset(Flatten(Grouping(xs))) == multiset(Flatten(xs))
    decreases |xs|
  {
    if |xs| > 0 {
      var ys := xs[..|xs| - 1];
      var p := xs[|xs| - 1];
      assert xs == ys + [p];
      GroupingPermutesContexts(ys);
      FlattenAppend(ys, p);
      var gs := Grouping(ys);
      var i := FindGroup(gs, p.parameters);
      if i < 0 {
        FlattenAppend(gs, p);
      } else {
        FlattenExtend(gs, i, p.contexts, gs[i].parameters);
      }
    }
  }

  /** A context appears after grouping exactly when it appeared before. */
  lemma GroupingKeepsContexts(xs: seq<ParameterSet>, p: Path)
    ensures p in Flatten(Grouping(xs)) <==> p in Flatten(xs)
  {
    GroupingPermutesContexts(xs);
    assert p in Flatten(xs) <==> p in multiset(Flatten(xs));
    assert p in Flatten(Grouping(xs)) <==> p in multiset(Flatten(Grouping(xs)));
  }

  /** Sets whose parameters are already distinct come back unchanged. */
  lemma {:induction false} GroupingOfDistinct(xs: seq<ParameterSet>)
    requires DistinctParams(xs)
    ensures Grouping(xs) == xs
    decreases |xs|
  {
    if |xs| > 0 {
      var ys := xs[..|xs| - 1];
      GroupingOfDistinct(ys);
      assert FindGroup(ys, xs[|xs| - 1].parameters) == -1;
      assert ys + [xs[|xs| - 1]] == xs;
    }
  }

  /** Grouping twice is grouping once. */
  lemma GroupingIdempotent(xs: seq<ParameterSet>)
    ensures Grouping(Grouping(xs)) == Grouping(xs)
  {
    GroupingShape(xs);
    GroupingOfDistinct(Grouping(xs));
  }

  lemma {:induction false} DistinctSingle(vs: seq<Value>)
    ensures |Distinct(vs)| == 1 <==> |vs| > 0 && forall i :: 0 <= i < |vs| ==> vs[i] == vs[0]
  {
    if |vs| > 0 {
      var t := Without(vs[1..], vs[0]);
      assert |Distinct(t)| == 0 <==> t == [] by {
        if t != [] { assert t[0] in Distinct(t); }
      }
      assert t == [] <==> forall i :: 0 <= i < |vs| ==> vs[i] == vs[0] by {
        if t != [] {
          assert t[0] in vs[1..];
        }
        if exists i :: 0 <= i < |vs| && vs[i] != vs[0] {
          var i :| 0 <= i < |vs| && vs[i] != vs[0];
          assert vs[i] in vs[1..];
          assert vs[i] in t;
        }
      }
    }
  }

  /** There is a single group exactly when there are sets and all their
      parameters are identical. */
  lemma GroupingSingle(xs: seq<ParameterSet>)
    ensures |Grouping(xs)| == 1
        <==> |xs| > 0 && forall i :: 0 <= i < |xs| ==> xs[i].parameters == xs[0].parameters
  {
    GroupingIsReference(xs);
    DistinctSingle(Params(xs));
  }

  lemma {:induction false} ContextsForAll(xs: seq<ParameterSet>, v: Value)
    requires forall i :: 0 <= i < |xs| ==> xs[i].parameters == v
    ensures ContextsFor(xs, v) == Flatten(xs)
    decreases |xs|
  {
    if |xs| > 0 {
      ContextsForAll(xs[1..], v);
    }
  }

  /** When grouping finds a single group, the simple strategy agrees with
      it. (The converse fails: see `PyEqualIsCoarser`.) */
  lemma SimpleAgreesWithSingleGroup(xs: seq<ParameterSet>)
    requires |Grouping(xs)| == 1
    ensures |xs| > 0 && SimpleCombine(xs) == Grouping(xs)
  {
    GroupingSingle(xs);
    PyEqualReflexive(xs[0].parameters);
    assert Consistent(xs);
    GroupingContents(xs, xs[0].parameters);
    ContextsForAll(xs, xs[0].parameters);
    GroupingShape(xs);
    assert Grouping(xs)[0].parameters == xs[0].parameters by {
      var j :| 0 <= j < |Grouping(xs)| && Grouping(xs)[j].parameters == xs[0].parameters;
    }
  }

  // ----- the examples of the script's tests -----

  function B(n: int): Value {
    Obj(map["b" := Int(n)])
  }

  lemma GroupingExampleTwoEqual()
    ensures Grouping([ParameterSet(["b"], B(1)), ParameterSet(["c"], B(1))])
         == [ParameterSet(["b", "c"], B(1))]
  {
    var xs := [ParameterSet(["b"], B(1)), ParameterSet(["c"], B(1))];
    assert xs[..1] == [xs[0]];
    assert Grouping(xs[..1]) == [xs[0]] by {
      assert [xs[0]][..0] == [];
    }
    assert FindGroup([xs[0]], B(1)) == 0;
    assert ["b"] + ["c"] == ["b", "c"];
  }

  lemma GroupingExampleTwoUnequal()
    ensures Grouping([ParameterSet(["b"], B(2)), ParameterSet(["c"], B(1))])
         == [ParameterSet(["b"], B(2)), ParameterSet(["c"], B(1))]
  {
    assert B(1) != B(2) by { assert B(1).fields["b"] != B(2).fields["b"]; }
    GroupingOfDistinct([ParameterSet(["b"], B(2)), ParameterSet(["c"], B(1))]);
  }

  lemma GroupingExampleThree()
    ensures Grouping([ParameterSet(["b"], B(2)), ParameterSet(["c"], B(1)), ParameterSet(["d"], B(2))])
         == [ParameterSet(["b", "d"], B(2)), ParameterSet(["c"], B(1))]
  {
    var xs := [ParameterSet(["b"], B(2)), ParameterSet(["c"], B(1)), ParameterSet(["d"], B(2))];
    GroupingExampleTwoUnequal();
    assert xs[..2] == [ParameterSet(["b"], B(2)), ParameterSet(["c"], B(1))];
    var gs := Grouping(xs[..2]);
    assert FindGroup(gs, B(2)) == 0 by {
      assert gs[..1] == [gs[0]];
      assert [gs[0]][..0] == [];
    }
    assert ["b"] + ["d"] == ["b", "d"];
  }

  lemma SimpleCombineExamples()
    ensures SimpleCombine([ParameterSet(["b"], B(1)), ParameterSet(["c"], B(1))])
         == [ParameterSet(["b", "c"], B(1))]
    ensures SimpleCombine([ParameterSet(["b"], B(2)), ParameterSet(["c"], B(1))])
         == [ParameterSet(["b"], B(2)), ParameterSet(["c"], B(1))]
    ensures SimpleCombine([ParameterSet(["b"], B(2)), ParameterSet(["c"], B(1)), ParameterSet(["d"], B(2))])
         == [ParameterSet(["b"], B(2)), ParameterSet(["c"], B(1)), ParameterSet(["d"], B(2))]
  {
    PyEqualReflexive(B(1));
    var xs := [ParameterSet(["b"], B(1)), ParameterSet(["c"], B(1))];
    assert Consistent(xs);
    assert xs[1..] == [ParameterSet(["c"], B(1))];
    assert Flatten(xs) == ["b"] + (["c"] + []) == ["b", "c"];
    assert !PyEqual(B(1), B(2)) by { assert B(1).fields["b"] == Int(1); }
  }
}
