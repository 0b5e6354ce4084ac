/** Configuration values (`ConfigurationValue`): an id, a raw string, a
    type, a description and tags, plus the configuration the value belongs
    to. Evaluation replaces `${name}` references by the evaluated values of
    that configuration and refuses reference cycles.

    A value obtained from a configuration's container is always re-attached
    to the configuration it was asked for (the container's elevation), so
    evaluation is modelled against that configuration's resolved raw values:
    a map from id to raw string. `attached` says whether the value has a
    configuration at all. */
module ConfigValues {
  import opened Wrappers
  import JS = JavaStrings

  /** The helpers of `RoddyConversionHelperMethods` type detection relies
      on; their definitions are not part of this model. */
  datatype Detectors = Detectors(
    isNullOrEmpty: string -> bool,
    isInteger: string -> bool,
    isDouble: string -> bool,
    isFloat: string -> bool,
    isDefinedArray: string -> bool)

  datatype CValue = CValue(
    id: string,
    value: string,
    attached: bool,
    valueType: string,
    description: string,
    tags: seq<string>)

  const BASH_ARRAY: string := "bashArray"
  const STRING_TYPE: string := "string"

  /** `determineTypeOfValue`: the first of integer, double, float and bash
      array that the value passes, else string. */
  function DetermineType(value: string, d: Detectors): (t: string)
    ensures t == "integer" <==> d.isInteger(value)
    ensures t == "double" <==> !d.isInteger(value) && d.isDouble(value)
    ensures t == "float" <==> !d.isInteger(value) && !d.isDouble(value) && d.isFloat(value)
    ensures t == BASH_ARRAY <==>
      !d.isInteger(value) && !d.isDouble(value) && !d.isFloat(value) && d.isDefinedArray(value)
    ensures t == STRING_TYPE <==>
      !d.isInteger(value) && !d.isDouble(value) && !d.isFloat(value) && !d.isDefinedArray(value)
  {
    if d.isInteger(value) then "integer"
    else if d.isDouble(value) then "double"
    else if d.isFloat(value) then "float"
    else if d.isDefinedArray(value) then BASH_ARRAY
    else STRING_TYPE
  }

  /** The full constructor: a given, non-blank type is kept, otherwise the
      type is detected from the value; `None` tags mean no tags. */
  function Make(attached: bool, id: string, value: string, givenType: Option<string>,
                description: string, tags: Option<seq<string>>, d: Detectors): (cv: CValue)
    ensures cv.id == id && cv.value == value && cv.attached == attached && cv.description == description
    ensures givenType.Some? && !d.isNullOrEmpty(givenType.value) ==> cv.valueType == givenType.value
    ensures givenType.None? || d.isNullOrEmpty(givenType.value) ==> cv.valueType == DetermineType(value, d)
    ensures cv.tags == if tags.Some? then tags.value else []
  {
    var t := if givenType.Some? && !d.isNullOrEmpty(givenType.value) then givenType.value
             else DetermineType(value, d);
    CValue(id, value, attached, t, description, if tags.Some? then tags.value else [])
  }

  /** `equals`: id, value and type; configuration, description and tags
      play no part. */
  predicate Equal(a: CValue, b: CValue) {
    a.id == b.id && a.value == b.value && a.valueType == b.valueType
  }

  /** Equality is an equivalence that ignores everything but id, value and
      type. */
  lemma EqualIgnoresExtras(a: CValue, b: CValue, c: CValue, attached: bool, description: string, tags: seq<string>)
    ensures Equal(a, a)
    ensures Equal(a, b) ==> Equal(b, a)
    ensures Equal(a, b) && Equal(b, c) ==> Equal(a, c)
    ensures Equal(a, a.(attached := attached, description := description, tags := tags))
    ensures Equal(a, b) <==> a.(attached := false, description := "", tags := []) == b.(attached := false, description := "", tags := [])
  {
  }

  /** `hasTag(tag)`. */
  predicate HasTag(cv: CValue, tag: string) {
    tag in cv.tags
  }

  // ---------------------------------------------------------------------
  // Booleans and blank values
  // ---------------------------------------------------------------------

  /** `toBoolean()` on a value that may be `null` (`None`): after lower
      casing, a leading y, j or t, or exactly "1", is true; everything else
      (a leading n or f, "0", anything unrecognised, and `null`) is false. */
  function ToBoolean(value: Option<string>): (b: bool)
    ensures value.None? ==> !b
    ensures value.Some? ==> (b <==> (|value.value| > 0 && JS.LowerChar(value.value[0]) in {'y', 'j', 't'}) || value.value == "1")
  {
    var v := if value.Some? then JS.ToLower(value.value) else "f";
    assert v == "f" ==> v[..1] == "f";
    if JS.StartsWith(v, "y") || JS.StartsWith(v, "j") || JS.StartsWith(v, "t") || v == "1" then true
    else if JS.StartsWith(v, "n") || JS.StartsWith(v, "f") || v == "0" then false
    else false
  }

  lemma ToBooleanExamples()
    ensures ToBoolean(Some("true")) && ToBoolean(Some("Yes")) && ToBoolean(Some("ja")) && ToBoolean(Some("1"))
    ensures !ToBoolean(Some("false")) && !ToBoolean(Some("no")) && !ToBoolean(Some("0"))
    ensures !ToBoolean(Some("")) && !ToBoolean(Some("maybe")) && !ToBoolean(None)
  {
  }

  /** `isNullOrEmpty()`: `null`, or nothing but characters up to U+0020. */
  predicate IsNullOrEmpty(value: Option<string>) {
    value.None? || |value.value| == 0 || |JS.Trim(value.value)| == 0
  }

  lemma {:induction false} TrimEmptyIffBlank(s: string)
    ensures |JS.Trim(s)| == 0 <==> forall i :: 0 <= i < |s| ==> JS.IsTrimmable(s[i])
    decreases |s|
  {
    if |s| > 0 && JS.IsTrimmable(s[0]) {
      TrimEmptyIffBlank(s[1..]);
      assert forall i :: 1 <= i < |s| ==> s[i] == s[1..][i - 1];
    } else if |s| > 0 {
      assert JS.TrimStart(s) == s;
      TrimEndKeepsFirst(s);
    }
  }

  lemma {:induction false} TrimEndKeepsFirst(s: string)
    requires |s| > 0 && !JS.IsTrimmable(s[0])
    ensures |JS.TrimEnd(s)| > 0
    decreases |s|
  {
    if JS.IsTrimmable(s[|s| - 1]) {
      TrimEndKeepsFirst(s[..|s| - 1]);
    }
  }

  /** A value is blank exactly when it is `null` or consists of characters
      up to U+0020 only. */
  lemma IsNullOrEmptySpec(value: Option<string>)
    ensures IsNullOrEmpty(value) <==>
      value.None? || forall i :: 0 <= i < |value.value| ==> JS.IsTrimmable(value.value[i])
  {
    if value.Some? {
      TrimEmptyIffBlank(value.value);
    }
  }

  // ---------------------------------------------------------------------
  // References `${name}`
  // ---------------------------------------------------------------------

  /** The characters of `[a-zA-Z0-9_]`. */
  predicate IsWordChar(c: char) {
    'a' <= c <= 'z' || 'A' <= c <= 'Z' || '0' <= c <= '9' || c == '_'
  }

  predicate IsWord(s: string) {
    forall i :: 0 <= i < |s| ==> IsWordChar(s[i])
  }

  /** The length of the run of word characters starting at `i`. */
  function WordRun(s: string, i: nat): (n: nat)
    requires i <= |s|
    ensures i + n <= |s|
    ensures IsWord(s[i..i + n])
    ensures i + n < |s| ==> !IsWordChar(s[i + n])
    decreases |s| - i
  {
    if i < |s| && IsWordChar(s[i]) then
      var n := WordRun(s, i + 1);
      assert s[i..i + 1 + n] == [s[i]] + s[i + 1..i + 1 + n];
      1 + n
    else 0
  }

  /** The reference `${name}` as text. */
  function Ref(name: string): string {
    "${" + name + "}"
  }

  /** `${name}` with a word-character name starts at `j`. */
  predicate RefAt(s: string, name: string, j: int) {
    IsWord(name) && JS.OccursAt(s, Ref(name), j)
  }

  /** A match of `[$][{][a-zA-Z0-9_]*[}]` starts at `i`. */
  predicate MatchAt(s: string, i: nat) {
    i + 1 < |s| && s[i] == '$' && s[i + 1] == '{' &&
    i + 2 + WordRun(s, i + 2) < |s| && s[i + 2 + WordRun(s, i + 2)] == '}'
  }

  /** The names of the matches found scanning from `i`, left to right and
      without overlap (the find-all loop of `getIDsForParentValues`), with
      `$`, `{` and `}` removed. */
  function RefsFrom(s: string, i: nat): (r: seq<string>)
    requires i <= |s|
    ensures forall n :: n in r ==> exists j :: i <= j && RefAt(s, n, j)
    decreases |s| - i
  {
    if i == |s| then []
    else if MatchAt(s, i) then
      var n := WordRun(s, i + 2);
      var name := s[i + 2..i + 2 + n];
      assert s[i..i + |Ref(name)|] == Ref(name);
      assert RefAt(s, name, i);
      [name] + RefsFrom(s, i + 3 + n)
    else RefsFrom(s, i + 1)
  }

  /** `getIDsForParentValues()`. */
  function Refs(s: string): seq<string> {
    RefsFrom(s, 0)
  }

  /** No match starts inside a match: its inner characters are `{`, word
      characters and the closing `}`. */
  lemma NoRefInsideMatch(s: string, i: nat, name: string, j: int)
    requires MatchAt(s, i)
    requires i < j < i + 3 + WordRun(s, i + 2)
    ensures !RefAt(s, name, j)
  {
    var n := WordRun(s, i + 2);
    assert s[j] != '$' by {
      if i + 2 <= j < i + 2 + n {
        assert s[j] == s[i + 2..i + 2 + n][j - i - 2];
      }
    }
    assert Ref(name)[0] == '$';
  }

  /** Every occurrence of `${name}` at or after `i` is found. */
  lemma {:induction false} RefsFromComplete(s: string, i: nat, name: string, j: int)
    requires i <= j && RefAt(s, name, j)
    requires i <= |s|
    ensures name in RefsFrom(s, i)
    decreases |s| - i, 1
  {
    assert j + 3 <= |s| by { assert |Ref(name)| == |name| + 3; }
    if j == i {
      RefAtIsMatch(s, name, j);
      assert RefsFrom(s, i)[0] == name;
    } else if MatchAt(s, i) {
      RefsFromCompleteAfterMatch(s, i, name, j);
    } else {
      RefsFromComplete(s, i + 1, name, j);
    }
  }

  lemma {:induction false} RefsFromCompleteAfterMatch(s: string, i: nat, name: string, j: int)
    requires i < j && RefAt(s, name, j)
    requires i < |s| && MatchAt(s, i)
    ensures name in RefsFrom(s, i)
    decreases |s| - i, 0
  {
    var n := WordRun(s, i + 2);
    var rest := RefsFrom(s, i + 3 + n);
    assert RefsFrom(s, i) == [s[i + 2..i + 2 + n]] + rest;
    if j < i + 3 + n {
      NoRefInsideMatch(s, i, name, j);
    }
    RefsFromComplete(s, i + 3 + n, name, j);
    assert name in rest;
  }

  /** An occurrence of `${name}` is a match whose name is `name`. */
  lemma RefAtIsMatch(s: string, name: string, j: nat)
    requires RefAt(s, name, j)
    ensures MatchAt(s, j) && WordRun(s, j + 2) == |name| && s[j + 2..j + 2 + |name|] == name
  {
    var r := Ref(name);
    var m := |name|;
    assert |r| == m + 3;
    assert s[j..j + m + 3] == r;
    assert forall k :: 0 <= k < m + 3 ==> s[j + k] == r[k];
    assert r[0] == '$' && r[1] == '{' && r[m + 2] == '}';
    assert forall k :: 0 <= k < m ==> r[2 + k] == name[k];
    assert forall k :: j + 2 <= k < j + 2 + m ==> s[k] == name[k - j - 2];
    WordRunExact(s, j + 2, m);
    assert s[j + 2..j + 2 + m] == name;
  }

  lemma {:induction false} WordRunExact(s: string, i: nat, n: nat)
    requires i + n < |s|
    requires forall k :: i <= k < i + n ==> IsWordChar(s[k])
    requires !IsWordChar(s[i + n])
    ensures WordRun(s, i) == n
    decreases n
  {
    if n > 0 {
      WordRunExact(s, i + 1, n - 1);
    }
  }

  /** A name is listed iff the string contains `${name}` for it. */
  lemma RefsSpec(s: string, name: string)
    ensures name in Refs(s) <==> exists j :: RefAt(s, name, j)
  {
    if exists j :: RefAt(s, name, j) {
      var j :| RefAt(s, name, j);
      RefsFromComplete(s, 0, name, j);
    }
  }

  /** A reference on its own yields exactly its name. */
  lemma RefsOfRef(name: string)
    requires IsWord(name)
    ensures Refs(Ref(name)) == [name]
  {
    var s := Ref(name);
    assert JS.OccursAt(s, Ref(name), 0);
    RefAtIsMatch(s, name, 0);
    assert RefsFrom(s, 3 + |name|) == [];
  }

  // ---------------------------------------------------------------------
  // Evaluation
  // ---------------------------------------------------------------------

  /** The ids whose evaluation is still open, as a set. */
  function Open(bl: seq<string>): set<string> {
    set b | b in bl
  }

  /** The number of known ids not yet on the blacklist: every nested
      evaluation adds a known id, so this measure shrinks. */
  function Unvisited(env: map<string, string>, bl: seq<string>): nat {
    |env.Keys - Open(bl)|
  }

  lemma UnvisitedShrinks(env: map<string, string>, bl: seq<string>, v: string)
    requires v in env && v !in bl
    ensures Unvisited(env, bl + [v]) < Unvisited(env, bl)
  {
    assert Open(bl + [v]) == Open(bl) + {v};
    assert env.Keys - Open(bl + [v]) == (env.Keys - Open(bl)) - {v};
  }

  /** `toEvaluatedValue(blackList)` of the value `id` with raw string `raw`
      in a configuration whose resolved raw values are `env`: a reference
      to a blacklisted id is a cyclic dependency, and the failure carries
      the id of the value that found it (the configuration completes the
      message and records it as a load error); otherwise each reference to
      a known id, in order, is replaced by that id's value evaluated with
      the id added to the blacklist, and unknown references stay. */
  function Evaluate(id: string, raw: string, env: map<string, string>, bl: seq<string>): (r: Result<string, string>)
    ensures |Refs(raw)| == 0 ==> r == Success(raw)
    decreases Unvisited(env, bl), 1, 0
  {
    var names := Refs(raw);
    if exists n | n in names :: n in bl then
      Failure(id)
    else
      Substitute(raw, names, env, bl)
  }

  /** The replacement loop of `toEvaluatedValue`. */
  function Substitute(temp: string, names: seq<string>, env: map<string, string>, bl: seq<string>): Result<string, string>
    requires forall n :: n in names ==> n !in bl
    decreases Unvisited(env, bl), 0, |names|
  {
    if |names| == 0 then Success(temp)
    else
      var v := names[0];
      if v in env then
        UnvisitedShrinks(env, bl, v);
        var sub :- Evaluate(v, env[v], env, bl + [v]);
        Substitute(JS.Replace(temp, Ref(v), sub), names[1..], env, bl)
      else Substitute(temp, names[1..], env, bl)
  }

  /** The evaluated string of a value: the raw string when the value
      belongs to no configuration. */
  function ToEvaluated(cv: CValue, env: map<string, string>, bl: seq<string>): (r: Result<string, string>)
    ensures !cv.attached ==> r == Success(cv.value)
  {
    if !cv.attached then Success(cv.value) else Evaluate(cv.id, cv.value, env, bl)
  }

  /** References to unknown ids are left untouched. */
  lemma {:induction false} SubstituteUnknown(temp: string, names: seq<string>, env: map<string, string>, bl: seq<string>)
    requires forall n :: n in names ==> n !in bl && n !in env
    ensures Substitute(temp, names, env, bl) == Success(temp)
    decreases |names|
  {
    if |names| > 0 {
      SubstituteUnknown(temp, names[1..], env, bl);
    }
  }

  lemma UnknownRefsStay(id: string, raw: string, env: map<string, string>)
    requires forall n :: n in Refs(raw) ==> n !in env
    ensures Evaluate(id, raw, env, []) == Success(raw)
  {
    SubstituteUnknown(raw, Refs(raw), env, []);
  }

  /** A known reference is replaced by the referenced value's evaluation. */
  lemma SingleRefReplaced(id: string, name: string, env: map<string, string>, s: string)
    requires IsWord(name) && name in env
    requires Evaluate(name, env[name], env, [name]) == Success(s)
    ensures Evaluate(id, Ref(name), env, []) == Success(s)
  {
    RefsOfRef(name);
    var names := Refs(Ref(name));
    assert names[1..] == [];
    assert [] + [name] == [name];
    var t := Ref(name);
    assert t[..|t|] == t && t[|t|..] == "";
    assert JS.Replace("", t, s) == "";
    assert JS.Replace(t, t, s) == s;
    assert Evaluate(name, env[name], env, [] + [name]) == Success(s);
    assert Substitute(s, names[1..], env, []) == Success(s);
    assert Substitute(t, names, env, []) == Success(s);
    assert !(exists n | n in names :: n in []);
  }

  /** Ranks that strictly decrease along every reference between known
      ids: the references have no cycle. */
  ghost predicate Ranked(env: map<string, string>, rank: map<string, nat>) {
    forall v :: v in env ==> v in rank && forall n :: n in Refs(env[v]) && n in env ==> n in rank && rank[n] < rank[v]
  }

  /** Without reference cycles, evaluation never fails. */
  lemma {:induction false} AcyclicEvaluates(id: string, raw: string, env: map<string, string>, bl: seq<string>,
                                            rank: map<string, nat>, bound: nat)
    requires Ranked(env, rank)
    requires forall b :: b in bl ==> b in env && b in rank && rank[b] >= bound
    requires forall n :: n in Refs(raw) && n in env ==> n in rank && rank[n] < bound
    ensures Evaluate(id, raw, env, bl).Success?
    decreases Unvisited(env, bl), 1, 0
  {
    var names := Refs(raw);
    assert forall n :: n in names ==> n !in bl;
    SubstituteEvaluates(raw, names, env, bl, rank, bound);
  }

  lemma {:induction false} SubstituteEvaluates(temp: string, names: seq<string>, env: map<string, string>, bl: seq<string>,
                                               rank: map<string, nat>, bound: nat)
    requires Ranked(env, rank)
    requires forall n :: n in names ==> n !in bl
    requires forall b :: b in bl ==> b in env && b in rank && rank[b] >= bound
    requires forall n :: n in names && n in env ==> n in rank && rank[n] < bound
    ensures Substitute(temp, names, env, bl).Success?
    decreases Unvisited(env, bl), 0, |names|
  {
    if |names| > 0 {
      var v := names[0];
      if v in env {
        UnvisitedShrinks(env, bl, v);
        AcyclicEvaluates(v, env[v], env, bl + [v], rank, rank[v]);
        var sub := Evaluate(v, env[v], env, bl + [v]).value;
        SubstituteEvaluates(JS.Replace(temp, Ref(v), sub), names[1..], env, bl, rank, bound);
      } else {
        SubstituteEvaluates(temp, names[1..], env, bl, rank, bound);
      }
    }
  }

  /** Every value of a configuration without reference cycles evaluates. */
  lemma AcyclicValueEvaluates(env: map<string, string>, rank: map<string, nat>, v: string)
    requires Ranked(env, rank) && v in env
    ensures Evaluate(v, env[v], env, []).Success?
  {
    AcyclicEvaluates(v, env[v], env, [], rank, rank[v]);
  }

  /** The first reference of `raw` is `next`. */
  predicate FirstRefIs(raw: string, next: string) {
    |Refs(raw)| > 0 && Refs(raw)[0] == next
  }

  /** Following first references from `p[0]` visits `p[1]`, `p[2]`, ...,
      and the last one leads back to `p[1]`: a reference cycle, possibly
      entered through `p[0]`. */
  ghost predicate FirstRefLoop(env: map<string, string>, p: seq<string>) {
    2 <= |p| &&
    (forall k :: 0 <= k < |p| ==> p[k] in env) &&
    (forall k :: 0 <= k < |p| - 1 ==> FirstRefIs(env[p[k]], p[k + 1])) &&
    FirstRefIs(env[p[|p| - 1]], p[1])
  }

  /** Evaluating the loop's names while the earlier ones are still open
      fails. */
  lemma {:induction false} LoopFails(env: map<string, string>, p: seq<string>, i: nat)
    requires FirstRefLoop(env, p) && 1 <= i < |p|
    ensures Evaluate(p[i], env[p[i]], env, p[1..i + 1]).Failure?
    ensures Evaluate(p[i], env[p[i]], env, p[1..i + 1]).error in p[1..]
    decreases |p| - i
  {
    var bl := p[1..i + 1];
    var names := Refs(env[p[i]]);
    if i == |p| - 1 {
      assert names[0] == p[1] && p[1] == bl[0];
      assert names[0] in names && names[0] in bl;
    } else if !(exists n | n in names :: n in bl) {
      assert FirstRefIs(env[p[i]], p[i + 1]);
      var next := names[0];
      assert next == p[i + 1];
      assert bl + [next] == p[1..i + 2];
      LoopFails(env, p, i + 1);
      assert Substitute(env[p[i]], names, env, bl).Failure?;
    }
  }

  /** A value whose first references run into a cycle (`a=${a}`, or
      `a=${b}` with `b=${a}`, ...) fails to evaluate, and the value that
      finds the cycle is one on it. */
  lemma CyclicValueFails(env: map<string, string>, p: seq<string>)
    requires FirstRefLoop(env, p)
    ensures Evaluate(p[0], env[p[0]], env, []).Failure?
    ensures Evaluate(p[0], env[p[0]], env, []).error in p[1..]
  {
    var names := Refs(env[p[0]]);
    assert names[0] == p[1];
    assert [] + [p[1]] == p[1..2];
    LoopFails(env, p, 1);
    assert Substitute(env[p[0]], names, env, []).Failure?;
  }

  lemma SelfReferenceFails(env: map<string, string>, a: string)
    requires IsWord(a) && a in env && env[a] == Ref(a)
    ensures Evaluate(a, env[a], env, []) == Failure(a)
  {
    RefsOfRef(a);
    CyclicValueFails(env, [a, a]);
  }

  // ---------------------------------------------------------------------
  // Bash arrays
  // ---------------------------------------------------------------------

  /** `start..end` as decimal strings. Counting up to `Integer.MAX_VALUE`
      overflows the Java loop counter, which then never stops: the list
      grows until memory runs out. */
  function Range(start: int, end: int): (r: Result<seq<string>, string>)
    ensures r.Success? ==> |r.value| == if start <= end then end - start + 1 else 0
    ensures r.Success? ==> forall k :: 0 <= k < |r.value| ==> r.value[k] == JS.IntToString(start + k)
    ensures r.Failure? <==> start <= end && end == JS.INT_MAX
    decreases end - start
  {
    if start > end then Success([])
    else if end == JS.INT_MAX then Failure("OutOfMemoryError")
    else
      var rest := Range(start + 1, end);
      Success([JS.IntToString(start)] + rest.value)
  }

  function ParseOrFail(s: string): Result<int, string> {
    var p := JS.ParseInt(s);
    if p.Some? then Success(p.value) else Failure("NumberFormatException")
  }

  /** One token of a bash array: `{a..b}` (recognised by a leading `{`, a
      `}` and a `.` anywhere) expands to the integers a..b; any other token
      is kept. */
  function ExpandToken(t: string): Result<seq<string>, string> {
    if JS.StartsWith(t, "{") && JS.Contains(t, "}") && JS.Contains(t, ".") then
      var parts := JS.Split(t, "..");
      if |parts| == 0 then Failure("ArrayIndexOutOfBoundsException")
      else
      var start :- ParseOrFail(JS.Trim(JS.Replace(parts[0], "{", "")));
      if |parts| < 2 then Failure("ArrayIndexOutOfBoundsException")
      else
        var end :- ParseOrFail(JS.Trim(JS.Replace(parts[1], "}", "")));
        Range(start, end)
    else Success([t])
  }

  function ExpandTokens(ts: seq<string>): Result<seq<string>, string> {
    if |ts| == 0 then Success([])
    else
      var first :- ExpandToken(ts[0]);
      var rest :- ExpandTokens(ts[1..]);
      Success(first + rest)
  }

  /** `_bashArrayToStringList()`: drops the first character and the last
      two, trims, splits on single spaces and expands ranges. A value of
      fewer than three characters makes `substring` fail. */
  function BashArrayToList(value: string): Result<seq<string>, string> {
    if |value| < 3 then Failure("StringIndexOutOfBoundsException")
    else ExpandTokens(JS.Split(JS.Trim(value[1..|value| - 2]), " "))
  }

  /** Tokens that do not start with `{` pass through unchanged. */
  lemma {:induction false} PlainTokensKept(ts: seq<string>)
    requires forall i :: 0 <= i < |ts| ==> !JS.StartsWith(ts[i], "{")
    ensures ExpandTokens(ts) == Success(ts)
  {
    if |ts| > 0 {
      PlainTokensKept(ts[1..]);
      assert [ts[0]] + ts[1..] == ts;
    }
  }

  /** A token without blanks that is no range. */
  predicate Visible(w: string) {
    |w| > 0 && w[0] != '{' && forall k :: 0 <= k < |w| ==> !JS.IsTrimmable(w[k])
  }

  /** `"( w )"` is the one-element array `[w]`. */
  lemma BashArraySpaced(w: string)
    requires Visible(w)
    ensures BashArrayToList("( " + w + " )") == Success([w])
  {
    var v := "( " + w + " )";
    assert v[1..|v| - 2] == " " + w;
    assert JS.TrimStart(" " + w) == JS.TrimStart(w);
    TrimPlain(w);
    assert JS.Avoids(w, ' ');
    JS.SplitNoDelimiter(w, " ");
    assert !JS.StartsWith(w, "{");
    PlainTokensKept([w]);
  }

  /** In `"(w)"` the closing bracket and the character before it are both
      dropped. */
  lemma BashArrayTight(w: string)
    requires Visible(w) && |w| >= 2
    ensures BashArrayToList("(" + w + ")") == Success([w[..|w| - 1]])
  {
    var u := "(" + w + ")";
    var x := w[..|w| - 1];
    assert u[1..|u| - 2] == x;
    TrimPlain(x);
    assert JS.Avoids(x, ' ');
    JS.SplitNoDelimiter(x, " ");
    assert !JS.StartsWith(x, "{");
    PlainTokensKept([x]);
  }

  /** A sign-and-digits string, as `"" + n` prints. */
  predicate Plain(x: string) {
    |x| > 0 && forall k :: 0 <= k < |x| ==> JS.IsAsciiDigit(x[k]) || x[k] == '-'
  }

  /** `{x..y}` is recognised as a range and split into `{x` and `y}`. */
  lemma RangeTokenParts(x: string, y: string)
    requires Plain(x) && Plain(y)
    ensures var t := "{" + x + ".." + y + "}";
      JS.StartsWith(t, "{") && JS.Contains(t, "}") && JS.Contains(t, ".") &&
      JS.Split(t, "..") == ["{" + x, y + "}"]
  {
    var t := "{" + x + ".." + y + "}";
    assert t == ("{" + x) + ".." + (y + "}");
    assert JS.OccursAt(t, "}", |t| - 1);
    assert JS.OccursAt(t, ".", |x| + 1);
    assert JS.Avoids("{" + x, '.');
    assert JS.Avoids(y + "}", '.');
    JS.RawSplitNoDelimiter(y + "}", "..");
    JS.SplitCons("{" + x, "..", y + "}");
  }

  /** The brace is removed and nothing is left to trim. */
  lemma RangeTokenBounds(x: string, y: string)
    requires Plain(x) && Plain(y)
    ensures JS.Trim(JS.Replace("{" + x, "{", "")) == x
    ensures JS.Trim(JS.Replace(y + "}", "}", "")) == y
  {
    assert ("{" + x)[..1] == "{" && ("{" + x)[1..] == x;
    assert JS.Replace("{" + x, "{", "") == "" + JS.Replace(x, "{", "");
    JS.IndexOfNoDelimiter(x, "{");
    JS.ReplaceAbsent(x, "{", "");
    ReplaceLast(y, '}');
    TrimPlain(x);
    TrimPlain(y);
  }

  /** `{x..y}` expands to the range between the parsed bounds. */
  lemma RangeTokenExpandsTo(x: string, y: string, a: int, b: int)
    requires Plain(x) && Plain(y)
    requires JS.ParseInt(x) == Some(a) && JS.ParseInt(y) == Some(b)
    ensures ExpandToken("{" + x + ".." + y + "}") == Range(a, b)
  {
    RangeTokenParts(x, y);
    RangeTokenBounds(x, y);
  }

  /** `{a..b}` expands to a..b. */
  lemma RangeTokenExpands(a: int, b: int)
    requires JS.IsInt32(a) && JS.IsInt32(b) && b < JS.INT_MAX
    ensures ExpandToken("{" + JS.IntToString(a) + ".." + JS.IntToString(b) + "}") == Range(a, b)
    ensures Range(a, b).Success?
  {
    IntToStringPlain(a);
    IntToStringPlain(b);
    JS.ParseIntOfIntToString(a);
    JS.ParseIntOfIntToString(b);
    RangeTokenExpandsTo(JS.IntToString(a), JS.IntToString(b), a, b);
  }

  /** The decimal form of an integer: a sign and digits, never empty. */
  lemma IntToStringPlain(a: int)
    ensures Plain(JS.IntToString(a))
  {
    if a < 0 {
      var d := JS.NatToString(-a);
      assert forall k :: 1 <= k < |JS.IntToString(a)| ==> JS.IntToString(a)[k] == d[k - 1];
    }
  }

  /** Removing the one closing brace at the end. */
  lemma {:induction false} ReplaceLast(x: string, c: char)
    requires JS.Avoids(x, c)
    ensures JS.Replace(x + [c], [c], "") == x
    decreases |x|
  {
    if |x| == 0 {
      assert JS.Replace([c], [c], "") == "" + JS.Replace([], [c], "");
    } else {
      assert (x + [c])[..1] == [x[0]] && x[0] != c;
      assert (x + [c])[1..] == x[1..] + [c];
      ReplaceLast(x[1..], c);
      assert [x[0]] + x[1..] == x;
    }
  }

  /** A string starting and ending with a visible character trims to itself. */
  lemma TrimPlain(x: string)
    requires |x| > 0 && !JS.IsTrimmable(x[0]) && !JS.IsTrimmable(x[|x| - 1])
    ensures JS.Trim(x) == x
  {
  }
}
