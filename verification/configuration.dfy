/** Configurations (`Configuration` and its project, analysis and context
    variants): a configuration has an ordered list of parents with
    increasing priority, load and validation errors, and a container of
    configuration values that inherits from the parents' containers.

    Java object identity is modelled as structural equality, and a
    configuration is an immutable value: a mutator returns the changed
    configuration. */
module Configurations {
  import opened Wrappers
  import JS = JavaStrings
  import LM = LinkedMaps
  import O = Overridable
  import CV = ConfigValues
  import T = Tools

  /** The levels of a configuration, in ordinal order. */
  datatype ConfigurationType = UNSET | OTHER | ANALYSIS | PROJECT

  function Ordinal(t: ConfigurationType): nat {
    match t
    case UNSET => 0
    case OTHER => 1
    case ANALYSIS => 2
    case PROJECT => 3
  }

  /** The informational content a configuration is built from.
      `preloadedParent` is the id of the parent named in the configuration
      file, if any; `usedResourcesSize` is the ordinal of a resource-set size;
      `file` is the file of the preloaded configuration it was built from,
      if any. */
  datatype Info = Info(
    name: string,
    id: string,
    ctype: ConfigurationType,
    imports: string,
    configuredClass: Option<string>,
    usedResourcesSize: nat,
    preloadedParent: Option<string>,
    file: Option<string>)

  /** The fields an analysis configuration adds. */
  datatype AnalysisFields = AnalysisFields(
    workflowClass: Option<string>,
    runtimeServiceClass: Option<string>,
    usedTools: Option<seq<string>>,
    usedToolFolders: seq<string>,
    cleanupScript: Option<string>,
    nativeToolID: Option<string>)

  /** The run-time class of a configuration. A context configuration is an
      analysis configuration that also remembers the analysis and project
      it was built from. */
  datatype Kind =
    | Plain
    | Project(runtimeServiceClass: Option<string>, analyses: LM.LinkedMap<Configuration>)
    | Analysis(fields: AnalysisFields)
    | Context(fields: AnalysisFields, analysis: Configuration, project: Configuration)

  datatype Configuration = Configuration(
    info: Info,
    parents: seq<Configuration>,
    loadErrors: seq<string>,
    validationErrors: seq<string>,
    values: LM.LinkedMap<CV.CValue>,
    tools: LM.LinkedMap<T.ToolEntry>,
    kind: Kind)

  /** `instanceof AnalysisConfiguration`. */
  predicate IsAnalysis(c: Configuration) {
    c.kind.Analysis? || c.kind.Context?
  }

  /** A configuration without parents, errors or values. */
  function Fresh(info: Info, kind: Kind): (c: Configuration)
    ensures c.info == info && c.kind == kind && |c.parents| == 0
    ensures |c.loadErrors| == 0 && |c.validationErrors| == 0 && |c.values.keys| == 0 && |c.tools.keys| == 0
  {
    Configuration(info, [], [], [], LM.Empty(), LM.Empty(), kind)
  }

  // ---------------------------------------------------------------------
  // Parents
  // ---------------------------------------------------------------------

  /** `addParent(p)`: `None` (null) and parents already present are
      ignored; otherwise `p` is appended with the highest priority. */
  function AddParent(c: Configuration, p: Option<Configuration>): (r: Configuration)
    ensures p.None? || p.value in c.parents ==> r == c
    ensures p.Some? && p.value !in c.parents ==> r == c.(parents := c.parents + [p.value])
    ensures r.(parents := c.parents) == c
  {
    if p.None? || p.value in c.parents then c else c.(parents := c.parents + [p.value])
  }

  /** `setParent(c)`: the parent list becomes exactly `[p]`. */
  function SetParent(c: Configuration, p: Configuration): (r: Configuration)
    ensures r.parents == [p] && r.(parents := c.parents) == c
  {
    c.(parents := [p])
  }

  predicate Distinct(ps: seq<Configuration>) {
    forall i, j :: 0 <= i < j < |ps| ==> ps[i] != ps[j]
  }

  /** Adding parents one by one, as the list-taking constructor does. */
  function AddParents(c: Configuration, ps: seq<Option<Configuration>>): (r: Configuration)
    decreases |ps|
  {
    if |ps| == 0 then c else AddParent(AddParents(c, ps[..|ps| - 1]), ps[|ps| - 1])
  }

  /** The parents after adding a list are the old ones followed by the new
      non-null ones in first-occurrence order: every given configuration
      becomes a parent exactly once and nothing else does. */
  lemma {:induction false} AddParentsSpec(c: Configuration, ps: seq<Option<Configuration>>)
    requires Distinct(c.parents)
    ensures Distinct(AddParents(c, ps).parents)
    ensures c.parents <= AddParents(c, ps).parents
    ensures forall q :: q in AddParents(c, ps).parents <==> q in c.parents || Some(q) in ps
    ensures AddParents(c, ps).(parents := c.parents) == c
    decreases |ps|
  {
    if |ps| > 0 {
      var init := ps[..|ps| - 1];
      AddParentsSpec(c, init);
      assert forall q :: Some(q) in ps <==> Some(q) in init || ps[|ps| - 1] == Some(q);
    }
  }

  /** The configuration an id and a list of parents describe
      (`new Configuration(icc, parents)`). */
  function NewConfiguration(info: Info, ps: seq<Option<Configuration>>): (r: Configuration)
    ensures Distinct(r.parents)
    ensures forall q :: q in r.parents <==> Some(q) in ps
    ensures r.info == info && r.kind == Plain && r.values == LM.Empty()
  {
    AddParentsSpec(Fresh(info, Plain), ps);
    AddParents(Fresh(info, Plain), ps)
  }

  // ---------------------------------------------------------------------
  // Errors
  // ---------------------------------------------------------------------

  /** `getListOfLoadErrors()`: the parents' lists, recursively and in
      parent order, then the own errors. */
  function LoadErrors(c: Configuration): seq<string>
    decreases c, 1
  {
    ParentLoadErrors(c, |c.parents|) + c.loadErrors
  }

  function ParentLoadErrors(c: Configuration, n: nat): seq<string>
    requires n <= |c.parents|
    decreases c, 0, n
  {
    if n == 0 then [] else ParentLoadErrors(c, n - 1) + LoadErrors(c.parents[n - 1])
  }

  /** `hasErrors()`: the own load errors or any parent's `hasErrors()`. */
  predicate HasErrors(c: Configuration)
    decreases c, 1
  {
    |c.loadErrors| > 0 || ParentHasErrors(c, |c.parents|)
  }

  predicate ParentHasErrors(c: Configuration, n: nat)
    requires n <= |c.parents|
    decreases c, 0, n
  {
    n > 0 && (ParentHasErrors(c, n - 1) || HasErrors(c.parents[n - 1]))
  }

  /** A configuration has errors exactly when its collected list of load
      errors is not empty. */
  lemma {:induction false} HasErrorsIffLoadErrors(c: Configuration)
    ensures HasErrors(c) <==> |LoadErrors(c)| > 0
    decreases c, 1
  {
    ParentHasErrorsIffLoadErrors(c, |c.parents|);
  }

  lemma {:induction false} ParentHasErrorsIffLoadErrors(c: Configuration, n: nat)
    requires n <= |c.parents|
    ensures ParentHasErrors(c, n) <==> |ParentLoadErrors(c, n)| > 0
    decreases c, 0, n
  {
    if n > 0 {
      ParentHasErrorsIffLoadErrors(c, n - 1);
      HasErrorsIffLoadErrors(c.parents[n - 1]);
    }
  }

  /** Every error of a parent is also an error of its child. */
  lemma {:induction false} ParentErrorsInherited(c: Configuration, i: nat, e: string)
    requires i < |c.parents| && e in LoadErrors(c.parents[i])
    ensures e in LoadErrors(c)
  {
    ParentErrorsCollected(c, |c.parents|, i, e);
  }

  lemma {:induction false} ParentErrorsCollected(c: Configuration, n: nat, i: nat, e: string)
    requires i < n <= |c.parents| && e in LoadErrors(c.parents[i])
    ensures e in ParentLoadErrors(c, n)
    decreases n
  {
    if i < n - 1 {
      ParentErrorsCollected(c, n - 1, i, e);
    }
  }

  /** `isInvalid()`: only the own validation errors count; parents and
      load errors are not consulted. */
  predicate IsInvalid(c: Configuration) {
    |c.validationErrors| > 0
  }

  /** Validation errors and load errors are independent: `isInvalid` ignores
      the parents, and `hasErrors` ignores validation errors. */
  lemma InvalidityIsLocal(c: Configuration, ps: seq<Configuration>, ve: seq<string>)
    ensures IsInvalid(c.(parents := ps, loadErrors := [])) <==> IsInvalid(c)
    ensures HasErrors(c.(validationErrors := ve)) <==> HasErrors(c)
  {
    var d := c.(validationErrors := ve);
    assert ParentHasErrors(d, |d.parents|) == ParentHasErrors(c, |c.parents|) by {
      ParentHasErrorsSameParents(c, d, |c.parents|);
    }
  }

  lemma {:induction false} ParentHasErrorsSameParents(c: Configuration, d: Configuration, n: nat)
    requires c.parents == d.parents && n <= |c.parents|
    ensures ParentHasErrors(c, n) == ParentHasErrors(d, n)
  {
    if n > 0 {
      ParentHasErrorsSameParents(c, d, n - 1);
    }
  }

  /** `addLoadError(e)`: the error joins the configuration's own list, and
      nothing else changes. */
  function AddLoadError(c: Configuration, e: string): (r: Configuration)
    ensures HasErrors(r) && LoadErrors(r) == LoadErrors(c) + [e]
    ensures r.(loadErrors := c.loadErrors) == c && (Valid(c) ==> Valid(r))
  {
    var r := c.(loadErrors := c.loadErrors + [e]);
    ParentLoadErrorsSameParents(c, r, |c.parents|);
    r
  }

  lemma {:induction false} ParentLoadErrorsSameParents(c: Configuration, d: Configuration, n: nat)
    requires c.parents == d.parents && n <= |c.parents|
    ensures ParentLoadErrors(c, n) == ParentLoadErrors(d, n)
  {
    if n > 0 {
      ParentLoadErrorsSameParents(c, d, n - 1);
    }
  }

  /** A parent with errors gives its child errors. */
  lemma {:induction false} ParentHasErrorsOf(c: Configuration, n: nat, i: nat)
    requires i < n <= |c.parents| && HasErrors(c.parents[i])
    ensures ParentHasErrors(c, n)
    decreases n
  {
    if i < n - 1 {
      ParentHasErrorsOf(c, n - 1, i);
    }
  }

  // ---------------------------------------------------------------------
  // Imports, names and containers
  // ---------------------------------------------------------------------

  /** `getImportConfigurations()`: empty for a blank import string,
      otherwise the trimmed string split at commas (trailing empty pieces
      dropped, as `String.split` does). */
  function ImportConfigurations(c: Configuration): (r: seq<string>)
    ensures |JS.Trim(c.info.imports)| == 0 ==> r == []
  {
    var t := JS.Trim(c.info.imports);
    if |t| == 0 then [] else JS.Split(t, ",")
  }

  /** Joining the imported names with commas gives back the trimmed
      import string, unless that ends with a comma. */
  lemma ImportConfigurationsJoin(c: Configuration)
    requires var t := JS.Trim(c.info.imports); |t| > 0 && t[|t| - 1] != ','
    ensures |ImportConfigurations(c)| > 0
    ensures JS.Join(ImportConfigurations(c), ",") == JS.Trim(c.info.imports)
  {
    JS.JoinSplit(JS.Trim(c.info.imports), ",");
  }

  /** The five containers of a configuration, by their ids. */
  datatype ContainerName = Values | ValueBundles | Tools | Enumerations | FilenamePatterns

  function ContainerId(n: ContainerName): string {
    match n
    case Values => "configurationValues"
    case ValueBundles => "configurationValueBundles"
    case Tools => "tools"
    case Enumerations => "enumerations"
    case FilenamePatterns => "filenamePatterns"
  }

  /** `getContainer(id)`: the containers are asked in a fixed order and the
      first whose id matches is returned; `None` stands for null. */
  function GetContainer(id: string): (r: Option<ContainerName>)
    ensures r.Some? ==> ContainerId(r.value) == id
    ensures r.None? <==> forall n: ContainerName :: ContainerId(n) != id
  {
    if id == ContainerId(Values) then Some(Values)
    else if id == ContainerId(ValueBundles) then Some(ValueBundles)
    else if id == ContainerId(Tools) then Some(Tools)
    else if id == ContainerId(Enumerations) then Some(Enumerations)
    else if id == ContainerId(FilenamePatterns) then Some(FilenamePatterns)
    else None
  }

  /** The container ids are pairwise different, so each container is found
      by its own id and by no other. */
  lemma GetContainerOfId(n: ContainerName)
    ensures GetContainer(ContainerId(n)) == Some(n)
  {
    assert ContainerId(Values)[18] != ContainerId(ValueBundles)[18];
  }

  // ---------------------------------------------------------------------
  // The configuration-value container
  // ---------------------------------------------------------------------

  function IdOf(v: CV.CValue): string {
    v.id
  }

  /** A value handed out by a configuration's container is re-attached to
      that configuration. */
  function Attach(v: CV.CValue): CV.CValue {
    v.(attached := true)
  }

  /** The configuration-value container: its parents are the parents'
      configuration-value containers (`parent.getContainer(id)`). */
  function ValuesContainer(c: Configuration): (r: O.Container<CV.CValue>)
    ensures r.id == ContainerId(Values) && r.own == c.values && |r.parents| == |c.parents|
    decreases c
  {
    O.Container(ContainerId(Values), c.values,
      seq(|c.parents|, i requires 0 <= i < |c.parents| => ValuesContainer(c.parents[i])))
  }

  /** Every configuration in the hierarchy keeps its values in a valid
      linked map, under their own ids (`add` stores a value under its id). */
  ghost predicate Valid(c: Configuration)
    decreases c
  {
    c.values.Valid() &&
    (forall k :: k in c.values.entries ==> c.values.entries[k].id == k) &&
    c.tools.Valid() &&
    forall i :: 0 <= i < |c.parents| ==> Valid(c.parents[i])
  }

  lemma {:induction false} ValidContainer(c: Configuration)
    requires Valid(c)
    ensures O.WellFormed(ValuesContainer(c)) && O.WellKeyed(ValuesContainer(c), IdOf)
    decreases c
  {
    var vc := ValuesContainer(c);
    forall i | 0 <= i < |c.parents|
      ensures vc.parents[i].id == vc.id && O.WellFormed(vc.parents[i]) && O.WellKeyed(vc.parents[i], IdOf)
    {
      ValidContainer(c.parents[i]);
    }
  }

  /** The value an id resolves to in the hierarchy, before evaluation. */
  function Resolve(c: Configuration, id: string): Option<CV.CValue> {
    O.Lookup(ValuesContainer(c), id)
  }

  /** The raw strings of all resolvable values: what `${id}` references are
      replaced with when a value is evaluated in this configuration. */
  function Env(c: Configuration): (env: map<string, string>)
    requires Valid(c)
    ensures forall k :: k in env <==> Resolve(c, k).Some?
    ensures forall k :: k in env ==> env[k] == Resolve(c, k).value.value
  {
    ValidContainer(c);
    var m := O.AllUnevaluated(ValuesContainer(c)).entries;
    forall k ensures k in m <==> Resolve(c, k).Some?
      ensures k in m ==> m[k] == Resolve(c, k).value
    {
      O.AllUnevaluatedIsLookup(ValuesContainer(c), k);
    }
    map k | k in m :: m[k].value
  }

  /** `getValue(id)`: the resolved value attached to this configuration, or
      a `ConfigurationError` when no container in the hierarchy has it. */
  function GetOrThrow(c: Configuration, id: string): (r: Result<CV.CValue, string>)
    requires Valid(c)
    ensures r.Failure? <==> Resolve(c, id).None?
    ensures r.Success? ==> r.value == Attach(Resolve(c, id).value) && r.value.id == id
  {
    ValidContainer(c);
    var vc := ValuesContainer(c);
    O.GetValueIsResolved(vc, id, CV.CValue(id, "", false, "", "", []), IdOf, Attach);
    O.HasValueIffResolves(vc, id);
    if Resolve(c, id).Some? then O.LookupWellKeyed(vc, id, IdOf); Success(Attach(Resolve(c, id).value))
    else Failure("Value for '" + id + "' could not be found in containers")
  }

  /** The generic `getValue` of the container gives the same answer. */
  lemma GetOrThrowIsGetValue(c: Configuration, id: string)
    requires Valid(c) && O.WellFormed(ValuesContainer(c))
    ensures var g := O.GetValue(ValuesContainer(c), id, IdOf, Attach);
      (g.Failure? <==> GetOrThrow(c, id).Failure?) &&
      (g.Success? ==> g.value == Some(GetOrThrow(c, id).value))
  {
    ValidContainer(c);
    var vc := ValuesContainer(c);
    O.GetValueIsResolved(vc, id, CV.CValue(id, "", false, "", "", []), IdOf, Attach);
    O.HasValueIffResolves(vc, id);
    if Resolve(c, id).Some? {
      assert Attach(Attach(Resolve(c, id).value)) == Attach(Resolve(c, id).value);
    }
  }

  /** `get(id, default)`: the resolved value, or a new value of this
      configuration holding the default; `get(id)` uses `""`. */
  function Get(c: Configuration, id: string, def: string, d: CV.Detectors): (r: CV.CValue)
    requires Valid(c)
    ensures r.id == id && r.attached
    ensures Resolve(c, id).Some? ==> r == Attach(Resolve(c, id).value)
    ensures Resolve(c, id).None? ==> r.value == def && r.valueType == CV.DetermineType(def, d)
  {
    var v := GetOrThrow(c, id);
    if v.Success? then v.value else CV.Make(true, id, def, None, "", None, d)
  }

  /** The file a configuration's load errors name: that of the preloaded
      configuration, or else the configuration's id. */
  function Origin(c: Configuration): string {
    if c.info.file.Some? then c.info.file.value else c.info.id
  }

  /** The message of the cyclic dependency that value `id` found while
      being evaluated in `c`. */
  function CycleMessage(c: Configuration, id: string): string {
    "Cyclic dependency found for cvalue '" + id + "' in file " + Origin(c)
  }

  /** A value read through a configuration, with the configuration as it
      stands after the read. */
  datatype Read<T> = Read(config: Configuration, result: Result<T, string>)

  /** What a read may do to the configuration: a successful read leaves it
      alone; a failed one adds exactly the thrown message to its load
      errors, changes nothing else, and so leaves it with errors. */
  predicate Recorded<T>(c: Configuration, r: Read<T>) {
    (r.result.Success? ==> r.config == c) &&
    (r.result.Failure? ==>
      HasErrors(r.config) && LoadErrors(r.config) == LoadErrors(c) + [r.result.error] &&
      r.config.(loadErrors := c.loadErrors) == c)
  }

  /** `toEvaluatedValue` of a value attached to `c`: evaluation in `c`'s
      values; a cyclic dependency adds its message to `c`'s load errors and
      is thrown. */
  function EvaluateIn(c: Configuration, v: CV.CValue): (r: Read<string>)
    requires Valid(c)
    ensures Recorded(c, r) && (Valid(c) ==> Valid(r.config))
    ensures r.result.Success? <==> CV.ToEvaluated(v, Env(c), []).Success?
    ensures r.result.Success? ==> r.result.value == CV.ToEvaluated(v, Env(c), []).value
    ensures r.result.Failure? ==> r.result.error == CycleMessage(c, CV.ToEvaluated(v, Env(c), []).error)
  {
    var e := CV.ToEvaluated(v, Env(c), []);
    if e.Success? then Read(c, e)
    else
      var m := CycleMessage(c, e.error);
      Read(AddLoadError(c, m), Failure(m))
  }

  /** `getString(id, default)`: the evaluated value, or the default itself
      (its value has no configuration, so it is not evaluated). */
  function GetString(c: Configuration, id: string, def: string): (r: Read<string>)
    requires Valid(c)
    ensures Recorded(c, r) && Valid(r.config)
    ensures Resolve(c, id).None? ==> r == Read(c, Success(def))
  {
    var v := GetOrThrow(c, id);
    if v.Success? then EvaluateIn(c, v.value) else Read(c, Success(def))
  }

  /** A value without references reads back as its raw string. */
  lemma GetStringOfPlain(c: Configuration, id: string, def: string)
    requires Valid(c) && Resolve(c, id).Some? && |CV.Refs(Resolve(c, id).value.value)| == 0
    ensures GetString(c, id, def) == Read(c, Success(Resolve(c, id).value.value))
  {
  }

  /** A value whose first references run into a cycle cannot be read: the
      read throws the cyclic-dependency message of a value on the cycle,
      naming `c`'s file, and leaves that message in `c`'s load errors. */
  lemma CyclicReadHasErrors(c: Configuration, def: string, p: seq<string>)
    requires Valid(c) && CV.FirstRefLoop(Env(c), p)
    ensures var r := GetString(c, p[0], def);
      r.result.Failure? && HasErrors(r.config) &&
      LoadErrors(r.config) == LoadErrors(c) + [r.result.error] &&
      exists k :: 1 <= k < |p| && r.result.error == CycleMessage(c, p[k])
  {
    var env := Env(c);
    CV.CyclicValueFails(env, p);
    var e := CV.Evaluate(p[0], env[p[0]], env, []).error;
    var k :| 0 <= k < |p| - 1 && p[1..][k] == e;
    assert p[k + 1] == e;
  }

  /** `getList(id, separator)`: the evaluated value split at the regex
      class `"[" + separator + "]"`, or the empty list when the id is
      unknown. A class that does not compile throws a
      `PatternSyntaxException`; it is no `ConfigurationError`, so it leaves
      the method, after a successful read that changed nothing. `regex`
      compiles class bodies with class syntax, as in `JS.SplitClass`. */
  function GetList(c: Configuration, id: string, sep: string, regex: string -> Option<string -> seq<string>>)
    : (r: Result<Read<seq<string>>, string>)
    requires Valid(c)
    ensures r.Success? ==> Recorded(c, r.value) && Valid(r.value.config)
    ensures Resolve(c, id).None? ==> r == Success(Read(c, Success([])))
    ensures r.Failure? ==>
      r.error == "PatternSyntaxException" && Resolve(c, id).Some? &&
      (JS.CompileClass(sep).Unclosed? || (JS.CompileClass(sep).Syntax? && regex(sep).None?))
  {
    var v := GetOrThrow(c, id);
    if v.Failure? then Success(Read(c, Success([])))
    else
      var s := EvaluateIn(c, v.value);
      if s.result.Failure? then Success(Read(s.config, Failure(s.result.error)))
      else
        var parts := JS.SplitClass(s.result.value, sep, regex);
        if parts.None? then Failure("PatternSyntaxException") else Success(Read(c, Success(parts.value)))
  }

  /** For a known id the list is the string read split at the class, and
      the list read fails, with the same message and the same recorded
      error, exactly when the string read does; an empty separator or a
      lone `\`, `[` or `^` throws once the value is read. */
  lemma GetListIsSplit(c: Configuration, id: string, sep: string, regex: string -> Option<string -> seq<string>>)
    requires Valid(c)
    ensures var s := GetString(c, id, "");
      Resolve(c, id).Some? && s.result.Success? ==>
        GetList(c, id, sep, regex) ==
          match JS.CompileClass(sep)
          case Unclosed => Failure("PatternSyntaxException")
          case Chars(cs) => Success(Read(c, Success(JS.SplitAt(s.result.value, cs))))
          case Syntax(body) =>
            if regex(body).None? then Failure("PatternSyntaxException")
            else Success(Read(c, Success(regex(body).value(s.result.value))))
    ensures var s := GetString(c, id, "");
      Resolve(c, id).Some? && s.result.Failure? ==>
        GetList(c, id, sep, regex) == Success(Read(s.config, Failure(s.result.error)))
    ensures ((sep == "" || sep == "\\" || sep == "[" || sep == "^") &&
             Resolve(c, id).Some? && GetString(c, id, "").result.Success?) ==>
        GetList(c, id, sep, regex) == Failure("PatternSyntaxException")
  {
  }

  /** A class of literal characters splits the string read with them. */
  lemma GetListChars(c: Configuration, id: string, sep: string, regex: string -> Option<string -> seq<string>>)
    requires Valid(c)
    ensures var s := GetString(c, id, "").result;
      Resolve(c, id).Some? && s.Success? && JS.CompileClass(sep).Chars? ==>
        GetList(c, id, sep, regex) == Success(Read(c, Success(JS.SplitAt(s.value, sep))))
  {
  }

  /** A separator of literal characters splits at each of them: no piece
      holds one, the list is the raw pieces without some trailing empty
      ones, and the raw pieces with the separator characters found put
      back between them rebuild the value. */
  lemma GetListPieces(c: Configuration, id: string, sep: string, regex: string -> Option<string -> seq<string>>)
    requires Valid(c)
    ensures var s := GetString(c, id, "").result;
      Resolve(c, id).Some? && s.Success? && JS.CompileClass(sep).Chars? ==>
        var l := GetList(c, id, sep, regex);
        var raw := JS.RawSplitAt(s.value, sep);
        l.Success? && l.value.result.Success? &&
        (forall k, i :: 0 <= k < |l.value.result.value| && 0 <= i < |l.value.result.value[k]| ==>
           l.value.result.value[k][i] !in sep) &&
        |l.value.result.value| <= |raw| && l.value.result.value == raw[..|l.value.result.value|] &&
        (forall k :: |l.value.result.value| <= k < |raw| ==> raw[k] == "") &&
        |raw| == |JS.Matched(s.value, sep)| + 1 && JS.Interleave(raw, JS.Matched(s.value, sep)) == s.value
  {
    var s := GetString(c, id, "").result;
    if Resolve(c, id).Some? && s.Success? && JS.CompileClass(sep).Chars? {
      GetListChars(c, id, sep, regex);
      JS.SplitAtRebuilds(s.value, sep);
    }
  }

  /** Joining the list with a one-character separator gives back the
      evaluated value when it is not empty and does not end with the
      separator; a lone `\`, `[` or `^` makes no class. */
  lemma GetListJoin(c: Configuration, id: string, sep: char, regex: string -> Option<string -> seq<string>>)
    requires Valid(c) && Resolve(c, id).Some?
    requires var s := GetString(c, id, "").result;
      s.Success? && |s.value| > 0 && s.value[|s.value| - 1] != sep
    requires sep != '\\' && sep != '[' && sep != '^'
    ensures var l := GetList(c, id, [sep], regex);
      l.Success? && l.value.result.Success? && |l.value.result.value| > 0 &&
      JS.Join(l.value.result.value, [sep]) == GetString(c, id, "").result.value
  {
    var v := GetString(c, id, "").result.value;
    JS.CompileOneChar(sep);
    GetListChars(c, id, [sep], regex);
    JS.JoinSplitAtChar(v, sep);
  }

  /** `put(id, value, type)`: adds an attached value of the given type
      (`put(id, value)` passes `"string"`). */
  function PutValue(c: Configuration, id: string, value: string, valueType: string, d: CV.Detectors): (r: Configuration)
    requires Valid(c)
    ensures Valid(r) && r.parents == c.parents && r.(values := c.values) == c
    ensures forall j :: j != id ==> Resolve(r, j) == Resolve(c, j)
  {
    var v := CV.Make(true, id, value, Some(valueType), "", None, d);
    var r := c.(values := LM.Put(c.values, id, v));
    ValidContainer(c);
    assert ValuesContainer(r) == O.Add(ValuesContainer(c), v, IdOf);
    r
  }

  /** A put value is read back: with its type when that is not blank, as a
      `"string"` for `put(id, value)`. */
  lemma PutValueGet(c: Configuration, id: string, value: string, valueType: string, d: CV.Detectors)
    requires Valid(c)
    ensures var r := PutValue(c, id, value, valueType, d);
      GetOrThrow(r, id).Success? && GetOrThrow(r, id).value.value == value &&
      (!d.isNullOrEmpty(valueType) ==> GetOrThrow(r, id).value.valueType == valueType)
  {
    var v := CV.Make(true, id, value, Some(valueType), "", None, d);
    ValidContainer(c);
    assert ValuesContainer(PutValue(c, id, value, valueType, d)) == O.Add(ValuesContainer(c), v, IdOf);
  }

  const STRING_TYPE := "string"

  /** `getProjectName()`: a project configuration's evaluated `projectName`
      value, defaulting to its name; `None` (null) for every lower level.
      (The branch for levels above PROJECT cannot be taken: PROJECT is the
      highest level.) */
  function ProjectName(c: Configuration, d: CV.Detectors): (r: Read<Option<string>>)
    requires Valid(c)
    ensures Recorded(c, r) && Valid(r.config)
    ensures c.info.ctype != PROJECT ==> r == Read(c, Success(None))
    ensures r.result.Success? && c.info.ctype == PROJECT ==> r.result.value.Some?
  {
    if c.info.ctype == PROJECT then
      var n := EvaluateIn(c, Get(c, "projectName", c.info.name, d));
      if n.result.Failure? then Read(n.config, Failure(n.result.error))
      else Read(c, Success(Some(n.result.value)))
    else Read(c, Success(None))
  }

  /** A project without a `projectName` value is named after itself (when
      the name has no references to evaluate). */
  lemma ProjectNameDefault(c: Configuration, d: CV.Detectors)
    requires Valid(c) && c.info.ctype == PROJECT
    requires Resolve(c, "projectName").None? && |CV.Refs(c.info.name)| == 0
    ensures ProjectName(c, d) == Read(c, Success(Some(c.info.name)))
  {
  }

  // ---------------------------------------------------------------------
  // Resource-set size
  // ---------------------------------------------------------------------

  /** `ResourceSetSize.valueOf(name)`: the ordinal of the name among the
      size names, listed in declaration order. */
  function SizeOf(name: string, sizes: seq<string>): (r: Result<nat, string>)
    ensures r.Success? <==> name in sizes
    ensures r.Success? ==> r.value < |sizes| && sizes[r.value] == name &&
                           forall i :: 0 <= i < r.value ==> sizes[i] != name
  {
    if |sizes| == 0 then Failure("IllegalArgumentException")
    else if sizes[0] == name then Success(0)
    else
      var r := SizeOf(name, sizes[1..]);
      if r.Failure? then r else Success(r.value + 1)
  }

  /** The index of the first project configuration in `ps`, if any. */
  function FirstProject(ps: seq<Configuration>): (r: Option<nat>)
    ensures r.Some? ==> r.value < |ps| && ps[r.value].kind.Project? &&
                        (forall i :: 0 <= i < r.value ==> !ps[i].kind.Project?)
    ensures r.None? ==> forall i :: 0 <= i < |ps| ==> !ps[i].kind.Project?
  {
    if |ps| == 0 then None
    else if ps[0].kind.Project? then Some(0)
    else
      var r := FirstProject(ps[1..]);
      if r.None? then None else Some(r.value + 1)
  }

  /** A read made through parent `j`: the parent as it stands after the
      read takes its place, so the child sees the parent's new errors. */
  function InParent<T>(c: Configuration, j: nat, r: Read<T>): (q: Read<T>)
    requires j < |c.parents|
    ensures q.result == r.result && |q.config.parents| == |c.parents| && q.config.parents[j] == r.config
    ensures r.config == c.parents[j] ==> q.config == c
    ensures HasErrors(r.config) ==> HasErrors(q.config)
    ensures Valid(c) && Valid(r.config) ==> Valid(q.config)
  {
    var d := c.(parents := c.parents[j := r.config]);
    if HasErrors(r.config) then ParentHasErrorsOf(d, |d.parents|, j); Read(d, r.result)
    else Read(d, r.result)
  }

  /** `getResourcesSize()`. A plain or project configuration reads the
      evaluated `usedResourcesSize` value if it has one, else its own
      setting. An analysis configuration asks its first project parent, else
      its first parent, and fails without parents. A name that is no size
      fails without a load error; a cyclic value records one where it is
      read. */
  function ResourcesSize(c: Configuration, sizes: seq<string>): (r: Read<nat>)
    requires Valid(c)
    ensures Valid(r.config)
    ensures r.result.Success? ==> r.config == c
    ensures r.config != c ==> r.result.Failure? && HasErrors(r.config)
    decreases c
  {
    if IsAnalysis(c) then
      var p := FirstProject(c.parents);
      if p.Some? then InParent(c, p.value, ResourcesSize(c.parents[p.value], sizes))
      else if |c.parents| == 0 then Read(c, Failure("IndexOutOfBoundsException"))
      else InParent(c, 0, ResourcesSize(c.parents[0], sizes))
    else if Resolve(c, USED_RESOURCES_SIZE).Some? then
      var s := EvaluateIn(c, GetOrThrow(c, USED_RESOURCES_SIZE).value);
      if s.result.Failure? then Read(s.config, Failure(s.result.error))
      else Read(c, SizeOf(s.result.value, sizes))
    else Read(c, Success(c.info.usedResourcesSize))
  }

  const USED_RESOURCES_SIZE := "usedResourcesSize"

  /** An analysis configuration takes its size from the first project among
      its parents, whatever comes before it, and a load error that read
      records lands in that parent. */
  lemma AnalysisSizeFromProject(c: Configuration, j: nat, sizes: seq<string>)
    requires Valid(c) && IsAnalysis(c)
    requires j < |c.parents| && c.parents[j].kind.Project?
    requires forall i :: 0 <= i < j ==> !c.parents[i].kind.Project?
    ensures ResourcesSize(c, sizes).result == ResourcesSize(c.parents[j], sizes).result
    ensures ResourcesSize(c, sizes).config.parents[j] == ResourcesSize(c.parents[j], sizes).config
  {
    assert FirstProject(c.parents) == Some(j);
  }

  /** A cyclic `usedResourcesSize` value of a plain or project
      configuration: the size cannot be read, and the configuration is
      left with the cyclic-dependency error. */
  lemma CyclicSizeHasErrors(c: Configuration, sizes: seq<string>, p: seq<string>)
    requires Valid(c) && !IsAnalysis(c)
    requires CV.FirstRefLoop(Env(c), p) && p[0] == USED_RESOURCES_SIZE
    ensures var r := ResourcesSize(c, sizes);
      r.result.Failure? && HasErrors(r.config) && LoadErrors(r.config) == LoadErrors(c) + [r.result.error]
  {
    CV.CyclicValueFails(Env(c), p);
  }


  // ---------------------------------------------------------------------
  // Project configurations
  // ---------------------------------------------------------------------

  /** `new ProjectConfiguration(icc, runtimeServiceClass, analyses, parent)`:
      a null analysis map becomes empty, a null parent is ignored. */
  function NewProject(info: Info, rsc: Option<string>, analyses: Option<LM.LinkedMap<Configuration>>,
                      parent: Option<Configuration>): (r: Configuration)
    requires analyses.Some? ==> analyses.value.Valid()
    ensures r.kind.Project? && r.kind.runtimeServiceClass == rsc && r.kind.analyses.Valid()
    ensures analyses.None? ==> AnalysisIDs(r) == []
    ensures analyses.Some? ==> r.kind.analyses == analyses.value
    ensures r.parents == if parent.Some? then [parent.value] else []
  {
    AddParent(Fresh(info, Project(rsc, if analyses.Some? then analyses.value else LM.Empty())), parent)
  }

  /** `getListOfAnalysisIDs()`. */
  function AnalysisIDs(c: Configuration): seq<string>
    requires c.kind.Project?
  {
    c.kind.analyses.keys
  }

  /** `getAnalysis(id)`; `None` stands for null. */
  function GetAnalysis(c: Configuration, id: string): Option<Configuration>
    requires c.kind.Project?
  {
    if id in c.kind.analyses.entries then Some(c.kind.analyses.entries[id]) else None
  }

  /** The listed analysis ids are exactly those `getAnalysis` finds, each
      listed once. */
  lemma AnalysisIDsAreAnalyses(c: Configuration, id: string)
    requires c.kind.Project? && c.kind.analyses.Valid()
    ensures id in AnalysisIDs(c) <==> GetAnalysis(c, id).Some?
    ensures forall i, j :: 0 <= i < j < |AnalysisIDs(c)| ==> AnalysisIDs(c)[i] != AnalysisIDs(c)[j]
  {
  }

  /** `isMasterConfiguration()`: the configuration file names no parent. */
  predicate IsMaster(c: Configuration) {
    c.info.preloadedParent.None?
  }

  /** `isChildConfiguration()`. */
  predicate IsChild(c: Configuration) {
    !IsMaster(c)
  }

  /** Master or child is decided by the parent the configuration file
      names, not by the parents added at run time: adding a parent never
      changes it, and every configuration is exactly one of the two. */
  lemma MasterIgnoresAddedParents(c: Configuration, p: Option<Configuration>)
    ensures IsMaster(AddParent(c, p)) <==> IsMaster(c)
    ensures IsChild(c) <==> !IsMaster(c)
    ensures IsMaster(c) <==> c.info.preloadedParent.None?
  {
  }

  predicate IsBlank(s: Option<string>) {
    s.None? || |JS.Trim(s.value)| == 0
  }

  /** `getRuntimeServiceClass()` of a project: its own class unless that is
      blank and there are parents; then the first non-null answer of a
      project or analysis parent (others are skipped); failing that, the own
      value. */
  function RuntimeServiceClass(c: Configuration): (r: Option<string>)
    requires c.kind.Project?
    ensures !IsBlank(c.kind.runtimeServiceClass) ==> r == c.kind.runtimeServiceClass
    decreases c, 2
  {
    if IsBlank(c.kind.runtimeServiceClass) && |c.parents| > 0 then
      var found := ParentServiceClass(c, 0);
      if found.Some? then found else c.kind.runtimeServiceClass
    else c.kind.runtimeServiceClass
  }

  /** What a parent answers: a project recurses, an analysis gives its own
      field, any other configuration gives nothing. */
  function ServiceClassOf(p: Configuration): Option<string>
    decreases p, 3
  {
    match p.kind
    case Project(_, _) => RuntimeServiceClass(p)
    case Analysis(f) => f.runtimeServiceClass
    case Context(f, _, _) => f.runtimeServiceClass
    case Plain => None
  }

  /** The first non-null answer among the parents from index `i` on. */
  function ParentServiceClass(c: Configuration, i: nat): (r: Option<string>)
    requires i <= |c.parents|
    ensures r.None? <==> forall j :: i <= j < |c.parents| ==> ServiceClassOf(c.parents[j]).None?
    decreases c, 1, |c.parents| - i
  {
    if i == |c.parents| then None
    else
      var a := ServiceClassOf(c.parents[i]);
      if a.Some? then a else ParentServiceClass(c, i + 1)
  }

  /** With a blank own class, the first parent that answers decides. */
  lemma {:induction false} RuntimeServiceFromParent(c: Configuration, j: nat)
    requires c.kind.Project? && IsBlank(c.kind.runtimeServiceClass)
    requires j < |c.parents| && ServiceClassOf(c.parents[j]).Some?
    requires forall i :: 0 <= i < j ==> ServiceClassOf(c.parents[i]).None?
    ensures RuntimeServiceClass(c) == ServiceClassOf(c.parents[j])
  {
    ParentServiceClassFrom(c, 0, j);
  }

  lemma {:induction false} ParentServiceClassFrom(c: Configuration, i: nat, j: nat)
    requires i <= j < |c.parents| && ServiceClassOf(c.parents[j]).Some?
    requires forall k :: i <= k < j ==> ServiceClassOf(c.parents[k]).None?
    ensures ParentServiceClass(c, i) == ServiceClassOf(c.parents[j])
    decreases j - i
  {
    if i < j {
      ParentServiceClassFrom(c, i + 1, j);
    }
  }

  /** A found class is the non-blank own class or comes from a project or
      analysis configuration up the hierarchy. */
  ghost predicate DeclaresServiceClass(c: Configuration, s: string)
    decreases c
  {
    (c.kind.Project? && c.kind.runtimeServiceClass == Some(s)) ||
    (IsAnalysis(c) && c.kind.fields.runtimeServiceClass == Some(s)) ||
    exists i :: 0 <= i < |c.parents| && DeclaresServiceClass(c.parents[i], s)
  }

  lemma {:induction false} RuntimeServiceDeclared(c: Configuration)
    requires c.kind.Project? && RuntimeServiceClass(c).Some?
    ensures DeclaresServiceClass(c, RuntimeServiceClass(c).value)
    decreases c, 2
  {
    var own := c.kind.runtimeServiceClass;
    if IsBlank(own) && |c.parents| > 0 && ParentServiceClass(c, 0).Some? {
      ParentServiceDeclared(c, 0);
    }
  }

  lemma {:induction false} ParentServiceDeclared(c: Configuration, i: nat)
    requires i <= |c.parents| && ParentServiceClass(c, i).Some?
    ensures DeclaresServiceClass(c, ParentServiceClass(c, i).value)
    decreases c, 1, |c.parents| - i
  {
    var p := c.parents[i];
    var a := ServiceClassOf(p);
    if a.Some? {
      if p.kind.Project? {
        RuntimeServiceDeclared(p);
      }
      assert DeclaresServiceClass(p, a.value);
    } else {
      ParentServiceDeclared(c, i + 1);
    }
  }

  /** `getProjectClass()`: the configured class, else what the first
      project parent answers (which fails in turn if it finds none), else a
      failure naming the configuration. */
  function ProjectClass(c: Configuration): (r: Result<string, string>)
    ensures c.info.configuredClass.Some? ==> r == Success(c.info.configuredClass.value)
    decreases c
  {
    if c.info.configuredClass.Some? then Success(c.info.configuredClass.value)
    else
      var p := FirstProject(c.parents);
      if p.Some? then ProjectClass(c.parents[p.value])
      else Failure("No project class is defined for configuration " + c.info.id)
  }

  /** The chain of first project parents, which `getProjectClass` follows. */
  ghost predicate ProjectChainDeclares(c: Configuration, s: string)
    decreases c
  {
    c.info.configuredClass == Some(s) ||
    (c.info.configuredClass.None? && FirstProject(c.parents).Some? &&
     ProjectChainDeclares(c.parents[FirstProject(c.parents).value], s))
  }

  /** A project class is found exactly when some configuration on the chain
      of first project parents declares one, and then it is the first such
      declaration. */
  lemma {:induction false} ProjectClassIffDeclared(c: Configuration, s: string)
    ensures ProjectClass(c) == Success(s) <==> ProjectChainDeclares(c, s)
    decreases c
  {
    if c.info.configuredClass.None? {
      var p := FirstProject(c.parents);
      if p.Some? {
        ProjectClassIffDeclared(c.parents[p.value], s);
      }
    }
  }

  // ---------------------------------------------------------------------
  // Analysis and context configurations
  // ---------------------------------------------------------------------

  /** `new AnalysisConfiguration(icc, workflowClass, runtimeServiceClass,
      parent, usedTools, usedToolFolders, cleanupScript)`: null tool folders
      become an empty list; no native tool is set. */
  function NewAnalysis(info: Info, workflowClass: Option<string>, rsc: Option<string>, parent: Option<Configuration>,
                       usedTools: Option<seq<string>>, folders: Option<seq<string>>,
                       cleanup: Option<string>): (r: Configuration)
    ensures r.kind.Analysis? && r.info == info
    ensures r.kind.fields.usedToolFolders == (if folders.Some? then folders.value else [])
    ensures r.kind.fields.cleanupScript == cleanup && r.kind.fields.usedTools == usedTools
    ensures r.kind.fields.workflowClass == workflowClass && r.kind.fields.runtimeServiceClass == rsc
    ensures !IsNative(r)
    ensures r.parents == if parent.Some? then [parent.value] else []
  {
    var f := AnalysisFields(workflowClass, rsc, usedTools, if folders.Some? then folders.value else [], cleanup, None);
    AddParent(Fresh(info, Analysis(f)), parent)
  }

  /** `hasCleanupScript()`. */
  predicate HasCleanupScript(c: Configuration)
    requires IsAnalysis(c)
  {
    c.kind.fields.cleanupScript.Some?
  }

  /** A new analysis has a cleanup script exactly when one was given, and
      a context built on an analysis has one exactly when the analysis
      has. */
  lemma CleanupScriptKept(info: Info, workflowClass: Option<string>, rsc: Option<string>, parent: Option<Configuration>,
                          usedTools: Option<seq<string>>, folders: Option<seq<string>>, cleanup: Option<string>,
                          project: Configuration, appSpecific: Option<Configuration>)
    requires project.kind.Project?
    ensures var a := NewAnalysis(info, workflowClass, rsc, parent, usedTools, folders, cleanup);
      (HasCleanupScript(a) <==> cleanup.Some?) &&
      (HasCleanupScript(NewContext(a, project, appSpecific)) <==> cleanup.Some?)
  {
  }

  /** `isNative()`. */
  predicate IsNative(c: Configuration)
    requires IsAnalysis(c)
  {
    c.kind.fields.nativeToolID.Some?
  }

  /** `setNativeToolID(id)`. */
  function SetNativeToolID(c: Configuration, id: Option<string>): (r: Configuration)
    requires IsAnalysis(c)
    ensures IsAnalysis(r)
  {
    c.(kind := c.kind.(fields := c.kind.fields.(nativeToolID := id)))
  }

  /** Setting the native tool id and reading it back round-trips, and the
      configuration is native exactly when the id is not null; nothing else
      changes. */
  lemma NativeToolRoundTrip(c: Configuration, id: Option<string>)
    requires IsAnalysis(c)
    ensures SetNativeToolID(c, id).kind.fields.nativeToolID == id
    ensures IsNative(SetNativeToolID(c, id)) <==> id.Some?
    ensures SetNativeToolID(SetNativeToolID(c, id), c.kind.fields.nativeToolID) == c
  {
  }

  /** `new ContextConfiguration(analysis, project)`: the analysis's fields
      are copied (but no native tool id), and the parents become the
      analysis, the project and the application-specific configuration,
      in increasing priority. The analysis is passed to the super
      constructor and added again, which `addParent` ignores. */
  function NewContext(analysis: Configuration, project: Configuration, appSpecific: Option<Configuration>): (r: Configuration)
    requires IsAnalysis(analysis) && project.kind.Project?
    ensures r.kind.Context? && r.kind.analysis == analysis && r.kind.project == project
    ensures r.info == analysis.info
    ensures r.kind.fields == analysis.kind.fields.(nativeToolID := None)
    ensures appSpecific.None? || appSpecific.value in [analysis, project] ==> r.parents == [analysis, project]
    ensures appSpecific.Some? && appSpecific.value !in [analysis, project] ==>
      r.parents == [analysis, project, appSpecific.value]
    ensures Valid(analysis) && Valid(project) && (appSpecific.Some? ==> Valid(appSpecific.value)) ==> Valid(r)
  {
    var f := analysis.kind.fields;
    var base := NewAnalysis(analysis.info, f.workflowClass, f.runtimeServiceClass, Some(analysis),
                            f.usedTools, Some(f.usedToolFolders), f.cleanupScript);
    var c := base.(kind := Context(base.kind.fields, analysis, project));
    AddParent(AddParent(AddParent(c, Some(analysis)), Some(project)), appSpecific)
  }

  /** In a context configuration, the application-specific values override
      the project's, which override the analysis's (for ids the context
      does not set itself). */
  lemma ContextOverrideOrder(analysis: Configuration, project: Configuration, app: Configuration, id: string)
    requires IsAnalysis(analysis) && project.kind.Project? && app !in [analysis, project]
    ensures var r := NewContext(analysis, project, Some(app));
      Resolve(r, id) ==
        if Resolve(app, id).Some? then Resolve(app, id)
        else if Resolve(project, id).Some? then Resolve(project, id)
        else Resolve(analysis, id)
  {
    var r := NewContext(analysis, project, Some(app));
    var vc := ValuesContainer(r);
    assert id !in vc.own.entries;
    assert vc.parents == [ValuesContainer(analysis), ValuesContainer(project), ValuesContainer(app)];
    assert O.LookupParents(vc, 1, id) == Resolve(analysis, id);
    assert O.LookupParents(vc, 2, id) == if Resolve(project, id).Some? then Resolve(project, id) else Resolve(analysis, id);
    assert Resolve(r, id) == O.LookupParents(vc, 3, id);
  }

  /** A context configuration takes its resource-set size from its
      project. */
  lemma ContextSizeFromProject(analysis: Configuration, project: Configuration, app: Option<Configuration>, sizes: seq<string>)
    requires IsAnalysis(analysis) && project.kind.Project?
    requires Valid(analysis) && Valid(project) && (app.Some? ==> Valid(app.value))
    ensures ResourcesSize(NewContext(analysis, project, app), sizes).result == ResourcesSize(project, sizes).result
    ensures ResourcesSize(NewContext(analysis, project, app), sizes).config.parents[1] == ResourcesSize(project, sizes).config
  {
    AnalysisSizeFromProject(NewContext(analysis, project, app), 1, sizes);
  }

  // ---------------------------------------------------------------------
  // Booleans, check conditions and tools
  // ---------------------------------------------------------------------

  /** `getBoolean(id, default)`: the raw resolved value read as a boolean
      (`toBoolean` does not evaluate references), else the default. */
  function GetBoolean(c: Configuration, id: string, def: bool): (r: bool)
    ensures Resolve(c, id).None? ==> r == def
    ensures Resolve(c, id).Some? ==> r == CV.ToBoolean(Some(Resolve(c, id).value.value))
  {
    match Resolve(c, id)
    case Some(v) => CV.ToBoolean(Some(v.value))
    case None => def
  }

  /** `ToolFileParameterCheckCondition.evaluate(context)` in the context's
      configuration: a named condition defaults to true. */
  function EvaluateCheckIn(cc: T.CheckCondition, c: Configuration): (r: bool)
    requires cc.booleanValue.Some? || cc.condition.Some?
    ensures !T.IsBoolean(cc) && Resolve(c, cc.condition.value).None? ==> r
  {
    T.EvaluateCheck(cc, name => GetBoolean(c, name, true))
  }

  /** A condition read from `conditional:NAME` follows the value `NAME`. */
  lemma ConditionalFollowsValue(s: string, name: string, toBoolean: (string, bool) -> bool, c: Configuration, v: CV.CValue)
    requires s == T.CONDITIONAL_PREFIX + name && Resolve(c, name) == Some(v)
    ensures EvaluateCheckIn(T.CheckOfString(s, toBoolean), c) == CV.ToBoolean(Some(v.value))
  {
    assert JS.StartsWith(s, T.CONDITIONAL_PREFIX) && s[12..] == name;
  }

  function ToolId(t: T.ToolEntry): string {
    t.id
  }

  /** The tool container, inheriting from the parents' tool containers. */
  function ToolsContainer(c: Configuration): (r: O.Container<T.ToolEntry>)
    ensures r.id == ContainerId(Tools) && r.own == c.tools && |r.parents| == |c.parents|
    decreases c
  {
    O.Container(ContainerId(Tools), c.tools,
      seq(|c.parents|, i requires 0 <= i < |c.parents| => ToolsContainer(c.parents[i])))
  }

  lemma {:induction false} ValidToolsContainer(c: Configuration)
    requires Valid(c)
    ensures O.WellFormed(ToolsContainer(c))
    decreases c
  {
    var tc := ToolsContainer(c);
    forall i | 0 <= i < |c.parents|
      ensures tc.parents[i].id == tc.id && O.WellFormed(tc.parents[i])
    {
      ValidToolsContainer(c.parents[i]);
    }
  }

  /** `getInputParameters(configuration)` / `getOutputParameters`, with the
      tool's inheritance list taken from the configuration's tools (tool
      entries are handed out unchanged). */
  function PresentedParametersIn(c: Configuration, t: T.ToolEntry, output: bool): (r: Result<seq<T.ToolParameter>, string>)
    requires Valid(c)
    ensures !t.overridesResourceSets ==> r == Success(T.Own(t, output))
  {
    ValidToolsContainer(c);
    T.PresentedParameters(t, O.InheritanceList(ToolsContainer(c), t.id, ToolId, x => x), output)
  }

  /** A tool that no configuration in the hierarchy defines keeps its own
      parameters. */
  lemma PresentedParametersUnknown(c: Configuration, t: T.ToolEntry, output: bool)
    requires Valid(c) && !O.HasValue(ToolsContainer(c), t.id)
    ensures PresentedParametersIn(c, t, output) == Success(T.Own(t, output))
  {
    ValidToolsContainer(c);
    O.InheritanceListNonEmpty(ToolsContainer(c), t.id, ToolId, x => x);
  }

  /** `getResourceSet(configuration)`: the set chosen for the configured
      size. */
  function ToolResourceSet(c: Configuration, t: T.ToolEntry, sizes: seq<string>): (r: Read<Option<T.ResourceSet>>)
    requires Valid(c)
    ensures r.result.Success? ==> r.result.value.Some? && r.result.value.value in t.resourceSets
    ensures r.result.Failure? <==> ResourcesSize(c, sizes).result.Failure? || |t.resourceSets| == 0
    ensures r.config == ResourcesSize(c, sizes).config
  {
    var k := ResourcesSize(c, sizes);
    if k.result.Failure? then Read(k.config, Failure(k.result.error))
    else if |t.resourceSets| > 0 then
      T.ResourceSetChoice(t.resourceSets, k.result.value);
      Read(k.config, T.GetResourceSet(t.resourceSets, k.result.value))
    else Read(k.config, T.GetResourceSet(t.resourceSets, k.result.value))
  }
}
