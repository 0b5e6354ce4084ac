/** Tool entries: a tool's script location, its typed input and output
    parameters and the resource sets it may run with. Classes are
    represented by their names, resource-set sizes by their ordinals, and
    methods of constraints by their names. */
module Tools {
  import opened Wrappers
  import JS = JavaStrings

  const DEFAULT_SELECTION_TAG := "default"
  const CONDITIONAL_PREFIX := "conditional:"
  /** The script parameter name of a tuple, which is never passed. */
  const NO_VALUE := "<NO_VALUE>"

  /** A resource set; only its size takes part in any decision. */
  datatype ResourceSet = ResourceSet(
    size: nat,
    mem: Option<string>,
    cores: Option<int>,
    nodes: Option<int>,
    walltime: Option<string>,
    storage: Option<string>,
    queue: Option<string>,
    additionalNodeFlag: Option<string>)

  /** A constraint names the check method and the method called when the
      check fails. */
  datatype Constraint = Constraint(onFailMethod: string, checkMethod: string)

  // ---------------------------------------------------------------------
  // Check conditions
  // ---------------------------------------------------------------------

  /** The check tag of a file parameter: a fixed boolean, or the name of a
      configuration value to ask. */
  datatype CheckCondition = CheckCondition(condition: Option<string>, booleanValue: Option<bool>)

  /** `new ToolFileParameterCheckCondition(boolean)`. */
  function CheckOfBool(b: bool): (r: CheckCondition)
    ensures IsBoolean(r) && r.booleanValue == Some(b) && r.condition.None?
  {
    CheckCondition(None, Some(b))
  }

  /** `new ToolFileParameterCheckCondition(String)`: `conditional:NAME`
      names a value; anything else is read as a boolean, `true` when it
      cannot be read (`toBoolean(s, true)`, given as a parameter). */
  function CheckOfString(s: string, toBoolean: (string, bool) -> bool): (r: CheckCondition)
    ensures JS.StartsWith(s, CONDITIONAL_PREFIX) ==> r == CheckCondition(Some(s[12..]), None)
    ensures !JS.StartsWith(s, CONDITIONAL_PREFIX) ==> r == CheckCondition(None, Some(toBoolean(s, true)))
  {
    if JS.StartsWith(s, CONDITIONAL_PREFIX) then CheckCondition(Some(s[12..]), None)
    else CheckCondition(None, Some(toBoolean(s, true)))
  }

  /** `isBoolean()`. */
  predicate IsBoolean(c: CheckCondition) {
    c.booleanValue.Some?
  }

  /** A condition built from a string is a value reference exactly when the
      string has the prefix, and then prefixing the name gives the string
      back. */
  lemma CheckOfStringRoundTrip(s: string, toBoolean: (string, bool) -> bool)
    ensures !IsBoolean(CheckOfString(s, toBoolean)) <==> JS.StartsWith(s, CONDITIONAL_PREFIX)
    ensures !IsBoolean(CheckOfString(s, toBoolean)) ==>
      CONDITIONAL_PREFIX + CheckOfString(s, toBoolean).condition.value == s
  {
    if JS.StartsWith(s, CONDITIONAL_PREFIX) {
      assert s == s[..12] + s[12..];
    }
  }

  /** `evaluate(context)`: the fixed boolean, else the boolean the named
      value reads as (`getBoolean(name, true)`), given as `valueOf`. */
  function EvaluateCheck(c: CheckCondition, valueOf: string -> bool): (r: bool)
    requires c.booleanValue.Some? || c.condition.Some?
    ensures IsBoolean(c) ==> r == c.booleanValue.value
    ensures !IsBoolean(c) ==> r == valueOf(c.condition.value)
  {
    if c.booleanValue.Some? then c.booleanValue.value else valueOf(c.condition.value)
  }

  // ---------------------------------------------------------------------
  // Parameters
  // ---------------------------------------------------------------------

  datatype SetBy = CallingCode | ConfigurationValue
  datatype PassOptions = PassParameters | PassArray

  datatype FileParameter = FileParameter(
    fileClass: string,
    constraints: seq<Constraint>,
    scriptParameterName: string,
    checkFile: CheckCondition,
    selectionTag: string,
    childFiles: seq<FileParameter>,
    parentVariable: Option<string>)

  datatype ToolParameter =
    | StringParameter(scriptParameterName: string, cValueID: Option<string>, setBy: SetBy)
    | FileParam(file: FileParameter)
    | TupleParameter(files: seq<FileParameter>)
    | GroupParameter(groupClass: string, genericFileClass: Option<string>, files: seq<FileParameter>,
                     scriptParameterName: string, passOptions: PassOptions)

  /** `new ToolStringParameter(name)` and `new ToolStringParameter(name, id)`:
      the value is set by the calling code unless a value id is given. */
  function NewStringParameter(name: string, cValueID: Option<string>): (r: ToolParameter)
    ensures r.StringParameter? && r.scriptParameterName == name && r.cValueID == cValueID
    ensures r.setBy == (if cValueID.Some? then ConfigurationValue else CallingCode)
  {
    StringParameter(name, cValueID, if cValueID.Some? then ConfigurationValue else CallingCode)
  }

  /** The full constructor: null constraint and child lists become empty. */
  function NewFileParameter(fileClass: string, constraints: Option<seq<Constraint>>, name: string,
                            check: CheckCondition, tag: string, children: Option<seq<FileParameter>>,
                            parentVariable: Option<string>): (r: FileParameter)
    ensures r.constraints == (if constraints.Some? then constraints.value else [])
    ensures r.childFiles == (if children.Some? then children.value else [])
    ensures r.fileClass == fileClass && r.scriptParameterName == name && r.checkFile == check
    ensures r.selectionTag == tag && r.parentVariable == parentVariable
  {
    FileParameter(fileClass, if constraints.Some? then constraints.value else [], name, check, tag,
                  if children.Some? then children.value else [], parentVariable)
  }

  /** The short constructor: the default selection tag, no children and no
      parent variable. */
  function NewSimpleFileParameter(fileClass: string, constraints: Option<seq<Constraint>>, name: string,
                                  check: CheckCondition): (r: FileParameter)
    ensures !HasSelectionTag(r) && r.childFiles == [] && r.parentVariable.None?
    ensures r.constraints == (if constraints.Some? then constraints.value else [])
  {
    NewFileParameter(fileClass, constraints, name, check, DEFAULT_SELECTION_TAG, None, None)
  }

  /** `hasSelectionTag()`. */
  predicate HasSelectionTag(p: FileParameter) {
    p.selectionTag != DEFAULT_SELECTION_TAG
  }

  /** `clone()`: constraints are copied one by one; the child list is
      shared. */
  function CloneFileParameter(p: FileParameter): FileParameter {
    NewFileParameter(p.fileClass, Some(CloneConstraints(p.constraints)), p.scriptParameterName, p.checkFile,
                     p.selectionTag, Some(p.childFiles), p.parentVariable)
  }

  function CloneConstraints(cs: seq<Constraint>): (r: seq<Constraint>)
    ensures |r| == |cs|
  {
    if |cs| == 0 then [] else CloneConstraints(cs[..|cs| - 1]) + [Constraint(cs[|cs| - 1].onFailMethod, cs[|cs| - 1].checkMethod)]
  }

  lemma {:induction false} CloneConstraintsEqual(cs: seq<Constraint>)
    ensures CloneConstraints(cs) == cs
  {
    if |cs| > 0 {
      CloneConstraintsEqual(cs[..|cs| - 1]);
      assert cs == cs[..|cs| - 1] + [cs[|cs| - 1]];
    }
  }

  /** A cloned file parameter equals the original. */
  lemma CloneFileParameterEqual(p: FileParameter)
    ensures CloneFileParameter(p) == p
  {
    CloneConstraintsEqual(p.constraints);
  }

  function CloneFiles(fs: seq<FileParameter>): (r: seq<FileParameter>)
    ensures |r| == |fs|
  {
    if |fs| == 0 then [] else CloneFiles(fs[..|fs| - 1]) + [CloneFileParameter(fs[|fs| - 1])]
  }

  lemma {:induction false} CloneFilesEqual(fs: seq<FileParameter>)
    ensures CloneFiles(fs) == fs
  {
    if |fs| > 0 {
      CloneFilesEqual(fs[..|fs| - 1]);
      CloneFileParameterEqual(fs[|fs| - 1]);
      assert fs == fs[..|fs| - 1] + [fs[|fs| - 1]];
    }
  }

  /** `clone()` of any parameter kind. */
  function CloneParameter(p: ToolParameter): ToolParameter {
    match p
    case StringParameter(n, v, s) => StringParameter(n, v, s)
    case FileParam(f) => FileParam(CloneFileParameter(f))
    case TupleParameter(fs) => TupleParameter(CloneFiles(fs))
    case GroupParameter(g, gf, fs, n, o) => GroupParameter(g, gf, CloneFiles(fs), n, o)
  }

  lemma CloneParameterEqual(p: ToolParameter)
    ensures CloneParameter(p) == p
  {
    match p
    case StringParameter(_, _, _) =>
    case FileParam(f) => CloneFileParameterEqual(f);
    case TupleParameter(fs) => CloneFilesEqual(fs);
    case GroupParameter(_, _, fs, _, _) => CloneFilesEqual(fs);
  }

  /** `ToolFileGroupParameter.getGenericClassString()`: `Group<File>` for a
      generic group, else the group class name. */
  function GenericClassString(p: ToolParameter): (r: string)
    requires p.GroupParameter?
  {
    if p.genericFileClass.Some? then p.groupClass + "<" + p.genericFileClass.value + ">" else p.groupClass
  }

  /** For class names without `<`, the string splits back at its first `<`
      into the group class and the generic class. */
  lemma GenericClassStringParts(p: ToolParameter)
    requires p.GroupParameter? && JS.Avoids(p.groupClass, '<')
    ensures p.genericFileClass.None? ==> JS.IndexOf(GenericClassString(p), "<") == -1
    ensures p.genericFileClass.Some? ==>
      var s := GenericClassString(p);
      var i := JS.IndexOf(s, "<");
      i == |p.groupClass| && s[..i] == p.groupClass && s[i + 1..] == p.genericFileClass.value + ">"
  {
    if p.genericFileClass.Some? {
      JS.IndexOfAvoids(p.groupClass, "<", p.genericFileClass.value + ">");
      assert GenericClassString(p) == p.groupClass + "<" + (p.genericFileClass.value + ">");
    } else {
      JS.IndexOfNoDelimiter(p.groupClass, "<");
    }
  }

  // ---------------------------------------------------------------------
  // Tool entries
  // ---------------------------------------------------------------------

  datatype ToolEntry = ToolEntry(
    id: string,
    basePathId: string,
    path: string,
    computationResourcesFlags: string,
    inlineScript: Option<string>,
    inlineScriptName: Option<string>,
    inputParameters: seq<ToolParameter>,
    outputParameters: seq<ToolParameter>,
    resourceSets: seq<ResourceSet>,
    overridesResourceSets: bool)

  /** `new ToolEntry(id, basePathId, path[, flags])`: the flags are never
      null; a missing or null argument gives `""`. */
  function NewToolEntry(id: string, basePathId: string, path: string, flags: Option<string>): (r: ToolEntry)
    ensures r.id == id && r.basePathId == basePathId && r.path == path
    ensures r.computationResourcesFlags == (if flags.Some? then flags.value else "")
    ensures !IsToolGeneric(r) && !HasResourceSets(r) && !HasInlineScript(r)
  {
    ToolEntry(id, basePathId, path, if flags.Some? then flags.value else "", None, None, [], [], [], false)
  }

  /** `isToolGeneric()`. */
  predicate IsToolGeneric(t: ToolEntry) {
    t.overridesResourceSets || |t.inputParameters| > 0 || |t.outputParameters| > 0
  }

  /** `hasResourceSets()`. */
  predicate HasResourceSets(t: ToolEntry) {
    |t.resourceSets| > 0
  }

  /** `hasInlineScript()`. */
  predicate HasInlineScript(t: ToolEntry) {
    t.inlineScript.Some?
  }

  /** `setGenericOptions(input, output, sets)`: the lists are appended. */
  function SetGenericOptions(t: ToolEntry, input: seq<ToolParameter>, output: seq<ToolParameter>,
                             sets: seq<ResourceSet>): (r: ToolEntry)
    ensures r.inputParameters == t.inputParameters + input
    ensures r.outputParameters == t.outputParameters + output
    ensures r.resourceSets == t.resourceSets + sets
  {
    t.(inputParameters := t.inputParameters + input, outputParameters := t.outputParameters + output,
       resourceSets := t.resourceSets + sets)
  }

  /** Adding generic options makes a tool generic as soon as an input or
      output parameter is given, and gives it resource sets as soon as one
      is given; the inline script is untouched. */
  lemma GenericOptionsMakeGeneric(t: ToolEntry, input: seq<ToolParameter>, output: seq<ToolParameter>,
                                  sets: seq<ResourceSet>)
    ensures var r := SetGenericOptions(t, input, output, sets);
      (IsToolGeneric(r) <==> IsToolGeneric(t) || |input| > 0 || |output| > 0) &&
      (HasResourceSets(r) <==> HasResourceSets(t) || |sets| > 0) &&
      (HasInlineScript(r) <==> HasInlineScript(t))
  {
  }

  function CloneParameters(ps: seq<ToolParameter>): (r: seq<ToolParameter>)
    ensures |r| == |ps|
  {
    if |ps| == 0 then [] else CloneParameters(ps[..|ps| - 1]) + [CloneParameter(ps[|ps| - 1])]
  }

  lemma {:induction false} CloneParametersEqual(ps: seq<ToolParameter>)
    ensures CloneParameters(ps) == ps
  {
    if |ps| > 0 {
      CloneParametersEqual(ps[..|ps| - 1]);
      CloneParameterEqual(ps[|ps| - 1]);
      assert ps == ps[..|ps| - 1] + [ps[|ps| - 1]];
    }
  }

  /** `clone()`: a new entry with the same id, paths and flags, copies of
      the parameters and resource sets, and the override flag. */
  function CloneTool(t: ToolEntry): ToolEntry {
    var te := NewToolEntry(t.id, t.basePathId, t.path, Some(t.computationResourcesFlags));
    var te2 := SetGenericOptions(te, CloneParameters(t.inputParameters), CloneParameters(t.outputParameters), t.resourceSets);
    if t.overridesResourceSets then te2.(overridesResourceSets := true) else te2
  }

  /** A clone equals the original except that the inline script and its
      name are not copied. */
  lemma CloneToolLosesInlineScript(t: ToolEntry)
    ensures CloneTool(t) == t.(inlineScript := None, inlineScriptName := None)
    ensures !HasInlineScript(CloneTool(t))
    ensures IsToolGeneric(CloneTool(t)) <==> IsToolGeneric(t)
  {
    CloneParametersEqual(t.inputParameters);
    CloneParametersEqual(t.outputParameters);
  }

  // ---------------------------------------------------------------------
  // Resource-set selection
  // ---------------------------------------------------------------------

  /** The first index at or after `i` whose set has exactly the size. */
  function IndexOfSize(sets: seq<ResourceSet>, size: nat, i: nat): (r: Option<nat>)
    requires i <= |sets|
    ensures r.Some? ==> i <= r.value < |sets| && sets[r.value].size == size &&
                        (forall j :: i <= j < r.value ==> sets[j].size != size)
    ensures r.None? ==> forall j :: i <= j < |sets| ==> sets[j].size != size
    decreases |sets| - i
  {
    if i == |sets| then None
    else if sets[i].size == size then Some(i)
    else IndexOfSize(sets, size, i + 1)
  }

  /** The first index at or after `i` whose set is larger than the size. */
  function IndexAbove(sets: seq<ResourceSet>, size: nat, i: nat): (r: Option<nat>)
    requires i <= |sets|
    ensures r.Some? ==> i <= r.value < |sets| && sets[r.value].size > size &&
                        (forall j :: i <= j < r.value ==> sets[j].size <= size)
    ensures r.None? ==> forall j :: i <= j < |sets| ==> sets[j].size <= size
    decreases |sets| - i
  {
    if i == |sets| then None
    else if sets[i].size > size then Some(i)
    else IndexAbove(sets, size, i + 1)
  }

  /** `getResourceSet(configuration)` for the configured size's ordinal.
      An empty list fails (`get(0)`); `None` stands for the final `null`,
      which the lemma below shows is never reached. */
  function GetResourceSet(sets: seq<ResourceSet>, key: nat): (r: Result<Option<ResourceSet>, string>)
    ensures r.Failure? <==> |sets| == 0
  {
    if |sets| == 0 then Failure("IndexOutOfBoundsException")
    else if |sets| == 1 then Success(Some(sets[0]))
    else if key <= sets[0].size then Success(Some(sets[0]))
    else if key >= sets[|sets| - 1].size then Success(Some(sets[|sets| - 1]))
    else
      var exact := IndexOfSize(sets, key, 0);
      if exact.Some? then Success(Some(sets[exact.value]))
      else
        var above := IndexAbove(sets, key, 0);
        if above.Some? then Success(Some(sets[above.value])) else Success(None)
  }

  /** The selected set always exists and belongs to the list. With more
      than one set: a size at or below the first set's gives the first, one
      at or above the last set's gives the last, and any other size gives
      the first set of exactly that size, else the first larger one. */
  lemma ResourceSetChoice(sets: seq<ResourceSet>, key: nat)
    requires |sets| > 0
    ensures var r := GetResourceSet(sets, key);
      r.Success? && r.value.Some? && r.value.value in sets
    ensures var s := GetResourceSet(sets, key).value.value;
      var first := sets[0];
      var last := sets[|sets| - 1];
      (|sets| == 1 || key <= first.size ==> s == first) &&
      (|sets| > 1 && first.size < key && key >= last.size ==> s == last) &&
      (|sets| > 1 && first.size < key < last.size ==>
        exists i :: 0 <= i < |sets| && s == sets[i] &&
          ((sets[i].size == key && forall j :: 0 <= j < i ==> sets[j].size != key) ||
           ((forall j :: 0 <= j < |sets| ==> sets[j].size != key) &&
            sets[i].size > key && forall j :: 0 <= j < i ==> sets[j].size <= key)))
  {
    var last := sets[|sets| - 1];
    if |sets| > 1 && sets[0].size < key < last.size {
      var exact := IndexOfSize(sets, key, 0);
      var above := IndexAbove(sets, key, 0);
      assert sets[|sets| - 1].size > key;
    }
  }

  // ---------------------------------------------------------------------
  // Inherited parameters
  // ---------------------------------------------------------------------

  /** The parameters a tool presents (`getInputParameters` /
      `getOutputParameters`), given the tool's inheritance list in the
      configuration (own entry first, then the parents' entries; `None`
      stands for a null entry, which fails). A tool that overrides only its
      resource sets takes the parameters of the nearest entry, scanning
      from the second-to-last entry down, that does not override. */
  function PresentedParameters(t: ToolEntry, inh: seq<Option<ToolEntry>>, output: bool): (r: Result<seq<ToolParameter>, string>)
    ensures !t.overridesResourceSets || |inh| <= 1 ==> r == Success(Own(t, output))
  {
    if t.overridesResourceSets && |inh| > 1 then ScanDown(t, inh, |inh| - 2, output)
    else Success(Own(t, output))
  }

  function Own(t: ToolEntry, output: bool): seq<ToolParameter> {
    if output then t.outputParameters else t.inputParameters
  }

  /** The loop from index `i` down to 0. */
  function ScanDown(t: ToolEntry, inh: seq<Option<ToolEntry>>, i: int, output: bool): (r: Result<seq<ToolParameter>, string>)
    requires -1 <= i < |inh|
    decreases i + 1
  {
    if i < 0 then Success(Own(t, output))
    else if inh[i].None? then Failure("NullPointerException")
    else if !inh[i].value.overridesResourceSets then Success(Own(inh[i].value, output))
    else ScanDown(t, inh, i - 1, output)
  }

  /** The entry at `j` decides when every entry above it (up to the
      second-to-last) is present and overrides as well. */
  lemma {:induction false} PresentedFromEntry(t: ToolEntry, inh: seq<Option<ToolEntry>>, j: nat, output: bool)
    requires t.overridesResourceSets && j <= |inh| - 2
    requires inh[j].Some? && !inh[j].value.overridesResourceSets
    requires forall k :: j < k <= |inh| - 2 ==> inh[k].Some? && inh[k].value.overridesResourceSets
    ensures PresentedParameters(t, inh, output) == Success(Own(inh[j].value, output))
  {
    ScanDownFrom(t, inh, |inh| - 2, j, output);
  }

  lemma {:induction false} ScanDownFrom(t: ToolEntry, inh: seq<Option<ToolEntry>>, i: int, j: nat, output: bool)
    requires j <= i < |inh|
    requires inh[j].Some? && !inh[j].value.overridesResourceSets
    requires forall k :: j < k <= i ==> inh[k].Some? && inh[k].value.overridesResourceSets
    ensures ScanDown(t, inh, i, output) == Success(Own(inh[j].value, output))
    decreases i
  {
    if i > j {
      ScanDownFrom(t, inh, i - 1, j, output);
    }
  }

  /** When every scanned entry is present and overrides, the tool keeps its
      own parameters. */
  lemma {:induction false} PresentedAllOverride(t: ToolEntry, inh: seq<Option<ToolEntry>>, i: int, output: bool)
    requires -1 <= i < |inh|
    requires forall k :: 0 <= k <= i ==> inh[k].Some? && inh[k].value.overridesResourceSets
    ensures ScanDown(t, inh, i, output) == Success(Own(t, output))
    decreases i + 1
  {
    if i >= 0 {
      PresentedAllOverride(t, inh, i - 1, output);
    }
  }
}
