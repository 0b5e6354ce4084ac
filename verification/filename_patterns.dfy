/** Filename patterns: how a file's name is derived (from a parent file, on
    a method, on a tool, or from a file stage), the pattern's id, and the
    source-file placeholders of a pattern with the `${name,attr=value}`
    commands they carry. Classes, methods and file stages are represented
    by their names. */
module FilenamePatterns {
  import opened Wrappers
  import JS = JavaStrings

  const DEFAULT_SELECTION_TAG := "default"
  const PLACEHOLDER_SOURCEFILE_ATOMIC_PREFIX := "${sourcefileAtomicPrefix"
  const PLACEHOLDER_SOURCEFILE_PROPERTY := "${sourcefileProperty"
  const DELIMITER := "delimiter"

  datatype DependencyKind = DerivedFrom | OnMethod | OnTool | FileStage

  /** The subclass of a pattern with its own fields. */
  datatype PatternKind =
    | DerivedFromKind(derivedFromCls: string)
    | OnMethodKind(calledClass: string, methodName: string)
    | OnToolKind(toolID: string)
    | FileStageKind(fileStage: string)

  datatype FilenamePattern = FilenamePattern(
    cls: string,
    pattern: string,
    selectionTag: string,
    acceptsFileArrays: bool,
    enforcedArraySize: int,
    kind: PatternKind)

  /** The common constructor: a null selection tag becomes `"default"`;
      the array settings keep Java's field defaults. */
  function NewPattern(cls: string, pattern: string, tag: Option<string>, kind: PatternKind): (r: FilenamePattern)
    ensures r.selectionTag == (if tag.Some? then tag.value else DEFAULT_SELECTION_TAG)
    ensures tag.None? ==> !HasSelectionTag(r)
    ensures !r.acceptsFileArrays && !HasEnforcedArraySize(r)
    ensures r.cls == cls && r.pattern == pattern && r.kind == kind
  {
    FilenamePattern(cls, pattern, if tag.Some? then tag.value else DEFAULT_SELECTION_TAG, false, 0, kind)
  }

  /** The long `DerivedFromFilenamePattern` constructor. */
  function NewDerivedFrom(cls: string, derivedFromCls: string, pattern: string, tag: Option<string>,
                          acceptsFileArrays: bool, enforcedArraySize: int): (r: FilenamePattern)
    ensures r.kind == DerivedFromKind(derivedFromCls) && Dependency(r) == DerivedFrom
    ensures r.acceptsFileArrays == acceptsFileArrays && r.enforcedArraySize == enforcedArraySize
    ensures r.selectionTag == (if tag.Some? then tag.value else DEFAULT_SELECTION_TAG)
  {
    NewPattern(cls, pattern, tag, DerivedFromKind(derivedFromCls)).(acceptsFileArrays := acceptsFileArrays,
                                                                    enforcedArraySize := enforcedArraySize)
  }

  /** The short constructor: no file arrays, no enforced array size. */
  function NewSimpleDerivedFrom(cls: string, derivedFromCls: string, pattern: string, tag: Option<string>): (r: FilenamePattern)
    ensures !r.acceptsFileArrays && r.enforcedArraySize == -1 && !HasEnforcedArraySize(r)
  {
    NewDerivedFrom(cls, derivedFromCls, pattern, tag, false, -1)
  }

  /** `hasSelectionTag()`. */
  predicate HasSelectionTag(p: FilenamePattern) {
    p.selectionTag != DEFAULT_SELECTION_TAG
  }

  /** `hasEnforcedArraySize()`: a positive size; -1 means none. */
  predicate HasEnforcedArraySize(p: FilenamePattern) {
    p.enforcedArraySize > 0
  }

  /** `getFilenamePatternDependency()`. */
  function Dependency(p: FilenamePattern): DependencyKind {
    match p.kind
    case DerivedFromKind(_) => DerivedFrom
    case OnMethodKind(_, _) => OnMethod
    case OnToolKind(_) => OnTool
    case FileStageKind(_) => FileStage
  }

  /** `getID()`: the class, a kind marker with the kind's own field, and
      the selection tag in brackets. The on-method form names the pattern's
      class after `r_`, not the called class. */
  function Id(p: FilenamePattern): (r: string)
    ensures JS.StartsWith(r, p.cls + "::") && JS.EndsWith(r, "[" + p.selectionTag + "]")
  {
    var middle := match p.kind
      case DerivedFromKind(d) => "c_" + d
      case OnMethodKind(_, m) => "m_" + m + "/r_" + p.cls
      case OnToolKind(t) => "onS_" + t
      case FileStageKind(s) => "#_" + s;
    assert (p.cls + "::" + middle + "[" + p.selectionTag + "]")[..|p.cls + "::"|] == p.cls + "::";
    p.cls + "::" + middle + "[" + p.selectionTag + "]"
  }

  /** The character after `cls::` tells the dependency kind, so patterns
      for the same class with different dependencies never share an id. */
  lemma IdsSeparateDependencies(p: FilenamePattern, q: FilenamePattern)
    requires p.cls == q.cls && Dependency(p) != Dependency(q)
    ensures Id(p) != Id(q)
  {
    var k := |p.cls| + 2;
    assert Id(p)[k] != Id(q)[k];
  }

  /** `getSourceFile(baseFiles)`, given the parent list of the first base
      file (`None` for null): a derived-from pattern takes its first parent
      and fails without one; an on-method pattern takes the first parent if
      there is one; the other kinds have no source file. */
  function SourceFile<F>(p: FilenamePattern, parents: Option<seq<F>>): (r: Result<Option<F>, string>)
    ensures Dependency(p) == OnTool || Dependency(p) == FileStage ==> r == Success(None)
    ensures Dependency(p) == OnMethod ==>
      r.Success? && (r.value.Some? <==> parents.Some? && |parents.value| > 0)
    ensures Dependency(p) == DerivedFrom ==> (r.Success? <==> parents.Some? && |parents.value| > 0)
    ensures r.Success? && r.value.Some? ==> parents.Some? && |parents.value| > 0 && r.value.value == parents.value[0]
  {
    match p.kind
    case DerivedFromKind(_) =>
      if parents.None? then Failure("NullPointerException")
      else if |parents.value| == 0 then Failure("IndexOutOfBoundsException")
      else Success(Some(parents.value[0]))
    case OnMethodKind(_, _) =>
      if parents.Some? && |parents.value| > 0 then Success(Some(parents.value[0])) else Success(None)
    case OnToolKind(_) => Success(None)
    case FileStageKind(_) => Success(None)
  }

  /** An on-method pattern depends on a method, keeps the called class and
      method, takes the first parent as its source file when there is one,
      and has the id `cls::m_method/r_cls[tag]`. */
  lemma OnMethodPattern<F>(cls: string, calledClass: string, methodName: string, pattern: string, tag: Option<string>,
                           parents: Option<seq<F>>)
    ensures var p := NewPattern(cls, pattern, tag, OnMethodKind(calledClass, methodName));
      Dependency(p) == OnMethod && p.kind.calledClass == calledClass && p.kind.methodName == methodName &&
      Id(p) == cls + "::m_" + methodName + "/r_" + cls + "[" + p.selectionTag + "]" &&
      (parents.Some? && |parents.value| > 0 ==> SourceFile(p, parents) == Success(Some(parents.value[0]))) &&
      (parents.None? || |parents.value| == 0 ==> SourceFile(p, parents) == Success(None))
  {
  }

  /** An on-tool pattern keeps the tool id, has no source file and has the
      id `cls::onS_tool[tag]`. */
  lemma OnToolPattern<F>(cls: string, toolID: string, pattern: string, tag: Option<string>, parents: Option<seq<F>>)
    ensures var p := NewPattern(cls, pattern, tag, OnToolKind(toolID));
      Dependency(p) == OnTool && p.kind.toolID == toolID && SourceFile(p, parents) == Success(None) &&
      Id(p) == cls + "::onS_" + toolID + "[" + p.selectionTag + "]"
  {
  }

  /** A file-stage pattern keeps the stage, has no source file and has the
      id `cls::#_stage[tag]`. */
  lemma FileStagePattern<F>(cls: string, stage: string, pattern: string, tag: Option<string>, parents: Option<seq<F>>)
    ensures var p := NewPattern(cls, pattern, tag, FileStageKind(stage));
      Dependency(p) == FileStage && p.kind.fileStage == stage && SourceFile(p, parents) == Success(None) &&
      Id(p) == cls + "::#_" + stage + "[" + p.selectionTag + "]"
  {
  }

  // ---------------------------------------------------------------------
  // Commands
  // ---------------------------------------------------------------------

  /** A command: its whole text from the placeholder to the closing brace,
      and its attributes by name. */
  datatype Command = Command(name: string, attributes: map<string, string>)

  function Filter(keep: char -> bool, s: string): (r: string)
    ensures |r| <= |s| && forall i :: 0 <= i < |r| ==> keep(r[i])
    ensures (forall i :: 0 <= i < |s| ==> keep(s[i])) ==> r == s
  {
    if |s| == 0 then ""
    else if keep(s[0]) then [s[0]] + Filter(keep, s[1..])
    else Filter(keep, s[1..])
  }

  lemma {:induction false} FilterConcat(keep: char -> bool, a: string, b: string)
    ensures Filter(keep, a + b) == Filter(keep, a) + Filter(keep, b)
    decreases |a|
  {
    if |a| == 0 {
      assert a + b == b;
    } else {
      assert (a + b)[0] == a[0];
      assert (a + b)[1..] == a[1..] + b;
      FilterConcat(keep, a[1..], b);
    }
  }

  lemma {:induction false} FilterAvoids(keep: char -> bool, s: string, c: char)
    requires JS.Avoids(s, c)
    ensures JS.Avoids(Filter(keep, s), c)
    decreases |s|
  {
    if |s| > 0 {
      FilterAvoids(keep, s[1..], c);
    }
  }

  /** `extractCommand(commandID, temp)` with the character filter applied
      to each attribute segment as a parameter: the text from the first
      occurrence of the id up to and including the next `}`; then every
      comma-separated segment after the first, filtered and split at `=`,
      gives an attribute, a later name overriding an earlier one. */
  function ExtractCommandWith(keep: char -> bool, commandID: string, temp: string): (r: Result<Command, string>)
    ensures !JS.Contains(temp, commandID) ==> r.Failure?
    ensures r.Success? ==> JS.OccursAt(temp, r.value.name, JS.IndexOf(temp, commandID))
  {
    var start := JS.IndexOf(temp, commandID);
    var end := JS.IndexOfFrom(temp, "}", start);
    if start < 0 || end + 1 < start then Failure("StringIndexOutOfBoundsException")
    else CommandOf(keep, temp[start..end + 1])
  }

  /** The attributes of a located command's text. */
  function CommandOf(keep: char -> bool, command: string): (r: Result<Command, string>)
    ensures r.Success? ==> r.value.name == command
  {
    var attributes :- AttributesFrom(keep, JS.Split(command, ","), 1, map[]);
    Success(Command(command, attributes))
  }

  /** The attributes of segments `i..`, added to `m`. A segment that
      filters down to nothing but `=` signs has no name and fails. */
  function AttributesFrom(keep: char -> bool, segments: seq<string>, i: nat, m: map<string, string>): Result<map<string, string>, string>
    decreases |segments| - i
  {
    if i >= |segments| then Success(m)
    else
      var parts := JS.Split(Filter(keep, segments[i]), "=");
      if |parts| == 0 then Failure("ArrayIndexOutOfBoundsException")
      else AttributesFrom(keep, segments, i + 1, m[parts[0] := if |parts| == 2 then parts[1] else ""])
  }

  predicate IsAlnum(c: char) {
    ('0' <= c <= '9') || ('a' <= c <= 'z') || ('A' <= c <= 'Z')
  }

  /** The characters `[^0-9a-zA-Z=.-_+#]` keeps, as written: `.-_` is the
      range from `.` to `_`, which contains `/`, `:` to `@` and `[` to `^`
      but not `-`. */
  predicate KeepAsWritten(c: char) {
    IsAlnum(c) || c == '=' || ('.' <= c <= '_') || c == '+' || c == '#'
  }

  /** The characters evidently meant: letters, digits and `= . - _ + #`. */
  predicate KeepIntended(c: char) {
    IsAlnum(c) || c == '=' || c == '.' || c == '-' || c == '_' || c == '+' || c == '#'
  }

  /** `extractCommand` as written. */
  function ExtractCommandAsWritten(commandID: string, temp: string): Result<Command, string> {
    ExtractCommandWith(KeepAsWritten, commandID, temp)
  }

  /** `extractCommand` with the intended character set. */
  function ExtractCommand(commandID: string, temp: string): Result<Command, string> {
    ExtractCommandWith(KeepIntended, commandID, temp)
  }

  /** The command id is found at the start and its closing brace at the
      end of a text that has no other closing brace. */
  lemma LocateCommand(id: string, body: string)
    requires JS.Avoids(id, '}') && JS.Avoids(body, '}')
    ensures var temp := id + body + "}";
      JS.IndexOf(temp, id) == 0 && JS.IndexOfFrom(temp, "}", 0) == |temp| - 1
  {
    var temp := id + body + "}";
    assert JS.OccursAt(temp, id, 0) by {
      assert temp[0..|id|] == id;
    }
    var a := id + body;
    assert JS.Avoids(a, '}');
    assert temp == a + "}" + "";
    JS.IndexOfAvoids(a, "}", "");
  }

  /** Filtering `name=v}` keeps the name and the `=`, drops the brace. */
  lemma FilterSegment(keep: char -> bool, name: string, v: string)
    requires forall i :: 0 <= i < |name| ==> keep(name[i])
    requires keep('=') && !keep('}')
    ensures Filter(keep, name + "=" + v + "}") == name + "=" + Filter(keep, v)
  {
    FilterConcat(keep, name + "=" + v, "}");
    FilterConcat(keep, name + "=", v);
    FilterConcat(keep, name, "=");
    assert Filter(keep, "}") == "";
    assert Filter(keep, "=") == "=";
  }

  /** Splitting `name=fv` at `=` gives the name, then the value unless it
      is empty. */
  lemma SplitAttribute(name: string, fv: string)
    requires |name| > 0 && JS.Avoids(name, '=') && JS.Avoids(fv, '=')
    ensures var parts := JS.Split(name + "=" + fv, "=");
      |parts| > 0 && parts[0] == name && (if |parts| == 2 then parts[1] else "") == fv
  {
    JS.RawSplitNoDelimiter(fv, "=");
    JS.SplitCons(name, "=", fv);
    assert JS.Split(name + "=" + fv, "=") == [name] + JS.DropTrailingEmpty([fv]);
  }

  /** A command with a single attribute `name=value` yields that attribute
      with the value's kept characters. */
  lemma SingleAttribute(keep: char -> bool, id: string, name: string, v: string)
    requires JS.Avoids(id, '}') && JS.Avoids(id, ',')
    requires |name| > 0 && (forall i :: 0 <= i < |name| ==> keep(name[i]))
    requires JS.Avoids(name, '=') && JS.Avoids(name, ',') && JS.Avoids(name, '}')
    requires JS.Avoids(v, '=') && JS.Avoids(v, ',') && JS.Avoids(v, '}')
    requires keep('=') && !keep('}')
    ensures var temp := id + "," + name + "=" + v + "}";
      ExtractCommandWith(keep, id, temp) == Success(Command(temp, map[name := Filter(keep, v)]))
  {
    var temp := id + "," + name + "=" + v + "}";
    var rest := name + "=" + v + "}";
    CommandText(id, name, v);
    AttributeSegmentAvoids(name, v);
    LocateCommand(id, "," + name + "=" + v);
    WholeCommand(keep, id, temp);
    SplitSegments(id, rest);
    SegmentAttribute(keep, id, name, v);
    assert CommandOf(keep, temp) == Success(Command(temp, map[name := Filter(keep, v)]));
  }

  /** The two ways the command text is read: up to its closing brace,
      and as the id followed by a comma and one segment. */
  lemma CommandText(id: string, name: string, v: string)
    ensures id + "," + name + "=" + v + "}" == id + ("," + name + "=" + v) + "}"
    ensures id + "," + name + "=" + v + "}" == id + "," + (name + "=" + v + "}")
  {
  }

  /** `,name=v` has no closing brace and `name=v}` no comma. */
  lemma AttributeSegmentAvoids(name: string, v: string)
    requires JS.Avoids(name, ',') && JS.Avoids(name, '}') && JS.Avoids(v, ',') && JS.Avoids(v, '}')
    ensures JS.Avoids("," + name + "=" + v, '}') && JS.Avoids(name + "=" + v + "}", ',')
  {
    AvoidsConcat(",", name, '}');
    AvoidsConcat("," + name, "=", '}');
    AvoidsConcat("," + name + "=", v, '}');
    AvoidsConcat(name, "=", ',');
    AvoidsConcat(name + "=", v, ',');
    AvoidsConcat(name + "=" + v, "}", ',');
  }

  lemma AvoidsConcat(a: string, b: string, c: char)
    requires JS.Avoids(a, c) && JS.Avoids(b, c)
    ensures JS.Avoids(a + b, c)
  {
    forall i | 0 <= i < |a + b| ensures (a + b)[i] != c {
      if i >= |a| {
        assert (a + b)[i] == b[i - |a|];
      }
    }
  }

  /** A command that spans the whole text. */
  lemma WholeCommand(keep: char -> bool, id: string, temp: string)
    requires |temp| > 0
    requires JS.IndexOf(temp, id) == 0 && JS.IndexOfFrom(temp, "}", 0) == |temp| - 1
    ensures ExtractCommandWith(keep, id, temp) == CommandOf(keep, temp)
  {
    var start := JS.IndexOf(temp, id);
    var end := JS.IndexOfFrom(temp, "}", start);
    assert start == 0 && end == |temp| - 1;
    assert temp[start..end + 1] == temp;
  }

  /** An id without commas, then one segment without commas. */
  lemma SplitSegments(id: string, rest: string)
    requires JS.Avoids(id, ',') && JS.Avoids(rest, ',') && |rest| > 0
    ensures JS.Split(id + "," + rest, ",") == [id, rest]
  {
    JS.RawSplitNoDelimiter(rest, ",");
    JS.SplitCons(id, ",", rest);
  }

  /** The single segment `name=v}` gives the one attribute. */
  lemma SegmentAttribute(keep: char -> bool, id: string, name: string, v: string)
    requires |name| > 0 && (forall i :: 0 <= i < |name| ==> keep(name[i]))
    requires JS.Avoids(name, '=') && JS.Avoids(v, '=')
    requires keep('=') && !keep('}')
    ensures AttributesFrom(keep, [id, name + "=" + v + "}"], 1, map[]) == Success(map[name := Filter(keep, v)])
  {
    FilterSegment(keep, name, v);
    var fv := Filter(keep, v);
    FilterAvoids(keep, v, '=');
    SplitAttribute(name, fv);
  }

  /** As written, a `-` in an attribute value is removed, so
      `delimiter=-` reads as an empty delimiter. */
  lemma AsWrittenDropsDash(id: string)
    requires JS.Avoids(id, '}') && JS.Avoids(id, ',')
    ensures ExtractCommandAsWritten(id, id + "," + DELIMITER + "=" + "-" + "}")
         == Success(Command(id + "," + DELIMITER + "=" + "-" + "}", map[DELIMITER := ""]))
  {
    SingleAttribute(KeepAsWritten, id, DELIMITER, "-");
    assert Filter(KeepAsWritten, "-") == "";
  }

  /** With the intended character set every kept value reads back
      unchanged, `-` included. */
  lemma AttributeValueRoundTrip(id: string, name: string, v: string)
    requires JS.Avoids(id, '}') && JS.Avoids(id, ',')
    requires |name| > 0 && (forall i :: 0 <= i < |name| ==> KeepIntended(name[i]) && name[i] != '=')
    requires forall i :: 0 <= i < |v| ==> KeepIntended(v[i]) && v[i] != '='
    ensures var temp := id + "," + name + "=" + v + "}";
      ExtractCommand(id, temp) == Success(Command(temp, map[name := v]))
  {
    SingleAttribute(KeepIntended, id, name, v);
  }

  // ---------------------------------------------------------------------
  // Source-file placeholders
  // ---------------------------------------------------------------------

  /** The path of a source file: absolute path, file name and parent
      directory (`None` when the path has no parent). */
  datatype SourcePath = SourcePath(absolute: string, name: string, parent: Option<string>)

  /** `${sourcefileAtomicPrefix,delimiter=X}`, with the attribute filter
      `keep`: the command is replaced by the file name up to its last `X`;
      without a delimiter attribute the text is unchanged; a name without
      `X` fails, as `substring(0, -1)` does. */
  function AtomicPrefixWith(keep: char -> bool, temp: string, name: string): (r: Result<string, string>)
    ensures !JS.Contains(temp, PLACEHOLDER_SOURCEFILE_ATOMIC_PREFIX) ==> r == Success(temp)
  {
    if !JS.Contains(temp, PLACEHOLDER_SOURCEFILE_ATOMIC_PREFIX) then Success(temp)
    else
      var command :- ExtractCommandWith(keep, PLACEHOLDER_SOURCEFILE_ATOMIC_PREFIX, temp);
      if DELIMITER !in command.attributes then Success(temp)
      else
        var i := JS.LastIndexOf(name, command.attributes[DELIMITER]);
        if i < 0 then Failure("StringIndexOutOfBoundsException")
        else Success(JS.Replace(temp, command.name, name[..i]))
  }

  /** The atomic prefix as written, with the source's character filter. */
  function AtomicPrefix(temp: string, name: string): (r: Result<string, string>)
    ensures !JS.Contains(temp, PLACEHOLDER_SOURCEFILE_ATOMIC_PREFIX) ==> r == Success(temp)
  {
    AtomicPrefixWith(KeepAsWritten, temp, name)
  }

  /** The atomic prefix with the intended character filter. */
  function AtomicPrefixIntended(temp: string, name: string): (r: Result<string, string>)
    ensures !JS.Contains(temp, PLACEHOLDER_SOURCEFILE_ATOMIC_PREFIX) ==> r == Success(temp)
  {
    AtomicPrefixWith(KeepIntended, temp, name)
  }

  /** A whole-pattern replacement gives just the replacement. */
  lemma ReplaceWhole(s: string, r: string)
    requires |s| > 0
    ensures JS.Replace(s, s, r) == r
  {
    assert s[..|s|] == s;
    assert s[|s|..] == "";
  }

  /** The prefix command with delimiter `d`, alone. */
  function PrefixCommand(d: string): string {
    PLACEHOLDER_SOURCEFILE_ATOMIC_PREFIX + "," + DELIMITER + "=" + d + "}"
  }

  /** For any filter that keeps `=`, the attribute name and every
      character of `d`, and drops `}`: a pattern that is just the prefix
      command becomes the file name cut before its last `d`. */
  lemma AtomicPrefixWithTruncates(keep: char -> bool, name: string, d: string)
    requires keep('=') && !keep('}')
    requires forall i :: 0 <= i < |DELIMITER| ==> keep(DELIMITER[i])
    requires forall i :: 0 <= i < |d| ==> keep(d[i]) && d[i] != '=' && d[i] != ',' && d[i] != '}'
    requires JS.LastIndexOf(name, d) >= 0
    ensures AtomicPrefixWith(keep, PrefixCommand(d), name) == Success(name[..JS.LastIndexOf(name, d)])
  {
    var id := PLACEHOLDER_SOURCEFILE_ATOMIC_PREFIX;
    var temp := PrefixCommand(d);
    SingleAttribute(keep, id, DELIMITER, d);
    assert Filter(keep, d) == d;
    assert JS.Contains(temp, id) by {
      assert temp[0..|id|] == id;
    }
    ReplaceWhole(temp, name[..JS.LastIndexOf(name, d)]);
  }

  /** As written: a delimiter made of kept characters cuts the name
      before its last occurrence. */
  lemma AtomicPrefixTruncates(name: string, d: string)
    requires forall i :: 0 <= i < |d| ==> KeepAsWritten(d[i]) && d[i] != '='
    requires JS.LastIndexOf(name, d) >= 0
    ensures AtomicPrefix(PrefixCommand(d), name) == Success(name[..JS.LastIndexOf(name, d)])
  {
    AtomicPrefixWithTruncates(KeepAsWritten, name, d);
  }

  /** Intended: the same for delimiters of letters, digits and
      `. - _ + #`, `-` included. */
  lemma AtomicPrefixIntendedTruncates(name: string, d: string)
    requires forall i :: 0 <= i < |d| ==> KeepIntended(d[i]) && d[i] != '='
    requires JS.LastIndexOf(name, d) >= 0
    ensures AtomicPrefixIntended(PrefixCommand(d), name) == Success(name[..JS.LastIndexOf(name, d)])
  {
    AtomicPrefixWithTruncates(KeepIntended, name, d);
  }

  /** As written, `delimiter=-` is read as the empty delimiter, whose last
      occurrence is at the end of the name: the whole name is kept. */
  lemma AtomicPrefixDashKeepsName(name: string)
    ensures AtomicPrefix(PrefixCommand("-"), name) == Success(name)
  {
    var id := PLACEHOLDER_SOURCEFILE_ATOMIC_PREFIX;
    var temp := PrefixCommand("-");
    AsWrittenDropsDash(id);
    assert JS.OccursAt(name, "", |name|);
    assert JS.LastIndexOf(name, "") == |name|;
    assert JS.Contains(temp, id) by {
      assert temp[0..|id|] == id;
    }
    assert name[..|name|] == name;
    ReplaceWhole(temp, name);
  }

  /** As written, `/` is kept in an attribute value, so a name without
      `/` fails the atomic prefix. */
  lemma AtomicPrefixSlashFails(name: string)
    requires JS.Avoids(name, '/')
    ensures AtomicPrefix(PrefixCommand("/"), name).Failure?
  {
    var id := PLACEHOLDER_SOURCEFILE_ATOMIC_PREFIX;
    var temp := PrefixCommand("/");
    SingleAttribute(KeepAsWritten, id, DELIMITER, "/");
    assert Filter(KeepAsWritten, "/") == "/";
    assert JS.Contains(temp, id) by {
      assert temp[0..|id|] == id;
    }
    JS.LastIndexOfSingle(name, "/");
  }

  /** A text that starts with `t[0]` but not with `t`, and has no
      other `t[0]`, does not contain `t`. */
  lemma AbsentAfterStart(s: string, t: string)
    requires |s| > 0 && |t| > 0 && !JS.OccursAt(s, t, 0) && JS.Avoids(s[1..], t[0])
    ensures JS.IndexOf(s, t) == -1
  {
    forall j | 0 < j ensures !JS.OccursAt(s, t, j) {
      if j + |t| <= |s| {
        assert s[j..j + |t|][0] == s[j] == s[1..][j - 1];
      }
    }
  }

  /** The source-file part of `apply`, in the source's order: `${sourcefile}`,
      `${sourcefileAtomic}`, the property placeholder (read by reflection,
      given as `property`), the atomic prefix, then `${sourcepath}`. Any
      failure is caught, and the text as it stood before the failing step is
      the result. Without a source file nothing is replaced. */
  function ApplySourceFile(temp: string, src: Option<SourcePath>, property: string -> Result<string, string>): (r: string)
    ensures src.None? ==> r == temp
  {
    if src.None? then temp
    else
      var s := src.value;
      var t1 := JS.Replace(JS.Replace(temp, "${sourcefile}", s.absolute), "${sourcefileAtomic}", s.name);
      var t2 := if JS.Contains(t1, PLACEHOLDER_SOURCEFILE_PROPERTY) then property(t1) else Success(t1);
      if t2.Failure? then t1
      else
        var t3 := AtomicPrefix(t2.value, s.name);
        if t3.Failure? then t2.value
        else if s.parent.None? then t3.value
        else JS.Replace(t3.value, "${sourcepath}", s.parent.value)
  }

  /** Text without any `$` is left alone by the source-file placeholders. */
  lemma ApplyWithoutPlaceholders(temp: string, src: SourcePath, property: string -> Result<string, string>)
    requires JS.Avoids(temp, '$')
    ensures ApplySourceFile(temp, Some(src), property) == temp
  {
    JS.IndexOfNoDelimiter(temp, "${sourcefile}");
    JS.ReplaceAbsent(temp, "${sourcefile}", src.absolute);
    JS.IndexOfNoDelimiter(temp, "${sourcefileAtomic}");
    JS.ReplaceAbsent(temp, "${sourcefileAtomic}", src.name);
    JS.IndexOfNoDelimiter(temp, PLACEHOLDER_SOURCEFILE_PROPERTY);
    JS.IndexOfNoDelimiter(temp, PLACEHOLDER_SOURCEFILE_ATOMIC_PREFIX);
    JS.IndexOfNoDelimiter(temp, "${sourcepath}");
    JS.ReplaceAbsent(temp, "${sourcepath}", if src.parent.Some? then src.parent.value else "");
  }

  /** The prefix command with delimiter `/` holds none of the other
      source-file placeholders. */
  lemma SlashCommandPlaceholders()
    ensures JS.IndexOf(PrefixCommand("/"), "${sourcefile}") == -1
    ensures JS.IndexOf(PrefixCommand("/"), "${sourcefileAtomic}") == -1
    ensures JS.IndexOf(PrefixCommand("/"), PLACEHOLDER_SOURCEFILE_PROPERTY) == -1
  {
    var temp := PrefixCommand("/");
    assert |temp| == 37 && temp[0] == '$';
    assert JS.Avoids(temp[1..], '$');
    assert temp[0..13][12] == 'A';
    AbsentAfterStart(temp, "${sourcefile}");
    assert temp[0..19][18] == 'P';
    AbsentAfterStart(temp, "${sourcefileAtomic}");
    assert temp[0..20][12] == 'A';
    AbsentAfterStart(temp, PLACEHOLDER_SOURCEFILE_PROPERTY);
  }

  /** As written, a pattern that is just `${sourcefileAtomicPrefix,delimiter=/}`
      and a file name without `/`: the prefix step fails, the failure is
      caught, and the pattern comes back unchanged. */
  lemma ApplySourceFileSlashUnchanged(src: SourcePath, property: string -> Result<string, string>)
    requires JS.Avoids(src.name, '/')
    ensures ApplySourceFile(PrefixCommand("/"), Some(src), property) == PrefixCommand("/")
  {
    var temp := PrefixCommand("/");
    SlashCommandPlaceholders();
    JS.ReplaceAbsent(temp, "${sourcefile}", src.absolute);
    JS.ReplaceAbsent(temp, "${sourcefileAtomic}", src.name);
    AtomicPrefixSlashFails(src.name);
  }
}
