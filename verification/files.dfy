/** Files and file groups: a group keeps its files in order and every file
    keeps the groups it was added to, so the two lists mirror each other; a
    base file has parent files, a validity set from the run level, and a
    path chosen from the filename patterns declared for its class.

    Files and groups are referred to by identity (a number); the two
    directions of group membership live in one registry. */
module Files {
  import opened Wrappers
  import JS = JavaStrings
  import FP = FilenamePatterns
  import EC = ExecutionContexts
  import Jobs

  // ---------------------------------------------------------------------
  // Group membership
  // ---------------------------------------------------------------------

  type FileId = nat
  type GroupId = nat

  /** The files of each group (`filesInGroup`) and the groups of each file
      (`fileGroups`). */
  datatype Registry = Registry(groupFiles: map<GroupId, seq<FileId>>, fileGroups: map<FileId, seq<GroupId>>)

  /** `getFilesInGroup()`: a copy of the group's list. */
  function FilesOf(reg: Registry, g: GroupId): seq<FileId> {
    if g in reg.groupFiles then reg.groupFiles[g] else []
  }

  /** `getFileGroups()`. */
  function GroupsOf(reg: Registry, f: FileId): seq<GroupId> {
    if f in reg.fileGroups then reg.fileGroups[f] else []
  }

  /** A file is listed in a group as often as the group is listed in the
      file. */
  ghost predicate Consistent(reg: Registry) {
    forall g: GroupId, f: FileId :: multiset(FilesOf(reg, g))[f] == multiset(GroupsOf(reg, f))[g]
  }

  /** `addFile(f)` (also `add`, `leftShift` and `plus(file)`): the file is
      appended to the group and the group to the file's groups. */
  function AddFile(reg: Registry, g: GroupId, f: FileId): (r: Registry)
    ensures FilesOf(r, g) == FilesOf(reg, g) + [f] && GroupsOf(r, f) == GroupsOf(reg, f) + [g]
    ensures forall h :: h != g ==> FilesOf(r, h) == FilesOf(reg, h)
    ensures forall e :: e != f ==> GroupsOf(r, e) == GroupsOf(reg, e)
  {
    Registry(reg.groupFiles[g := FilesOf(reg, g) + [f]], reg.fileGroups[f := GroupsOf(reg, f) + [g]])
  }

  /** Registration in both directions keeps the registry consistent. */
  lemma AddFileConsistent(reg: Registry, g: GroupId, f: FileId)
    requires Consistent(reg)
    ensures Consistent(AddFile(reg, g, f))
  {
    var r := AddFile(reg, g, f);
    forall h: GroupId, e: FileId
      ensures multiset(FilesOf(r, h))[e] == multiset(GroupsOf(r, e))[h]
    {
      assert multiset(FilesOf(reg, h))[e] == multiset(GroupsOf(reg, e))[h];
      if h == g {
        assert multiset(FilesOf(r, h)) == multiset(FilesOf(reg, h)) + multiset{f};
      }
      if e == f {
        assert multiset(GroupsOf(r, e)) == multiset(GroupsOf(reg, e)) + multiset{g};
      }
    }
  }

  /** `addFiles(files)`: each file in order, as `addFile` does. */
  function AddFiles(reg: Registry, g: GroupId, fs: seq<FileId>): (r: Registry)
    ensures FilesOf(r, g) == FilesOf(reg, g) + fs
    ensures forall h :: h != g ==> FilesOf(r, h) == FilesOf(reg, h)
    decreases |fs|
  {
    if |fs| == 0 then reg
    else
      var r := AddFiles(AddFile(reg, g, fs[0]), g, fs[1..]);
      assert FilesOf(reg, g) + [fs[0]] + fs[1..] == FilesOf(reg, g) + fs;
      r
  }

  /** Adding a list keeps the registry consistent. */
  lemma {:induction false} AddFilesConsistent(reg: Registry, g: GroupId, fs: seq<FileId>)
    requires Consistent(reg)
    ensures Consistent(AddFiles(reg, g, fs))
    decreases |fs|
  {
    if |fs| > 0 {
      AddFileConsistent(reg, g, fs[0]);
      AddFilesConsistent(AddFile(reg, g, fs[0]), g, fs[1..]);
    }
  }

  /** Adding a list gives every file the group once per occurrence of the
      file in the list. */
  lemma {:induction false} AddFilesCount(reg: Registry, g: GroupId, fs: seq<FileId>, f: FileId)
    ensures multiset(GroupsOf(AddFiles(reg, g, fs), f))[g] == multiset(GroupsOf(reg, f))[g] + multiset(fs)[f]
    decreases |fs|
  {
    if |fs| > 0 {
      var r1 := AddFile(reg, g, fs[0]);
      AddFilesCount(r1, g, fs[1..], f);
      assert fs == [fs[0]] + fs[1..];
      if f == fs[0] {
        assert multiset(GroupsOf(r1, f)) == multiset(GroupsOf(reg, f)) + multiset{g};
      }
    }
  }

  /** `new FileGroup(files)`: a new group, empty for a null list. */
  function NewGroup(reg: Registry, g: GroupId, files: Option<seq<FileId>>): (r: Registry)
    requires FilesOf(reg, g) == []
    ensures FilesOf(r, g) == (if files.Some? then files.value else [])
    ensures files.None? ==> r == reg
  {
    if files.Some? then AddFiles(reg, g, files.value) else reg
  }

  /** The loop of `addFiles`: the group is registered with each file of
      `fs` in turn; the groups' lists do not change. */
  function Register(reg: Registry, g: GroupId, fs: seq<FileId>): (r: Registry)
    ensures forall h :: FilesOf(r, h) == FilesOf(reg, h)
    decreases |fs|
  {
    if |fs| == 0 then reg
    else Register(Registry(reg.groupFiles, reg.fileGroups[fs[0] := GroupsOf(reg, fs[0]) + [g]]), g, fs[1..])
  }

  /** Registering a list adds the group once per occurrence of the file in
      the list, and no other group. */
  lemma {:induction false} RegisterCount(reg: Registry, g: GroupId, fs: seq<FileId>, e: FileId, h: GroupId)
    ensures multiset(GroupsOf(Register(reg, g, fs), e))[h]
         == multiset(GroupsOf(reg, e))[h] + (if h == g then multiset(fs)[e] else 0)
    decreases |fs|
  {
    if |fs| > 0 {
      var r1 := Registry(reg.groupFiles, reg.fileGroups[fs[0] := GroupsOf(reg, fs[0]) + [g]]);
      RegisterCount(r1, g, fs[1..], e, h);
      assert fs == [fs[0]] + fs[1..];
      if e == fs[0] {
        assert multiset(GroupsOf(r1, e)) == multiset(GroupsOf(reg, e)) + multiset{g};
      } else {
        assert GroupsOf(r1, e) == GroupsOf(reg, e);
      }
    }
  }

  /** `plus(group)`, which calls `addFiles` with the other group's own list:
      `addAll` copies that list before appending it, and the registration
      loop then walks the other group's list as it is afterwards. For
      another group that is the list that was added; for the group itself
      it is the doubled list, so each file gets the group twice for every
      copy it gained. */
  function PlusGroup(reg: Registry, g: GroupId, other: GroupId): (r: Registry)
    ensures FilesOf(r, g) == FilesOf(reg, g) + FilesOf(reg, other)
    ensures forall h :: h != g ==> FilesOf(r, h) == FilesOf(reg, h)
  {
    var grown := Registry(reg.groupFiles[g := FilesOf(reg, g) + FilesOf(reg, other)], reg.fileGroups);
    Register(grown, g, FilesOf(grown, other))
  }

  /** How often `plus(group)` registers the group with a file: once per
      copy of the file in another group, twice per copy in the group
      itself. */
  lemma PlusGroupCount(reg: Registry, g: GroupId, other: GroupId, e: FileId, h: GroupId)
    ensures multiset(GroupsOf(PlusGroup(reg, g, other), e))[h]
         == multiset(GroupsOf(reg, e))[h] + (if h == g then (if other == g then 2 else 1) * multiset(FilesOf(reg, other))[e] else 0)
  {
    var grown := Registry(reg.groupFiles[g := FilesOf(reg, g) + FilesOf(reg, other)], reg.fileGroups);
    RegisterCount(grown, g, FilesOf(grown, other), e, h);
    assert GroupsOf(grown, e) == GroupsOf(reg, e);
  }

  /** Adding another group keeps the registry consistent. */
  lemma PlusGroupConsistent(reg: Registry, g: GroupId, other: GroupId)
    requires Consistent(reg) && other != g
    ensures Consistent(PlusGroup(reg, g, other))
  {
    var r := PlusGroup(reg, g, other);
    forall h: GroupId, e: FileId
      ensures multiset(FilesOf(r, h))[e] == multiset(GroupsOf(r, e))[h]
    {
      PlusGroupCount(reg, g, other, e, h);
      assert multiset(FilesOf(reg, h))[e] == multiset(GroupsOf(reg, e))[h];
    }
  }

  /** Adding a group to itself breaks consistency: a file listed k > 0
      times is then listed 2k times but carries the group 3k times. */
  lemma PlusSelfInconsistent(reg: Registry, g: GroupId, f: FileId)
    requires Consistent(reg) && f in FilesOf(reg, g)
    ensures multiset(FilesOf(PlusGroup(reg, g, g), g))[f] == 2 * multiset(FilesOf(reg, g))[f]
    ensures multiset(GroupsOf(PlusGroup(reg, g, g), f))[g] == 3 * multiset(FilesOf(reg, g))[f]
    ensures !Consistent(PlusGroup(reg, g, g))
  {
    PlusGroupCount(reg, g, g, f, g);
    assert multiset(FilesOf(reg, g))[f] == multiset(GroupsOf(reg, f))[g];
    assert multiset(FilesOf(reg, g))[f] > 0;
  }

  /** `get(i)` and `getAt(i)`: an index outside the list throws. */
  function Get(reg: Registry, g: GroupId, i: int): (r: Result<FileId, string>)
    ensures r.Success? <==> 0 <= i < |FilesOf(reg, g)|
    ensures r.Success? ==> r.value == FilesOf(reg, g)[i]
  {
    if 0 <= i < |FilesOf(reg, g)| then Success(FilesOf(reg, g)[i]) else Failure("IndexOutOfBoundsException")
  }

  /** `getExecutionContext()`: the first file's context; an empty group
      throws. */
  function GroupContext<Ctx>(reg: Registry, g: GroupId, contextOf: FileId -> Ctx): (r: Result<Ctx, string>)
    ensures r.Failure? <==> |FilesOf(reg, g)| == 0
    ensures r.Success? ==> r.value == contextOf(FilesOf(reg, g)[0])
  {
    if |FilesOf(reg, g)| > 0 then Success(contextOf(FilesOf(reg, g)[0]))
    else Failure("Cannot call getExecutionContext if FileGroup has no files in it.")
  }

  /** `createJobName(group, tool, ...)`: the job name of the group's first
      file; an empty group throws. */
  function GroupJobName(reg: Registry, g: GroupId, timestampOf: FileId -> string, pidOf: FileId -> string,
                        tool: string): (r: Result<string, string>)
    ensures r.Failure? <==> |FilesOf(reg, g)| == 0
    ensures r.Success? ==> r.value == Jobs.JobName(timestampOf(FilesOf(reg, g)[0]), pidOf(FilesOf(reg, g)[0]), tool)
  {
    var f :- Get(reg, g, 0);
    Success(Jobs.JobName(timestampOf(f), pidOf(f), tool))
  }

  /** The files of the given groups, concatenated in group order. */
  function Concat(reg: Registry, gs: seq<GroupId>): seq<FileId>
    decreases |gs|
  {
    if |gs| == 0 then [] else FilesOf(reg, gs[0]) + Concat(reg, gs[1..])
  }

  /** `getNeighbourFiles()`: all files of all the file's groups, in order. */
  function Neighbours(reg: Registry, f: FileId): seq<FileId> {
    Concat(reg, GroupsOf(reg, f))
  }

  lemma {:induction false} ConcatMembers(reg: Registry, gs: seq<GroupId>, x: FileId)
    ensures x in Concat(reg, gs) <==> exists i :: 0 <= i < |gs| && x in FilesOf(reg, gs[i])
    decreases |gs|
  {
    if |gs| > 0 {
      ConcatMembers(reg, gs[1..], x);
      if x in Concat(reg, gs[1..]) {
        var i :| 0 <= i < |gs[1..]| && x in FilesOf(reg, gs[1..][i]);
        assert gs[i + 1] == gs[1..][i];
      }
      if exists i :: 0 <= i < |gs| && x in FilesOf(reg, gs[i]) {
        var i :| 0 <= i < |gs| && x in FilesOf(reg, gs[i]);
        if i > 0 {
          assert gs[1..][i - 1] == gs[i];
        }
      }
    }
  }

  /** A neighbour shares a group with the file; in a consistent registry a
      file that belongs to some group is its own neighbour. */
  lemma NeighboursShareGroup(reg: Registry, f: FileId, x: FileId)
    ensures x in Neighbours(reg, f) <==> exists g :: g in GroupsOf(reg, f) && x in FilesOf(reg, g)
    ensures Consistent(reg) && |GroupsOf(reg, f)| > 0 ==> f in Neighbours(reg, f)
  {
    var gs := GroupsOf(reg, f);
    ConcatMembers(reg, gs, x);
    if exists g :: g in gs && x in FilesOf(reg, g) {
      var g :| g in gs && x in FilesOf(reg, g);
      var i :| 0 <= i < |gs| && gs[i] == g;
    }
    if Consistent(reg) && |gs| > 0 {
      ConcatMembers(reg, gs, f);
      assert multiset(gs)[gs[0]] > 0;
      assert multiset(FilesOf(reg, gs[0]))[f] == multiset(GroupsOf(reg, f))[gs[0]];
      assert f in FilesOf(reg, gs[0]);
    }
  }

  // ---------------------------------------------------------------------
  // Base files
  // ---------------------------------------------------------------------

  /** A base file: its class, file stage, path, parent files, validity and
      the pattern its path came from. */
  datatype BaseFile = BaseFile(
    cls: string,
    stage: string,
    path: Option<string>,
    parents: seq<BaseFile>,
    valid: bool,
    appliedPattern: Option<FP.FilenamePattern>)

  /** The validity a new file gets from its context's level; `check` is
      `checkFileValidity()`. */
  function InitialValidity(level: EC.Level, check: bool): (valid: bool)
  {
    match level
    case QUERY_STATUS => !check
    case RERUN => !check
    case TESTRERUN => !check
    case RUN => true
    case _ => false
  }

  /** A file is valid from the start in a run, is the negated check in a
      status query or rerun, and is invalid at every other level. */
  lemma InitialValidityTable(level: EC.Level, check: bool)
    ensures level == EC.RUN ==> InitialValidity(level, check)
    ensures level in {EC.QUERY_STATUS, EC.RERUN, EC.TESTRERUN} ==> InitialValidity(level, check) == !check
    ensures InitialValidity(level, check) ==> level in {EC.RUN, EC.QUERY_STATUS, EC.RERUN, EC.TESTRERUN}
  {
  }

  /** The parents' first parents, from the file upwards. */
  function FirstParentChain(bf: BaseFile): (r: seq<BaseFile>)
    decreases bf
  {
    if |bf.parents| == 0 then [] else [bf.parents[0]] + FirstParentChain(bf.parents[0])
  }

  /** `findAncestorOfType(cls)`: the loop returns in its first iteration,
      so only the first parent of each generation is looked at. */
  function FindAncestorOfType(bf: BaseFile, cls: string): (r: Option<BaseFile>)
    decreases bf
  {
    if |bf.parents| == 0 then None
    else if bf.parents[0].cls == cls then Some(bf.parents[0])
    else FindAncestorOfType(bf.parents[0], cls)
  }

  /** The ancestor found is the first file of the first-parent chain with
      the class, and there is none exactly when no file of the chain has it. */
  lemma {:induction false} AncestorOnFirstParentChain(bf: BaseFile, name: string)
    ensures FindAncestorOfType(bf, name).None? <==> forall x | x in FirstParentChain(bf) :: x.cls != name
    ensures FindAncestorOfType(bf, name).Some? ==>
      exists k :: 0 <= k < |FirstParentChain(bf)| && FirstParentChain(bf)[k] == FindAncestorOfType(bf, name).value &&
        FirstParentChain(bf)[k].cls == name && forall j :: 0 <= j < k ==> FirstParentChain(bf)[j].cls != name
    decreases bf
  {
    if |bf.parents| > 0 {
      var p := bf.parents[0];
      var cp := FirstParentChain(p);
      AncestorOnFirstParentChain(p, name);
      var c := FirstParentChain(bf);
      assert c == [p] + cp;
      if p.cls != name {
        if FindAncestorOfType(p, name).Some? {
          var k :| 0 <= k < |cp| && cp[k] == FindAncestorOfType(p, name).value && cp[k].cls == name &&
            forall j :: 0 <= j < k ==> cp[j].cls != name;
          assert c[k + 1] == cp[k];
          forall j | 0 <= j < k + 1 ensures c[j].cls != name {
            if j > 0 {
              assert c[j] == cp[j - 1];
            }
          }
        }
      } else {
        assert c[0] == p;
      }
    }
  }

  // ---------------------------------------------------------------------
  // Filename selection
  // ---------------------------------------------------------------------

  /** A path and the pattern it came from, either of which may be null. */
  datatype FilenameResult = FilenameResult(path: Option<string>, pattern: Option<FP.FilenamePattern>)

  const NO_FILENAME := FilenameResult(None, None)

  /** The patterns of a file's class, split by dependency. */
  datatype Available = Available(onMethod: seq<FP.FilenamePattern>, sourcefile: seq<FP.FilenamePattern>,
                                 filestage: seq<FP.FilenamePattern>)

  /** The patterns of class `cls`, in declaration order, sorted into the
      three lists (`loadAVailableFilenamePatterns` without its cache). */
  function AvailablePatterns(all: seq<FP.FilenamePattern>, cls: string): (r: Available)
    ensures forall p :: p in r.onMethod <==> p in all && p.cls == cls && p.kind.OnMethodKind?
    ensures forall p :: p in r.sourcefile <==> p in all && p.cls == cls && p.kind.DerivedFromKind?
    ensures forall p :: p in r.filestage <==> p in all && p.cls == cls && p.kind.FileStageKind?
    decreases |all|
  {
    if |all| == 0 then Available([], [], [])
    else
      var rest := AvailablePatterns(all[1..], cls);
      var p := all[0];
      assert forall q :: q in all <==> q == p || q in all[1..];
      if p.cls != cls then rest
      else if p.kind.OnMethodKind? then rest.(onMethod := [p] + rest.onMethod)
      else if p.kind.DerivedFromKind? then rest.(sourcefile := [p] + rest.sourcefile)
      else if p.kind.FileStageKind? then rest.(filestage := [p] + rest.filestage)
      else rest
  }

  /** The lists for a concatenation are the lists for each part, one
      after the other: declaration order is kept within each kind. */
  lemma {:induction false} AvailablePatternsAppend(a: seq<FP.FilenamePattern>, b: seq<FP.FilenamePattern>, cls: string)
    ensures var ra := AvailablePatterns(a, cls);
      var rb := AvailablePatterns(b, cls);
      var r := AvailablePatterns(a + b, cls);
      r.onMethod == ra.onMethod + rb.onMethod && r.sourcefile == ra.sourcefile + rb.sourcefile &&
      r.filestage == ra.filestage + rb.filestage
    decreases |a|
  {
    if |a| == 0 {
      assert a + b == b;
    } else {
      assert (a + b)[1..] == a[1..] + b;
      AvailablePatternsAppend(a[1..], b, cls);
    }
  }

  /** A frame of the current thread's stack. */
  datatype StackFrame = StackFrame(className: string, methodName: string)

  const EXECUTION_CONTEXT_CLASS := "de.dkfz.roddy.core.ExecutionContext"

  /** Constructor frames and the stack-walking frames themselves are
      skipped. */
  predicate SkippedFrame(s: StackFrame) {
    s.methodName == "<init>" || JS.EndsWith(s.methodName, "getFilename") || JS.EndsWith(s.methodName, "getStackTrace")
  }

  /** The frames searched for a called method, from the innermost: skipped
      frames are left out, and the walk stops at the `execute` method of the
      execution context or of a workflow. `isWorkflow` loads a class and
      tells whether it is a workflow; `None` is a class that cannot be
      loaded, whose frame is dropped as the swallowed exception drops it. */
  function SearchedFrames(stack: seq<StackFrame>, isWorkflow: string -> Option<bool>): (r: seq<StackFrame>)
    ensures forall i :: 0 <= i < |r| ==> r[i] in stack && !SkippedFrame(r[i]) && !(r[i].className == EXECUTION_CONTEXT_CLASS && r[i].methodName == "execute")
    decreases |stack|
  {
    if |stack| == 0 then []
    else
      var s := stack[0];
      var rest := SearchedFrames(stack[1..], isWorkflow);
      if SkippedFrame(s) then rest
      else if s.className == EXECUTION_CONTEXT_CLASS then
        if s.methodName == "execute" then [] else [s] + rest
      else if isWorkflow(s.className).None? then rest
      else if isWorkflow(s.className).value && s.methodName == "execute" then []
      else [s] + rest
  }

  predicate OnMethodMatches(p: FP.FilenamePattern, s: StackFrame, tag: string) {
    p.kind.OnMethodKind? && p.kind.methodName == s.methodName && p.kind.calledClass == s.className && p.selectionTag == tag
  }

  /** The first pattern declared for the frame's method. */
  function PatternForFrame(ps: seq<FP.FilenamePattern>, s: StackFrame, tag: string): (r: Option<FP.FilenamePattern>)
    ensures r.Some? ==> r.value in ps && OnMethodMatches(r.value, s, tag)
    ensures r.None? <==> forall i :: 0 <= i < |ps| ==> !OnMethodMatches(ps[i], s, tag)
    decreases |ps|
  {
    if |ps| == 0 then None
    else if OnMethodMatches(ps[0], s, tag) then Some(ps[0])
    else
      var r := PatternForFrame(ps[1..], s, tag);
      assert forall i :: 1 <= i < |ps| ==> ps[i] == ps[1..][i - 1];
      r
  }

  /** The pattern of the innermost frame that has one (`break traceLoop`). */
  function PatternForFrames(frames: seq<StackFrame>, ps: seq<FP.FilenamePattern>, tag: string): (r: Option<FP.FilenamePattern>)
    ensures r.None? <==> forall k :: 0 <= k < |frames| ==> PatternForFrame(ps, frames[k], tag).None?
    ensures r.Some? ==>
      exists k :: 0 <= k < |frames| && r == PatternForFrame(ps, frames[k], tag) &&
        forall j :: 0 <= j < k ==> PatternForFrame(ps, frames[j], tag).None?
    decreases |frames|
  {
    if |frames| == 0 then None
    else
      var p := PatternForFrame(ps, frames[0], tag);
      if p.Some? then p
      else
        var r := PatternForFrames(frames[1..], ps, tag);
        assert forall k :: 1 <= k < |frames| ==> frames[k] == frames[1..][k - 1];
        r
  }

  /** `findFilenameFromOnMethodPatterns`. `apply` is the pattern applied to
      the files given. */
  function FromOnMethod(bf: BaseFile, av: Available, stack: seq<StackFrame>, isWorkflow: string -> Option<bool>,
                        tag: string, apply: (FP.FilenamePattern, seq<BaseFile>) -> string): (r: FilenameResult)
    ensures |av.onMethod| == 0 ==> r == NO_FILENAME
    ensures r.path.Some? <==> r.pattern.Some?
    ensures r.pattern.Some? ==> r.pattern.value in av.onMethod && r.path == Some(apply(r.pattern.value, [bf]))
  {
    if |av.onMethod| == 0 then NO_FILENAME
    else
      var p := PatternForFrames(SearchedFrames(stack, isWorkflow), av.onMethod, tag);
      if p.None? then NO_FILENAME else FilenameResult(Some(apply(p.value, [bf])), p)
  }

  predicate SourceMatches(p: FP.FilenamePattern, parent: BaseFile, tag: string) {
    p.kind.DerivedFromKind? && parent.cls == p.kind.derivedFromCls && p.selectionTag == tag
  }

  predicate MatchesSomeParent(p: FP.FilenamePattern, parents: seq<BaseFile>, tag: string) {
    exists i :: 0 <= i < |parents| && SourceMatches(p, parents[i], tag)
  }

  /** The files a source-file pattern is applied to: all parents for a
      pattern that accepts file arrays, the first parent otherwise. */
  function SourceInput(p: FP.FilenamePattern, parents: seq<BaseFile>): (r: seq<BaseFile>)
    requires |parents| > 0
    ensures |r| > 0 && r[0] == parents[0]
  {
    if p.acceptsFileArrays then parents else [parents[0]]
  }

  /** `fp.apply(files)` as far as null goes. `temp` is still null when the
      first file is missing or `getSourceFile` throws; every later failure
      is caught with `temp` holding a text, and `apply` stands for that
      text. Only a derived-from pattern applied to a first file without
      parents gives null. */
  function Applied(p: FP.FilenamePattern, files: seq<BaseFile>,
                   apply: (FP.FilenamePattern, seq<BaseFile>) -> string): (r: Option<string>)
    ensures r.None? <==> |files| == 0 || (p.kind.DerivedFromKind? && |files[0].parents| == 0)
    ensures r.Some? ==> r.value == apply(p, files)
  {
    if |files| == 0 then None
    else
      match FP.SourceFile(p, Some(files[0].parents))
      case Failure(_) => None
      case Success(_) => Some(apply(p, files))
  }

  /** On-method, on-tool and file-stage patterns applied to one file never
      give null, whatever the file's parents. */
  lemma AppliedToOneFile(p: FP.FilenamePattern, bf: BaseFile, apply: (FP.FilenamePattern, seq<BaseFile>) -> string)
    ensures !p.kind.DerivedFromKind? ==> Applied(p, [bf], apply) == Some(apply(p, [bf]))
    ensures p.kind.DerivedFromKind? ==> (Applied(p, [bf], apply).None? <==> |bf.parents| == 0)
  {
  }

  /** The reference for the source-file choice: the last pattern, in
      declaration order, that matches some parent. */
  function LastSourcePattern(ps: seq<FP.FilenamePattern>, parents: seq<BaseFile>, tag: string): (r: Option<FP.FilenamePattern>)
    ensures r.None? <==> forall i :: 0 <= i < |ps| ==> !MatchesSomeParent(ps[i], parents, tag)
    ensures r.Some? ==>
      exists k :: 0 <= k < |ps| && ps[k] == r.value && MatchesSomeParent(ps[k], parents, tag) &&
        forall j :: k < j < |ps| ==> !MatchesSomeParent(ps[j], parents, tag)
    decreases |ps|
  {
    if |ps| == 0 then None
    else if MatchesSomeParent(ps[|ps| - 1], parents, tag) then Some(ps[|ps| - 1])
    else
      var r := LastSourcePattern(ps[..|ps| - 1], parents, tag);
      assert forall i :: 0 <= i < |ps| - 1 ==> ps[..|ps| - 1][i] == ps[i];
      r
  }

  /** `findFilenameFromSourcefilePatterns` as a function. A matching
      pattern is derived-from, so applying it fails exactly when the first
      parent has no parents; `new File(null)` then throws a
      `NullPointerException` out of the loops. */
  function FromSourcefile(bf: BaseFile, av: Available, tag: string,
                          apply: (FP.FilenamePattern, seq<BaseFile>) -> string): (r: Result<FilenameResult, string>)
    ensures |av.sourcefile| == 0 || |bf.parents| == 0 ==> r == Success(NO_FILENAME)
    ensures r.Failure? <==>
      |bf.parents| > 0 && |bf.parents[0].parents| == 0 &&
      exists i :: 0 <= i < |av.sourcefile| && MatchesSomeParent(av.sourcefile[i], bf.parents, tag)
    ensures r.Failure? ==> r.error == "NullPointerException"
    ensures r.Success? ==> (r.value.path.Some? <==> r.value.pattern.Some?)
    ensures r.Success? && r.value.pattern.Some? ==>
      r.value.pattern.value in av.sourcefile && MatchesSomeParent(r.value.pattern.value, bf.parents, tag) &&
      r.value.path == Some(apply(r.value.pattern.value, SourceInput(r.value.pattern.value, bf.parents)))
  {
    if |av.sourcefile| == 0 || |bf.parents| == 0 then Success(NO_FILENAME)
    else
      var p := LastSourcePattern(av.sourcefile, bf.parents, tag);
      if p.None? then Success(NO_FILENAME)
      else
        match Applied(p.value, SourceInput(p.value, bf.parents), apply)
        case None => Failure("NullPointerException")
        case Some(name) => Success(FilenameResult(Some(name), p))
  }

  /** The loops of `findFilenameFromSourcefilePatterns` as written: the
      `break` leaves only the loop over the parents, so a later matching
      pattern overwrites an earlier one, and the first application that
      gives null ends both loops with the exception. They agree with the
      last-match reference. */
  method SourcefileLoops(bf: BaseFile, av: Available, tag: string,
                         apply: (FP.FilenamePattern, seq<BaseFile>) -> string) returns (r: Result<FilenameResult, string>)
    ensures r == FromSourcefile(bf, av, tag, apply)
  {
    var filename: Option<string> := None;
    var applied: Option<FP.FilenamePattern> := None;
    if |av.sourcefile| > 0 && |bf.parents| > 0 {
      var i := 0;
      while i < |av.sourcefile|
        invariant 0 <= i <= |av.sourcefile|
        invariant applied == LastSourcePattern(av.sourcefile[..i], bf.parents, tag)
        invariant applied.None? ==> filename.None?
        invariant applied.Some? ==>
          |bf.parents[0].parents| > 0 && filename == Some(apply(applied.value, SourceInput(applied.value, bf.parents)))
      {
        var fp := av.sourcefile[i];
        var j := 0;
        while j < |bf.parents|
          invariant 0 <= j <= |bf.parents|
          invariant forall k :: 0 <= k < j ==> !SourceMatches(fp, bf.parents[k], tag)
        {
          if SourceMatches(fp, bf.parents[j], tag) {
            var name := Applied(fp, SourceInput(fp, bf.parents), apply);
            if name.None? {
              assert MatchesSomeParent(av.sourcefile[i], bf.parents, tag);
              r := Failure("NullPointerException");
              return;
            }
            filename := name;
            applied := Some(fp);
            break;
          }
          j := j + 1;
        }
        assert av.sourcefile[..i + 1][..i] == av.sourcefile[..i];
        assert av.sourcefile[..i + 1][i] == fp;
        i := i + 1;
      }
      assert av.sourcefile[..i] == av.sourcefile;
    }
    r := Success(FilenameResult(filename, applied));
  }

  predicate StageMatches(p: FP.FilenamePattern, stage: string, tag: string) {
    p.kind.FileStageKind? && (p.kind.fileStage == GENERIC_STAGE || p.kind.fileStage == stage) && p.selectionTag == tag
  }

  const GENERIC_STAGE := "GENERIC"

  /** The first file-stage pattern for the file's stage or the generic
      stage (`break` leaves the only loop). */
  function FirstStagePattern(ps: seq<FP.FilenamePattern>, stage: string, tag: string): (r: Option<FP.FilenamePattern>)
    ensures r.None? <==> forall i :: 0 <= i < |ps| ==> !StageMatches(ps[i], stage, tag)
    ensures r.Some? ==>
      exists k :: 0 <= k < |ps| && ps[k] == r.value && StageMatches(ps[k], stage, tag) &&
        forall j :: 0 <= j < k ==> !StageMatches(ps[j], stage, tag)
    decreases |ps|
  {
    if |ps| == 0 then None
    else if StageMatches(ps[0], stage, tag) then Some(ps[0])
    else
      var r := FirstStagePattern(ps[1..], stage, tag);
      assert forall i :: 1 <= i < |ps| ==> ps[i] == ps[1..][i - 1];
      r
  }

  /** `findFilenameFromGenericPatterns`. */
  function FromFilestage(bf: BaseFile, av: Available, tag: string,
                         apply: (FP.FilenamePattern, seq<BaseFile>) -> string): (r: FilenameResult)
    ensures r.path.Some? <==> r.pattern.Some?
    ensures r.pattern.Some? ==> r.pattern.value in av.filestage && r.path == Some(apply(r.pattern.value, [bf]))
  {
    var p := FirstStagePattern(av.filestage, bf.stage, tag);
    if p.None? then NO_FILENAME else FilenameResult(Some(apply(p.value, [bf])), p)
  }

  /** `getFilename(file, tag)`: on-method patterns first, then source-file
      patterns, then file-stage patterns; the first path found wins. Every
      exception raised inside the `try` (a source-file pattern applied to
      null, a missing pattern, an output directory that cannot be created)
      is overridden by the `finally`, which returns the result found so
      far, possibly without a path. */
  function GetFilename(bf: BaseFile, av: Available, stack: seq<StackFrame>, isWorkflow: string -> Option<bool>,
                       tag: string, apply: (FP.FilenamePattern, seq<BaseFile>) -> string): (r: FilenameResult)
  {
    var m := FromOnMethod(bf, av, stack, isWorkflow, tag, apply);
    if m.path.Some? then m
    else
      match FromSourcefile(bf, av, tag, apply)
      case Failure(_) => m
      case Success(s) => if s.path.Some? then s else FromFilestage(bf, av, tag, apply)
  }

  /** Source-file patterns are consulted only when no on-method pattern
      applies, and file-stage patterns only when neither kind applies and
      the source-file step did not throw; a throwing source-file step
      leaves no path. A path is found exactly when one step gives one
      before any throws. */
  lemma FilenamePriority(bf: BaseFile, av: Available, stack: seq<StackFrame>, isWorkflow: string -> Option<bool>,
                         tag: string, apply: (FP.FilenamePattern, seq<BaseFile>) -> string)
    ensures var r := GetFilename(bf, av, stack, isWorkflow, tag, apply);
      var m := FromOnMethod(bf, av, stack, isWorkflow, tag, apply);
      var s := FromSourcefile(bf, av, tag, apply);
      var g := FromFilestage(bf, av, tag, apply);
      (m.path.Some? ==> r == m) &&
      (m.path.None? && s.Failure? ==> r == NO_FILENAME) &&
      (m.path.None? && s.Success? && s.value.path.Some? ==> r == s.value) &&
      (m.path.None? && s.Success? && s.value.path.None? ==> r == g) &&
      (r.path.Some? <==> m.path.Some? || (s.Success? && (s.value.path.Some? || g.path.Some?)))
  {
  }

  /** A file whose first parent has no parents, with a matching source-file
      pattern and a generic file-stage pattern: the source-file step throws
      and the lookup ends without a path, although the file-stage pattern
      alone would give one. */
  lemma ParentlessParentNoFilename(stack: seq<StackFrame>, isWorkflow: string -> Option<bool>,
                                   apply: (FP.FilenamePattern, seq<BaseFile>) -> string)
    ensures var parent := BaseFile("Raw", "RAW", Some("/in/raw.txt"), [], true, None);
      var bf := BaseFile("Derived", "RAW", None, [parent], true, None);
      var derived := FP.FilenamePattern("Derived", "${sourcefile}.out", FP.DEFAULT_SELECTION_TAG, false, -1, FP.DerivedFromKind("Raw"));
      var generic := FP.FilenamePattern("Derived", "/out/derived.txt", FP.DEFAULT_SELECTION_TAG, false, -1, FP.FileStageKind(GENERIC_STAGE));
      var av := Available([], [derived], [generic]);
      FromSourcefile(bf, av, FP.DEFAULT_SELECTION_TAG, apply) == Failure("NullPointerException") &&
      FromFilestage(bf, av, FP.DEFAULT_SELECTION_TAG, apply).path.Some? &&
      GetFilename(bf, av, stack, isWorkflow, FP.DEFAULT_SELECTION_TAG, apply) == NO_FILENAME
  {
    var parent := BaseFile("Raw", "RAW", Some("/in/raw.txt"), [], true, None);
    var bf := BaseFile("Derived", "RAW", None, [parent], true, None);
    var derived := FP.FilenamePattern("Derived", "${sourcefile}.out", FP.DEFAULT_SELECTION_TAG, false, -1, FP.DerivedFromKind("Raw"));
    assert SourceMatches(derived, bf.parents[0], FP.DEFAULT_SELECTION_TAG);
  }

  /** `setParentFiles(parents, reset)`: the parents are replaced; with
      `reset` the path and pattern are chosen again, and a choice without a
      path keeps the old path (the pattern is still replaced). */
  function SetParentFiles(bf: BaseFile, parents: seq<BaseFile>, reset: bool, av: Available, stack: seq<StackFrame>,
                          isWorkflow: string -> Option<bool>, apply: (FP.FilenamePattern, seq<BaseFile>) -> string): (r: BaseFile)
    ensures r.parents == parents && r.cls == bf.cls && r.stage == bf.stage && r.valid == bf.valid
    ensures !reset ==> r == bf.(parents := parents)
    ensures r.path.None? ==> bf.path.None?
  {
    var b := bf.(parents := parents);
    if !reset then b
    else
      var res := GetFilename(b, av, stack, isWorkflow, FP.DEFAULT_SELECTION_TAG, apply);
      b.(path := if res.path.None? then bf.path else res.path, appliedPattern := res.pattern)
  }

  /** With `reset`, a found path replaces the old one; a missing one keeps
      it. */
  lemma ResetKeepsOldPath(bf: BaseFile, parents: seq<BaseFile>, av: Available, stack: seq<StackFrame>,
                          isWorkflow: string -> Option<bool>, apply: (FP.FilenamePattern, seq<BaseFile>) -> string)
    ensures var res := GetFilename(bf.(parents := parents), av, stack, isWorkflow, FP.DEFAULT_SELECTION_TAG, apply);
      var r := SetParentFiles(bf, parents, true, av, stack, isWorkflow, apply);
      r.path == (if res.path.Some? then res.path else bf.path) && r.appliedPattern == res.pattern
  {
  }
}
