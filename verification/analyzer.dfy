/** The analysis of `roddyExecutionStore` directories: collecting the
    `exec_*` execution stores and their `.parameters` files, summarising each
    job's parameters, combining them per execution store and per Roddy store,
    and the exit code of the command line. The file system is a value and the
    configuration summary a function parameter. Every path is held as
    `pathlib` prints it: the command-line arguments are normalised, and
    joining appends one component. */
module Analyzer {
  import opened Wrappers
  import opened ParameterSets
  import PF = ParameterFiles
  import VI = VersionInfo
  import JS = JavaStrings
  import PP = PosixPaths

  const EXEC_PREFIX: string := "exec_"
  const PARAMETERS_SUFFIX: string := ".parameters"
  const VERSIONS_INFO: string := "versionsInfo.txt"

  /** What a directory entry is, as `pathlib` sees it: `is_dir` and
      `is_file` follow links, `is_symlink` does not. */
  datatype Kind = RegularFile | Directory | FileLink | DirectoryLink | BrokenLink | Special {
    predicate IsDir() { this == Directory || this == DirectoryLink }
    predicate IsFile() { this == RegularFile || this == FileLink }
    predicate IsSymlink() { this == FileLink || this == DirectoryLink || this == BrokenLink }
  }

  datatype Entry = Entry(name: string, kind: Kind)

  /** The part of the file system the script reads: the lines of each
      readable file and the entries of each listable directory, keyed by
      the path as `pathlib` prints it. A path missing from a map cannot be
      opened. */
  datatype FileSystem = FileSystem(files: map<Path, seq<string>>, listings: map<Path, seq<Entry>>)

  /** What `iterdir` guarantees: every listed name is a single component. */
  predicate WellFormed(fs: FileSystem) {
    forall d, i :: d in fs.listings && 0 <= i < |fs.listings[d]| ==> PP.IsComponent(fs.listings[d][i].name)
  }

  /** The configuration summary: plugin versions and raw parameters in, the
      condensed configuration out. */
  type Summarizer = (map<string, string>, map<string, string>) -> Value

  /** `str.startswith` and `str.endswith` are the tests `JS` defines. */
  predicate IsExecDir(e: Entry) {
    (e.kind.IsDir() || e.kind.IsSymlink()) && JS.StartsWith(e.name, EXEC_PREFIX)
  }

  predicate IsParameterFile(e: Entry) {
    e.kind.IsFile() && JS.EndsWith(e.name, PARAMETERS_SUFFIX)
  }

  /** `_collect_execution_dirnames` on a listing. */
  function ExecDirNames(entries: seq<Entry>): (names: seq<string>)
    ensures |names| <= |entries|
    ensures forall n :: n in names <==> exists i :: 0 <= i < |entries| && IsExecDir(entries[i]) && entries[i].name == n
  {
    if |entries| == 0 then []
    else
      var rest := ExecDirNames(entries[1..]);
      assert forall i :: 1 <= i < |entries| ==> entries[i] == entries[1..][i - 1];
      (if IsExecDir(entries[0]) then [entries[0].name] else []) + rest
  }

  /** The filter keeps listing order: the names of a listing split in two
      are the names of the first part, then those of the second. */
  lemma {:induction false} ExecDirNamesAppend(a: seq<Entry>, b: seq<Entry>)
    ensures ExecDirNames(a + b) == ExecDirNames(a) + ExecDirNames(b)
    decreases |a|
  {
    if |a| == 0 {
      assert a + b == b;
    } else {
      var head := if IsExecDir(a[0]) then [a[0].name] else [];
      assert (a + b)[0] == a[0] && (a + b)[1..] == a[1..] + b;
      assert ExecDirNames(a + b) == head + ExecDirNames(a[1..] + b);
      assert ExecDirNames(a) == head + ExecDirNames(a[1..]);
      ExecDirNamesAppend(a[1..], b);
    }
  }

  /** A single entry gives its name exactly when it is an `exec_*` directory. */
  lemma ExecDirNamesSingle(e: Entry)
    ensures ExecDirNames([e]) == if IsExecDir(e) then [e.name] else []
  {
    assert [e][1..] == [];
  }

  /** `_collect_parameter_files` on a listing (names relative to the
      execution store). */
  function ParameterFileNames(entries: seq<Entry>): (names: seq<string>)
    ensures |names| <= |entries|
    ensures forall n :: n in names <==> exists i :: 0 <= i < |entries| && IsParameterFile(entries[i]) && entries[i].name == n
  {
    if |entries| == 0 then []
    else
      var rest := ParameterFileNames(entries[1..]);
      assert forall i :: 1 <= i < |entries| ==> entries[i] == entries[1..][i - 1];
      (if IsParameterFile(entries[0]) then [entries[0].name] else []) + rest
  }

  /** The filter keeps listing order. */
  lemma {:induction false} ParameterFileNamesAppend(a: seq<Entry>, b: seq<Entry>)
    ensures ParameterFileNames(a + b) == ParameterFileNames(a) + ParameterFileNames(b)
    decreases |a|
  {
    if |a| == 0 {
      assert a + b == b;
    } else {
      var head := if IsParameterFile(a[0]) then [a[0].name] else [];
      assert (a + b)[0] == a[0] && (a + b)[1..] == a[1..] + b;
      assert ParameterFileNames(a + b) == head + ParameterFileNames(a[1..] + b);
      assert ParameterFileNames(a) == head + ParameterFileNames(a[1..]);
      ParameterFileNamesAppend(a[1..], b);
    }
  }

  /** A single entry gives its name exactly when it is a parameter file. */
  lemma ParameterFileNamesSingle(e: Entry)
    ensures ParameterFileNames([e]) == if IsParameterFile(e) then [e.name] else []
  {
    assert [e][1..] == [];
  }

  function ListDir(fs: FileSystem, dir: Path): (r: Result<seq<Entry>, string>)
    ensures r.Success? <==> dir in fs.listings
    ensures r.Success? ==> r.value == fs.listings[dir]
  {
    if dir in fs.listings then Success(fs.listings[dir]) else Failure(dir)
  }

  function ReadLines(fs: FileSystem, path: Path): (r: Result<seq<string>, string>)
    ensures r.Success? <==> path in fs.files
    ensures r.Success? ==> r.value == fs.files[path]
  {
    if path in fs.files then Success(fs.files[path]) else Failure(path)
  }

  /** An execution store: the Roddy store it lies in, its directory's
      name, the names of its job parameter files, and the parameter sets
      the analysis stores on it (empty until then). */
  datatype ExecutionStore = ExecutionStore(roddyStorePath: Path, subdir: string, parameterFileNames: seq<string>,
                                           parameters: seq<ParameterSet>) {
    function Dir(): Path {
      PP.Child(roddyStorePath, subdir)
    }

    function VersionsInfoFile(): Path {
      PP.Child(Dir(), VERSIONS_INFO)
    }
  }

  /** The paths of an execution store's job parameter files, in the order
      of their names. */
  function ParameterFiles(es: ExecutionStore): (r: seq<Path>)
    ensures |r| == |es.parameterFileNames|
    ensures forall i :: 0 <= i < |r| ==> r[i] == PP.Child(es.Dir(), es.parameterFileNames[i])
  {
    seq(|es.parameterFileNames|, i requires 0 <= i < |es.parameterFileNames| => PP.Child(es.Dir(), es.parameterFileNames[i]))
  }

  /** A Roddy store: its directory, its execution stores, and the parameter
      sets the analysis stores on it (empty until then). */
  datatype RoddyStore = RoddyStore(baseDir: Path, executionStores: seq<ExecutionStore>, parameters: seq<ParameterSet>)

  /** `ExecutionStore.from_path`. */
  function LoadExecutionStore(fs: FileSystem, base: Path, subdir: string): (r: Result<ExecutionStore, string>)
    ensures r.Success? <==> PP.Child(base, subdir) in fs.listings
    ensures r.Success? ==> r.value == ExecutionStore(base, subdir, ParameterFileNames(fs.listings[PP.Child(base, subdir)]), [])
  {
    var entries :- ListDir(fs, PP.Child(base, subdir));
    Success(ExecutionStore(base, subdir, ParameterFileNames(entries), []))
  }

  function LoadExecutionStores(fs: FileSystem, base: Path, names: seq<string>): (r: Result<seq<ExecutionStore>, string>)
    ensures r.Success? <==> forall i :: 0 <= i < |names| ==> PP.Child(base, names[i]) in fs.listings
    ensures r.Success? ==> |r.value| == |names| && forall i :: 0 <= i < |names| ==>
      r.value[i] == ExecutionStore(base, names[i], ParameterFileNames(fs.listings[PP.Child(base, names[i])]), [])
  {
    if |names| == 0 then Success([])
    else
      var first :- LoadExecutionStore(fs, base, names[0]);
      var rest :- LoadExecutionStores(fs, base, names[1..]);
      assert forall i :: 1 <= i < |names| ==> names[i] == names[1..][i - 1];
      Success([first] + rest)
  }

  /** `RoddyStore.from_path`: one execution store per `exec_*` entry, in
      listing order; loading fails exactly when the directory or one of
      its `exec_*` entries cannot be listed. */
  function LoadRoddyStore(fs: FileSystem, base: Path): (r: Result<RoddyStore, string>)
    ensures r.Success? <==> (base in fs.listings &&
      forall n :: n in ExecDirNames(fs.listings[base]) ==> PP.Child(base, n) in fs.listings)
    ensures r.Success? ==> (r.value.baseDir == base && r.value.parameters == [] &&
      |r.value.executionStores| == |ExecDirNames(fs.listings[base])|)
    ensures r.Success? ==> forall i :: 0 <= i < |r.value.executionStores| ==>
      var n := ExecDirNames(fs.listings[base])[i];
      r.value.executionStores[i] == ExecutionStore(base, n, ParameterFileNames(fs.listings[PP.Child(base, n)]), [])
  {
    var entries :- ListDir(fs, base);
    var names := ExecDirNames(entries);
    assert (forall n :: n in names ==> PP.Child(base, n) in fs.listings)
       <==> (forall i :: 0 <= i < |names| ==> PP.Child(base, names[i]) in fs.listings);
    var stores :- LoadExecutionStores(fs, base, names);
    Success(RoddyStore(base, stores, []))
  }

  /** The notice `RoddyStore.from_path` prints for a Roddy store without
      execution stores (on standard output, where the report goes). */
  function EmptyStoreNotice(base: Path): string {
    "No exec_* subdirectories in '" + PP.Name(base) + ". Will be ignored!"
  }

  /** The summarised parameters of one job parameter file. */
  function JobParameterSet(fs: FileSystem, summarize: Summarizer, versions: map<string, string>, file: Path): (r: Result<ParameterSet, string>)
    ensures r.Success? <==> file in fs.files
    ensures r.Success? ==> r.value == ParameterSet([file], summarize(versions, PF.ParameterFileEntries(fs.files[file])))
  {
    var lines :- ReadLines(fs, file);
    Success(ParameterSet([file], summarize(versions, PF.ParameterFileEntries(lines))))
  }

  /** The loop over the parameter files of an execution store. */
  function JobParameters(fs: FileSystem, summarize: Summarizer, versions: map<string, string>, files: seq<Path>): (r: Result<seq<ParameterSet>, string>)
    ensures r.Success? <==> forall i :: 0 <= i < |files| ==> files[i] in fs.files
    ensures r.Success? ==> |r.value| == |files|
    ensures r.Success? ==> forall i :: 0 <= i < |files| ==>
      r.value[i] == ParameterSet([files[i]], summarize(versions, PF.ParameterFileEntries(fs.files[files[i]])))
  {
    if |files| == 0 then Success([])
    else
      var first :- JobParameterSet(fs, summarize, versions, files[0]);
      var rest := JobParameters(fs, summarize, versions, files[1..]);
      JobParametersCons(fs, summarize, versions, files, rest);
      var done :- rest;
      Success([first] + done)
  }

  /** The step of `JobParameters`: the files after the first are read
      exactly when all files but the first are present, and their sets
      follow the first one's. */
  lemma JobParametersCons(fs: FileSystem, summarize: Summarizer, versions: map<string, string>, files: seq<Path>,
                          rest: Result<seq<ParameterSet>, string>)
    requires |files| > 0
    requires rest.Success? <==> forall i :: 0 <= i < |files[1..]| ==> files[1..][i] in fs.files
    requires rest.Success? ==> |rest.value| == |files[1..]| && forall i :: 0 <= i < |files[1..]| ==>
      rest.value[i] == ParameterSet([files[1..][i]], summarize(versions, PF.ParameterFileEntries(fs.files[files[1..][i]])))
    ensures rest.Success? <==> forall i :: 1 <= i < |files| ==> files[i] in fs.files
    ensures rest.Success? ==> |rest.value| == |files| - 1 && forall i :: 1 <= i < |files| ==>
      rest.value[i - 1] == ParameterSet([files[i]], summarize(versions, PF.ParameterFileEntries(fs.files[files[i]])))
  {
    assert forall i :: 1 <= i < |files| ==> files[i] == files[1..][i - 1];
  }

  /** The parameter sets one execution store contributes: the Roddy store's
      base directory with empty parameters when it has no parameter files;
      the execution store itself when all its jobs agree; every variant
      otherwise (the "inconsistent job parameters" warning). */
  function StoreParameters(fs: FileSystem, summarize: Summarizer, base: Path, es: ExecutionStore): Result<seq<ParameterSet>, string> {
    var lines :- ReadLines(fs, es.VersionsInfoFile());
    var versions :- VI.ReadVersionInfo(lines);
    if |ParameterFiles(es)| == 0 then Success([ParameterSet([base], Obj(map[]))])
    else
      var jobs :- JobParameters(fs, summarize, versions, ParameterFiles(es));
      var groups := Grouping(jobs);
      if |groups| > 1 then Success(groups)
      else Success([ParameterSet([es.Dir()], groups[0].parameters)])
  }

  /** The loop of `run` over the execution stores: each store gets the
      parameter sets it contributes stored on it; the first failure ends
      the loop. */
  function AnalyseStores(fs: FileSystem, summarize: Summarizer, base: Path, stores: seq<ExecutionStore>): (r: Result<seq<ExecutionStore>, string>)
    ensures r.Success? <==> forall i :: 0 <= i < |stores| ==> StoreParameters(fs, summarize, base, stores[i]).Success?
    ensures r.Success? ==> |r.value| == |stores| && forall i :: 0 <= i < |stores| ==>
      r.value[i] == stores[i].(parameters := StoreParameters(fs, summarize, base, stores[i]).value)
  {
    Attach(stores, seq(|stores|, i requires 0 <= i < |stores| => StoreParameters(fs, summarize, base, stores[i])))
  }

  /** Storing each result on its store, in order, until one has failed. */
  function Attach(stores: seq<ExecutionStore>, results: seq<Result<seq<ParameterSet>, string>>): (r: Result<seq<ExecutionStore>, string>)
    requires |results| == |stores|
    ensures r.Success? <==> forall i :: 0 <= i < |stores| ==> results[i].Success?
    ensures r.Success? ==> |r.value| == |stores| && forall i :: 0 <= i < |stores| ==>
      r.value[i] == stores[i].(parameters := results[i].value)
  {
    if |stores| == 0 then Success([])
    else
      var first :- results[0];
      var rest := Attach(stores[1..], results[1..]);
      assert forall i :: 1 <= i < |stores| ==> stores[i] == stores[1..][i - 1] && results[i] == results[1..][i - 1];
      var done :- rest;
      var r := [stores[0].(parameters := first)] + done;
      assert forall i :: 1 <= i < |stores| ==> r[i] == done[i - 1];
      Success(r)
  }

  /** `per_exec_store`: the sets stored on the execution stores, in order. */
  function Contributions(stores: seq<ExecutionStore>): seq<ParameterSet> {
    if |stores| == 0 then [] else stores[0].parameters + Contributions(stores[1..])
  }

  /** `ExecutionStoreAnalyzer.run`: the execution stores with their
      contributions stored, and on the Roddy store their grouping, which
      becomes the base directory alone when all agree. */
  function Run(fs: FileSystem, summarize: Summarizer, store: RoddyStore): Result<RoddyStore, string> {
    var stores :- AnalyseStores(fs, summarize, store.baseDir, store.executionStores);
    var groups := Grouping(Contributions(stores));
    Success(store.(executionStores := stores, parameters := Combined(store.baseDir, groups)))
  }

  /** The loop over the directories named on the command line: the notices
      printed so far, and the concatenated sets of the Roddy stores or the
      error that ended the loop. */
  datatype Progress = Progress(notices: seq<string>, result: Result<seq<ParameterSet>, string>)

  /** Loading and analysing each directory named on the command line,
      as `Path(...)` reads it. */
  function AnalyseAll(fs: FileSystem, summarize: Summarizer, dirs: seq<string>): Progress {
    if |dirs| == 0 then Progress([], Success([]))
    else
      var base := PP.Normalize(dirs[0]);
      var loaded := LoadRoddyStore(fs, base);
      if loaded.Failure? then Progress([], Failure(loaded.error))
      else
        var notice := if |loaded.value.executionStores| == 0 then [EmptyStoreNotice(base)] else [];
        var run := Run(fs, summarize, loaded.value);
        if run.Failure? then Progress(notice, Failure(run.error))
        else
          var rest := AnalyseAll(fs, summarize, dirs[1..]);
          Progress(notice + rest.notices,
                   if rest.result.Failure? then rest.result else Success(run.value.parameters + rest.result.value))
  }

  /** The command line's exit status, the notices printed on standard
      output, and the report that follows them (none when it stops early). */
  datatype Outcome = Outcome(code: int, notices: seq<string>, report: Option<seq<ParameterSet>>)

  /** The `__main__` block. `argv[0]` is the script, `argv[1]` the summary
      module (whose summariser is `summarize`), the rest are Roddy stores.
      An error that escapes ends the interpreter with status 1. */
  function Main(fs: FileSystem, summarize: Summarizer, argv: seq<string>): (o: Outcome)
    ensures o.code in {0, 1, 2}
    ensures |argv| < 3 ==> o == Outcome(1, [], None)
    ensures o.code == 1 <==> o.report.None?
    ensures o.report.Some? ==> (o.code == 2 <==> |o.report.value| > 1)
  {
    if |argv| < 3 then Outcome(1, [], None)
    else
      var p := AnalyseAll(fs, summarize, argv[2..]);
      match p.result
      case Failure(_) => Outcome(1, p.notices, None)
      case Success(all) =>
        var combined := Grouping(all);
        if |combined| > 1 then Outcome(2, p.notices, Some(combined)) else Outcome(0, p.notices, Some(combined))
  }

  // ----- properties -----

  /** What an execution store contributes, case by case. When its job
      parameter files all exist, it succeeds exactly when its version file
      reads. */
  lemma StoreParametersSpec(fs: FileSystem, summarize: Summarizer, base: Path, es: ExecutionStore)
    requires es.VersionsInfoFile() in fs.files
    requires forall f :: f in ParameterFiles(es) ==> f in fs.files
    ensures StoreParameters(fs, summarize, base, es).Success?
        <==> VI.ReadVersionInfo(fs.files[es.VersionsInfoFile()]).Success?
    ensures var r := StoreParameters(fs, summarize, base, es);
      r.Success? && |es.parameterFileNames| == 0 ==> r.value == [ParameterSet([base], Obj(map[]))]
    ensures var r := StoreParameters(fs, summarize, base, es);
      r.Success? && |es.parameterFileNames| > 0 ==> |r.value| >= 1 && DistinctParams(r.value)
    ensures var r := StoreParameters(fs, summarize, base, es);
      r.Success? && |r.value| == 1 && |es.parameterFileNames| > 0 ==> r.value[0].contexts == [es.Dir()]
  {
    var files := ParameterFiles(es);
    assert forall i :: 0 <= i < |files| ==> files[i] in fs.files by {
      forall i | 0 <= i < |files| ensures files[i] in fs.files {
        assert files[i] in files;
      }
    }
    var read := VI.ReadVersionInfo(fs.files[es.VersionsInfoFile()]);
    if read.Success? && |es.parameterFileNames| > 0 {
      var jobs := JobParameters(fs, summarize, read.value, files).value;
      GroupingShape(jobs);
    }
  }

  /** An execution store whose jobs all summarise to `v` contributes one set:
      the store's directory with `v`. */
  lemma StoreConsistent(fs: FileSystem, summarize: Summarizer, base: Path, es: ExecutionStore,
                        versions: map<string, string>, v: Value)
    requires es.VersionsInfoFile() in fs.files
    requires |es.parameterFileNames| > 0
    requires forall f :: f in ParameterFiles(es) ==> f in fs.files
    requires forall f :: f in ParameterFiles(es) ==> summarize(versions, PF.ParameterFileEntries(fs.files[f])) == v
    ensures VI.ReadVersionInfo(fs.files[es.VersionsInfoFile()]) == Success(versions) ==>
      StoreParameters(fs, summarize, base, es) == Success([ParameterSet([es.Dir()], v)])
  {
    if VI.ReadVersionInfo(fs.files[es.VersionsInfoFile()]) == Success(versions) {
      StoreParametersSpec(fs, summarize, base, es);
      var files := ParameterFiles(es);
      var jobs := JobParameters(fs, summarize, versions, files).value;
      assert forall i :: 0 <= i < |jobs| ==> jobs[i].parameters == v by {
        forall i | 0 <= i < |jobs| ensures jobs[i].parameters == v {
          assert files[i] in files;
        }
      }
      GroupingSingle(jobs);
      GroupingContents(jobs, v);
      GroupingShape(jobs);
      var g := Grouping(jobs);
      assert g[0].parameters == v by {
        assert jobs[0].parameters == v;
        var j :| 0 <= j < |g| && g[j].parameters == v;
      }
    }
  }

  /** An execution store whose jobs disagree contributes every variant. */
  lemma StoreInconsistent(fs: FileSystem, summarize: Summarizer, base: Path, es: ExecutionStore,
                          versions: map<string, string>, f1: Path, f2: Path)
    requires es.VersionsInfoFile() in fs.files
    requires forall f :: f in ParameterFiles(es) ==> f in fs.files
    requires f1 in ParameterFiles(es) && f2 in ParameterFiles(es)
    ensures (VI.ReadVersionInfo(fs.files[es.VersionsInfoFile()]) == Success(versions)
             && summarize(versions, PF.ParameterFileEntries(fs.files[f1]))
                != summarize(versions, PF.ParameterFileEntries(fs.files[f2]))) ==>
      var jobs := JobParameters(fs, summarize, versions, ParameterFiles(es));
      jobs.Success? && StoreParameters(fs, summarize, base, es) == Success(Grouping(jobs.value))
      && |Grouping(jobs.value)| > 1
  {
    if VI.ReadVersionInfo(fs.files[es.VersionsInfoFile()]) == Success(versions)
       && summarize(versions, PF.ParameterFileEntries(fs.files[f1]))
       != summarize(versions, PF.ParameterFileEntries(fs.files[f2])) {
      var files := ParameterFiles(es);
      assert forall k :: 0 <= k < |files| ==> files[k] in fs.files by {
        forall k | 0 <= k < |files| ensures files[k] in fs.files {
          assert files[k] in files;
        }
      }
      var i :| 0 <= i < |files| && files[i] == f1;
      var j :| 0 <= j < |files| && files[j] == f2;
      var jobs := JobParameters(fs, summarize, versions, files).value;
      assert ReadLines(fs, es.VersionsInfoFile()) == Success(fs.files[es.VersionsInfoFile()]);
      assert jobs[i] == ParameterSet([f1], summarize(versions, PF.ParameterFileEntries(fs.files[f1])));
      assert jobs[j] == ParameterSet([f2], summarize(versions, PF.ParameterFileEntries(fs.files[f2])));
      GroupingSingle(jobs);
      GroupingShape(jobs);
      if jobs[i].parameters == jobs[0].parameters {
        assert jobs[j].parameters != jobs[0].parameters;
      }
      assert |Grouping(jobs)| > 1;
      assert StoreParameters(fs, summarize, base, es) == Success(Grouping(jobs));
    }
  }

  /** A successful store had its version file read and all of its job
      parameter files present. */
  lemma StoreParametersSucceeds(fs: FileSystem, summarize: Summarizer, base: Path, es: ExecutionStore)
    ensures StoreParameters(fs, summarize, base, es).Success? ==>
      es.VersionsInfoFile() in fs.files && VI.ReadVersionInfo(fs.files[es.VersionsInfoFile()]).Success?
      && forall f :: f in ParameterFiles(es) ==> f in fs.files
  {
  }

  /** `run` stores on each execution store what it contributes and on the
      Roddy store their combination; it fails exactly when one execution
      store fails. The combination is the base directory alone when every
      set agrees, otherwise distinct variants, and empty exactly when there
      are no execution stores. */
  lemma RunSpec(fs: FileSystem, summarize: Summarizer, store: RoddyStore)
    ensures var r := Run(fs, summarize, store);
      r.Success? <==> forall i :: 0 <= i < |store.executionStores| ==>
        StoreParameters(fs, summarize, store.baseDir, store.executionStores[i]).Success?
    ensures var r := Run(fs, summarize, store);
      r.Success? ==> (r.value.baseDir == store.baseDir && |r.value.executionStores| == |store.executionStores| &&
        forall i :: 0 <= i < |store.executionStores| ==>
          r.value.executionStores[i] == store.executionStores[i].(
            parameters := StoreParameters(fs, summarize, store.baseDir, store.executionStores[i]).value))
    ensures var r := Run(fs, summarize, store);
      r.Success? && |r.value.parameters| == 1 ==> r.value.parameters[0].contexts == [store.baseDir]
    ensures var r := Run(fs, summarize, store);
      r.Success? ==> (DistinctParams(r.value.parameters) &&
        (|r.value.parameters| == 0 <==> |store.executionStores| == 0))
  {
    var r := AnalyseStores(fs, summarize, store.baseDir, store.executionStores);
    if r.Success? {
      var per := Contributions(r.value);
      GroupingShape(per);
      forall i | 0 <= i < |r.value| ensures |r.value[i].parameters| > 0 {
        var es := store.executionStores[i];
        StoreParametersSucceeds(fs, summarize, store.baseDir, es);
        StoreParametersSpec(fs, summarize, store.baseDir, es);
      }
      ContributionsEmpty(r.value);
    }
  }

  /** Stores that each hold a set contribute nothing exactly when there are
      none. */
  lemma ContributionsEmpty(stores: seq<ExecutionStore>)
    requires forall i :: 0 <= i < |stores| ==> |stores[i].parameters| > 0
    ensures |Contributions(stores)| == 0 <==> |stores| == 0
  {
    if |stores| > 0 {
      assert |Contributions(stores)| >= |stores[0].parameters|;
    }
  }

  /** The combination `run` stores: the groups, or the base directory
      alone with the one group's parameters. */
  function Combined(base: Path, groups: seq<ParameterSet>): seq<ParameterSet> {
    if |groups| == 1 then [ParameterSet([base], groups[0].parameters)] else groups
  }

  /** Combining keeps every group's parameters and adds none. */
  lemma CombinedParameters(base: Path, groups: seq<ParameterSet>, v: Value)
    ensures (exists j :: 0 <= j < |Combined(base, groups)| && Combined(base, groups)[j].parameters == v)
      <==> (exists j :: 0 <= j < |groups| && groups[j].parameters == v)
  {
    if |groups| == 1 {
      var c := Combined(base, groups);
      assert |c| == 1 && c[0].parameters == groups[0].parameters;
      if exists j :: 0 <= j < |c| && c[j].parameters == v {
        var j :| 0 <= j < |c| && c[j].parameters == v;
        assert j == 0 && groups[0].parameters == v;
      }
      if exists j :: 0 <= j < |groups| && groups[j].parameters == v {
        var j :| 0 <= j < |groups| && groups[j].parameters == v;
        assert j == 0 && c[0].parameters == v;
      }
    } else {
      assert Combined(base, groups) == groups;
    }
  }

  /** Combining adds no context but the base directory. */
  lemma CombinedContexts(base: Path, groups: seq<ParameterSet>)
    ensures forall p :: p in Flatten(Combined(base, groups)) ==> p == base || p in Flatten(groups)
  {
    if |groups| == 1 {
      assert Flatten(Combined(base, groups)) == [base];
    }
  }

  /** The Roddy store's sets carry exactly the parameters its execution
      stores contribute. */
  lemma RunParameters(fs: FileSystem, summarize: Summarizer, store: RoddyStore, v: Value)
    requires Run(fs, summarize, store).Success?
    ensures var r := Run(fs, summarize, store).value;
      (exists j :: 0 <= j < |r.parameters| && r.parameters[j].parameters == v)
      <==> (exists j :: 0 <= j < |Contributions(r.executionStores)| && Contributions(r.executionStores)[j].parameters == v)
  {
    var r := Run(fs, summarize, store).value;
    RunUnfold(fs, summarize, store);
    var per := Contributions(r.executionStores);
    CombinedParameters(store.baseDir, Grouping(per), v);
    GroupingContents(per, v);
  }

  /** What a successful `run` stores on the Roddy store. */
  lemma RunUnfold(fs: FileSystem, summarize: Summarizer, store: RoddyStore)
    requires Run(fs, summarize, store).Success?
    ensures var r := Run(fs, summarize, store).value;
      r.parameters == Combined(store.baseDir, Grouping(Contributions(r.executionStores)))
  {
  }

  /** A directory without `exec_*` entries puts its notice on standard
      output ahead of the report, and reports nothing. */
  lemma EmptyStoreNoticed(fs: FileSystem, summarize: Summarizer, script: string, summary: string, dir: string)
    requires PP.Normalize(dir) in fs.listings && ExecDirNames(fs.listings[PP.Normalize(dir)]) == []
    ensures Main(fs, summarize, [script, summary, dir]) == Outcome(0, [EmptyStoreNotice(PP.Normalize(dir))], Some([]))
  {
    var argv := [script, summary, dir];
    assert argv[2..] == [dir] && argv[2..][1..] == [];
    EmptyDirAnalysed(fs, summarize, dir);
    assert Grouping([]) == [];
  }

  /** The loop over a single directory without `exec_*` entries. */
  lemma EmptyDirAnalysed(fs: FileSystem, summarize: Summarizer, dir: string)
    requires PP.Normalize(dir) in fs.listings && ExecDirNames(fs.listings[PP.Normalize(dir)]) == []
    ensures AnalyseAll(fs, summarize, [dir]) == Progress([EmptyStoreNotice(PP.Normalize(dir))], Success([]))
  {
    var base := PP.Normalize(dir);
    var loaded := LoadRoddyStore(fs, base);
    assert loaded.Success?;
    var store := loaded.value;
    assert |store.executionStores| == 0 && store.parameters == [];
    EmptyStoreRun(fs, summarize, store);
    var rest := AnalyseAll(fs, summarize, []);
    assert rest == Progress([], Success([]));
    assert [dir][0] == dir && [dir][1..] == [];
    var notice := [EmptyStoreNotice(base)];
    assert AnalyseAll(fs, summarize, [dir])
        == Progress(notice + rest.notices, Success(store.parameters + rest.result.value));
    assert notice + rest.notices == notice && store.parameters + rest.result.value == [];
  }

  /** A Roddy store without execution stores is analysed to nothing. */
  lemma EmptyStoreRun(fs: FileSystem, summarize: Summarizer, store: RoddyStore)
    requires store.executionStores == [] && store.parameters == []
    ensures Run(fs, summarize, store) == Success(store)
  {
    assert AnalyseStores(fs, summarize, store.baseDir, []) == Success([]);
    assert Contributions([]) == [];
    assert Grouping([]) == [];
    assert Combined(store.baseDir, []) == [];
  }

  /** Every context is a path as `pathlib` prints it. */
  predicate NormalContexts(xs: seq<ParameterSet>) {
    forall p :: p in Flatten(xs) ==> PP.Normal(p)
  }

  /** An execution store as loaded: in its Roddy store, with component names. */
  predicate LoadedIn(es: ExecutionStore, base: Path) {
    es.roddyStorePath == base && PP.IsComponent(es.subdir) && PP.AllComponents(es.parameterFileNames)
  }

  /** Loading from a well-formed file system names every store by
      components. */
  lemma LoadedStores(fs: FileSystem, base: Path)
    requires WellFormed(fs) && LoadRoddyStore(fs, base).Success?
    ensures forall i :: 0 <= i < |LoadRoddyStore(fs, base).value.executionStores| ==>
      LoadedIn(LoadRoddyStore(fs, base).value.executionStores[i], base)
  {
    var names := ExecDirNames(fs.listings[base]);
    var stores := LoadRoddyStore(fs, base).value.executionStores;
    forall i | 0 <= i < |stores| ensures LoadedIn(stores[i], base) {
      assert names[i] in names;
      var fnames := stores[i].parameterFileNames;
      var listing := fs.listings[PP.Child(base, names[i])];
      forall k | 0 <= k < |fnames| ensures PP.IsComponent(fnames[k]) {
        assert fnames[k] in fnames;
      }
    }
  }

  /** The job sets' contexts are the parameter files, in order. */
  lemma {:induction false} JobContexts(fs: FileSystem, summarize: Summarizer, versions: map<string, string>, files: seq<Path>)
    requires JobParameters(fs, summarize, versions, files).Success?
    ensures Flatten(JobParameters(fs, summarize, versions, files).value) == files
    decreases |files|
  {
    if |files| > 0 {
      JobContexts(fs, summarize, versions, files[1..]);
      var r := JobParameters(fs, summarize, versions, files).value;
      assert r[1..] == JobParameters(fs, summarize, versions, files[1..]).value;
    }
  }

  /** The job files' groups of an execution store have printed contexts
      when the files' paths are printed. */
  lemma JobGroupsContexts(fs: FileSystem, summarize: Summarizer, versions: map<string, string>, files: seq<Path>)
    requires forall i :: 0 <= i < |files| ==> PP.Normal(files[i])
    requires JobParameters(fs, summarize, versions, files).Success?
    ensures NormalContexts(Grouping(JobParameters(fs, summarize, versions, files).value))
  {
    var jobs := JobParameters(fs, summarize, versions, files).value;
    JobContexts(fs, summarize, versions, files);
    forall p | p in Flatten(Grouping(jobs)) ensures PP.Normal(p) {
      GroupingKeepsContexts(jobs, p);
    }
  }

  /** The parameter files of an execution store loaded in a printed Roddy
      store have printed paths, and so has its directory. */
  lemma StorePathsNormal(base: Path, es: ExecutionStore)
    requires PP.Normal(base) && LoadedIn(es, base)
    ensures PP.Normal(es.Dir())
    ensures forall i :: 0 <= i < |ParameterFiles(es)| ==> PP.Normal(ParameterFiles(es)[i])
  {
    PP.ChildSpec(base, es.subdir);
    forall i | 0 <= i < |ParameterFiles(es)| ensures PP.Normal(ParameterFiles(es)[i]) {
      PP.ChildSpec(es.Dir(), es.parameterFileNames[i]);
    }
  }

  /** What a successful analysis of an execution store is made of. */
  lemma StoreParametersUnfold(fs: FileSystem, summarize: Summarizer, base: Path, es: ExecutionStore)
    requires StoreParameters(fs, summarize, base, es).Success?
    ensures es.VersionsInfoFile() in fs.files && VI.ReadVersionInfo(fs.files[es.VersionsInfoFile()]).Success?
    ensures var versions := VI.ReadVersionInfo(fs.files[es.VersionsInfoFile()]).value;
      var r := StoreParameters(fs, summarize, base, es).value;
      if |ParameterFiles(es)| == 0 then r == [ParameterSet([base], Obj(map[]))]
      else
        JobParameters(fs, summarize, versions, ParameterFiles(es)).Success? &&
        var groups := Grouping(JobParameters(fs, summarize, versions, ParameterFiles(es)).value);
        r == if |groups| > 1 then groups else [ParameterSet([es.Dir()], groups[0].parameters)]
  {
  }

  /** A store's groups, or its directory alone, have printed contexts. */
  lemma CollapsedContexts(dir: Path, groups: seq<ParameterSet>)
    requires |groups| > 0 && PP.Normal(dir) && NormalContexts(groups)
    ensures NormalContexts(if |groups| > 1 then groups else [ParameterSet([dir], groups[0].parameters)])
  {
    assert Flatten([ParameterSet([dir], groups[0].parameters)]) == [dir];
  }

  /** An execution store loaded in a printed Roddy store contributes
      printed contexts only. */
  lemma StoreContexts(fs: FileSystem, summarize: Summarizer, base: Path, es: ExecutionStore)
    requires PP.Normal(base) && LoadedIn(es, base)
    requires StoreParameters(fs, summarize, base, es).Success?
    ensures NormalContexts(StoreParameters(fs, summarize, base, es).value)
  {
    if |ParameterFiles(es)| == 0 {
      StoreContextsWithoutJobs(fs, summarize, base, es);
    } else {
      StoreContextsWithJobs(fs, summarize, base, es);
    }
  }

  lemma StoreContextsWithoutJobs(fs: FileSystem, summarize: Summarizer, base: Path, es: ExecutionStore)
    requires PP.Normal(base) && |ParameterFiles(es)| == 0
    requires StoreParameters(fs, summarize, base, es).Success?
    ensures NormalContexts(StoreParameters(fs, summarize, base, es).value)
  {
    StoreParametersUnfold(fs, summarize, base, es);
    assert Flatten([ParameterSet([base], Obj(map[]))]) == [base];
  }

  lemma StoreContextsWithJobs(fs: FileSystem, summarize: Summarizer, base: Path, es: ExecutionStore)
    requires PP.Normal(base) && LoadedIn(es, base) && |ParameterFiles(es)| > 0
    requires StoreParameters(fs, summarize, base, es).Success?
    ensures NormalContexts(StoreParameters(fs, summarize, base, es).value)
  {
    StorePathsNormal(base, es);
    StoreParametersUnfold(fs, summarize, base, es);
    var files := ParameterFiles(es);
    var versions := VI.ReadVersionInfo(fs.files[es.VersionsInfoFile()]).value;
    var jobs := JobParameters(fs, summarize, versions, files).value;
    JobGroupsContexts(fs, summarize, versions, files);
    GroupingShape(jobs);
    CollapsedContexts(es.Dir(), Grouping(jobs));
  }

  /** Concatenated stored sets with printed contexts have printed contexts. */
  lemma {:induction false} ContributionsContexts(stores: seq<ExecutionStore>)
    requires forall i :: 0 <= i < |stores| ==> NormalContexts(stores[i].parameters)
    ensures NormalContexts(Contributions(stores))
    decreases |stores|
  {
    if |stores| > 0 {
      ContributionsContexts(stores[1..]);
      FlattenConcat(stores[0].parameters, Contributions(stores[1..]));
    }
  }

  /** A Roddy store at a printed path, loaded from a well-formed file
      system, reports printed contexts only. */
  lemma RunContexts(fs: FileSystem, summarize: Summarizer, base: Path)
    requires WellFormed(fs) && PP.Normal(base) && LoadRoddyStore(fs, base).Success?
    requires Run(fs, summarize, LoadRoddyStore(fs, base).value).Success?
    ensures NormalContexts(Run(fs, summarize, LoadRoddyStore(fs, base).value).value.parameters)
  {
    var store := LoadRoddyStore(fs, base).value;
    LoadedStores(fs, base);
    RunSpec(fs, summarize, store);
    var stores := Run(fs, summarize, store).value.executionStores;
    forall i | 0 <= i < |stores| ensures NormalContexts(stores[i].parameters) {
      StoreContexts(fs, summarize, base, store.executionStores[i]);
    }
    ContributionsContexts(stores);
    var per := Contributions(stores);
    RunUnfold(fs, summarize, store);
    CombinedContexts(base, Grouping(per));
    forall p | p in Flatten(Grouping(per)) ensures PP.Normal(p) {
      GroupingKeepsContexts(per, p);
    }
  }

  /** The sets of all command-line directories have printed contexts. */
  lemma {:induction false} AnalyseAllContexts(fs: FileSystem, summarize: Summarizer, dirs: seq<string>)
    requires WellFormed(fs)
    ensures AnalyseAll(fs, summarize, dirs).result.Success? ==> NormalContexts(AnalyseAll(fs, summarize, dirs).result.value)
    decreases |dirs|
  {
    if |dirs| > 0 && AnalyseAll(fs, summarize, dirs).result.Success? {
      var base := PP.Normalize(dirs[0]);
      PP.NormalizeNormal(dirs[0]);
      var store := LoadRoddyStore(fs, base).value;
      RunContexts(fs, summarize, base);
      AnalyseAllContexts(fs, summarize, dirs[1..]);
      FlattenConcat(Run(fs, summarize, store).value.parameters, AnalyseAll(fs, summarize, dirs[1..]).result.value);
    }
  }

  /** Every context in the report is a path as `pathlib` prints it: `store/`
      is reported as `store`, `.` contributes `exec_1` rather than `./exec_1`. */
  lemma MainContextsNormal(fs: FileSystem, summarize: Summarizer, argv: seq<string>)
    requires WellFormed(fs)
    ensures Main(fs, summarize, argv).report.Some? ==> NormalContexts(Main(fs, summarize, argv).report.value)
  {
    if |argv| >= 3 && AnalyseAll(fs, summarize, argv[2..]).result.Success? {
      var all := AnalyseAll(fs, summarize, argv[2..]).result.value;
      AnalyseAllContexts(fs, summarize, argv[2..]);
      forall p | p in Flatten(Grouping(all)) ensures PP.Normal(p) {
        GroupingKeepsContexts(all, p);
      }
    }
  }

  /** The exit status is 2 exactly when two of the reported sets differ in
      their parameters, and 0 when they all agree. */
  lemma MainExitCode(fs: FileSystem, summarize: Summarizer, argv: seq<string>)
    requires |argv| >= 3 && AnalyseAll(fs, summarize, argv[2..]).result.Success?
    ensures var all := AnalyseAll(fs, summarize, argv[2..]).result.value;
      Main(fs, summarize, argv).code == 2
      <==> exists i, j :: 0 <= i < |all| && 0 <= j < |all| && all[i].parameters != all[j].parameters
    ensures var all := AnalyseAll(fs, summarize, argv[2..]).result.value;
      Main(fs, summarize, argv).report == Some(Grouping(all))
  {
    var all := AnalyseAll(fs, summarize, argv[2..]).result.value;
    GroupingSingle(all);
    GroupingShape(all);
    if exists i, j :: 0 <= i < |all| && 0 <= j < |all| && all[i].parameters != all[j].parameters {
      var i, j :| 0 <= i < |all| && 0 <= j < |all| && all[i].parameters != all[j].parameters;
      assert all[i].parameters != all[0].parameters || all[j].parameters != all[0].parameters;
    }
  }
}
