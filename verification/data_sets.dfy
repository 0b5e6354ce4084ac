/** Datasets: a dataset (a PID or a cohort) belongs to a project, knows
    the analyses it takes part in, and keeps per analysis one dummy
    processing record, one planned-or-running record and a list of
    finished records sorted by execution path, newest first.

    Analyses and processing records are compared structurally; the maps
    are immutable values, and a mutator returns the changed dataset. */
module DataSets {
  import opened Wrappers
  import C = Configurations
  import CV = ConfigValues
  import LM = LinkedMaps
  import JS = JavaStrings

  datatype Analysis = Analysis(name: string, project: string)

  /** A processing record of one run of an analysis on the dataset. The
      execution directory's path orders the records: its name carries the
      run's time stamp. */
  datatype ProcessingInfo = ProcessingInfo(analysis: Analysis, execPath: string, runID: string)

  datatype DataSet = DataSet(
    id: string,
    outputBaseFolder: string,
    project: string,
    analyses: map<string, Analysis>,
    dummies: map<Analysis, ProcessingInfo>,
    plannedOrRunning: map<Analysis, ProcessingInfo>,
    processing: map<Analysis, seq<ProcessingInfo>>)

  // ---------------------------------------------------------------------
  // Path order
  // ---------------------------------------------------------------------

  /** `String.compareTo(a, b) < 0` (and so `File.compareTo` on a Unix
      file system): the first differing character decides, by its place in
      UTF-16 unit order, and a proper prefix comes first. */
  predicate Less(a: string, b: string)
    decreases |a|
  {
    if |a| == 0 then |b| > 0
    else if |b| == 0 then false
    else if a[0] != b[0] then JS.UnitRank(a[0]) < JS.UnitRank(b[0])
    else Less(a[1..], b[1..])
  }

  /** The order is `compareTo` on the strings' UTF-16 units. */
  lemma {:induction false} LessIsCompareTo(a: string, b: string)
    ensures Less(a, b) <==> JS.UnitsLess(JS.Utf16(a), JS.Utf16(b))
    decreases |a|
  {
    if |a| > 0 && |b| > 0 {
      var ta, tb := JS.Utf16(a[1..]), JS.Utf16(b[1..]);
      if a[0] != b[0] {
        JS.UnitsOfDistinct(a[0], b[0], ta, tb);
      } else {
        JS.UnitsLessCommonPrefix(JS.Units(a[0]), ta, tb);
        LessIsCompareTo(a[1..], b[1..]);
      }
    }
  }

  /** A private-use character (one unit, U+E000) comes after a
      supplementary one (the surrogates D800 DC00), although its code point
      is smaller. */
  lemma LessExample()
    ensures Less("\U{10000}", "\U{E000}") && !Less("\U{E000}", "\U{10000}")
    ensures Less("exec_1", "exec_2") && Less("exec_1", "exec_10")
  {
    assert "exec_1"[1..] == "xec_1" && "exec_2"[1..] == "xec_2" && "exec_10"[1..] == "xec_10";
  }

  lemma {:induction false} LessIrreflexive(a: string)
    ensures !Less(a, a)
    decreases |a|
  {
    if |a| > 0 {
      LessIrreflexive(a[1..]);
    }
  }

  lemma {:induction false} LessAsymmetric(a: string, b: string)
    ensures Less(a, b) ==> !Less(b, a)
    decreases |a|
  {
    if |a| > 0 && |b| > 0 && a[0] == b[0] {
      LessAsymmetric(a[1..], b[1..]);
    }
  }

  /** Two different paths are always ordered one way or the other. */
  lemma {:induction false} LessTotal(a: string, b: string)
    ensures a == b || Less(a, b) || Less(b, a)
    decreases |a|
  {
    if |a| > 0 && |b| > 0 && a[0] == b[0] {
      LessTotal(a[1..], b[1..]);
      if a[1..] == b[1..] {
        assert a == [a[0]] + a[1..] && b == [b[0]] + b[1..];
      }
    }
  }

  lemma {:induction false} LessTransitive(a: string, b: string, c: string)
    requires Less(a, b) && Less(b, c)
    ensures Less(a, c)
    decreases |a|
  {
    if |a| > 0 && a[0] == b[0] && b[0] == c[0] {
      LessTransitive(a[1..], b[1..], c[1..]);
    }
  }

  /** `b` is not before `a`: `b.compareTo(a) <= 0` fails only for `Less(a, b)`. */
  lemma AtMostThenLess(a: string, b: string, c: string)
    requires !Less(a, b) && Less(a, c)
    ensures Less(b, c)
  {
    LessTotal(a, b);
    if a != b {
      LessTransitive(b, a, c);
    }
  }

  /** Sorted by execution path, newest (greatest) first. */
  predicate SortedDescending(s: seq<ProcessingInfo>) {
    forall i, j :: 0 <= i < j < |s| ==> !Less(s[i].execPath, s[j].execPath)
  }

  /** The index of the first record whose path is strictly smaller than `p`. */
  function FirstBelow(s: seq<ProcessingInfo>, p: string): (k: nat)
    ensures k <= |s|
    ensures forall i :: 0 <= i < k ==> !Less(s[i].execPath, p)
    ensures k < |s| ==> Less(s[k].execPath, p)
    decreases |s|
  {
    if |s| == 0 || Less(s[0].execPath, p) then 0 else 1 + FirstBelow(s[1..], p)
  }

  /** Appending `pi` and sorting stably by descending path: `pi` goes after
      every record with a path at least as great, before the rest. */
  function Insert(s: seq<ProcessingInfo>, pi: ProcessingInfo): seq<ProcessingInfo> {
    var k := FirstBelow(s, pi.execPath);
    s[..k] + [pi] + s[k..]
  }

  /** Inserting into a sorted list keeps it sorted, puts `pi` at a position
      where everything before it is at least as great and everything after
      it is strictly smaller, and keeps the old records in their order. */
  lemma InsertSpec(s: seq<ProcessingInfo>, pi: ProcessingInfo)
    requires SortedDescending(s)
    ensures var r := Insert(s, pi); var k := FirstBelow(s, pi.execPath);
      SortedDescending(r) && |r| == |s| + 1 && r[k] == pi && r[..k] + r[k + 1..] == s &&
      (forall i :: 0 <= i < k ==> !Less(r[i].execPath, pi.execPath)) &&
      (forall i :: k < i < |r| ==> Less(r[i].execPath, pi.execPath)) &&
      multiset(r) == multiset(s) + multiset{pi}
  {
    InsertShape(s, pi);
    InsertAfter(s, pi);
    InsertSorted(s, pi);
  }

  lemma InsertShape(s: seq<ProcessingInfo>, pi: ProcessingInfo)
    ensures var r := Insert(s, pi); var k := FirstBelow(s, pi.execPath);
      |r| == |s| + 1 && r[k] == pi && r[..k] + r[k + 1..] == s &&
      (forall i :: 0 <= i < k ==> r[i] == s[i]) && (forall i :: k < i < |r| ==> r[i] == s[i - 1]) &&
      multiset(r) == multiset(s) + multiset{pi}
  {
    var k := FirstBelow(s, pi.execPath);
    var a, b := s[..k], s[k..];
    var r := a + [pi] + b;
    assert r == Insert(s, pi);
    assert r[..k] == a && r[k + 1..] == b;
    assert a + b == s;
    assert r[..k] + r[k + 1..] == s;
    assert forall i :: 0 <= i < k ==> r[i] == s[i];
    assert forall i :: k < i < |r| ==> r[i] == s[i - 1];
    SplicedMultiset(a, pi, b);
  }

  lemma SplicedMultiset<T>(a: seq<T>, x: T, b: seq<T>)
    ensures multiset(a + [x] + b) == multiset(a + b) + multiset{x}
  {
    assert multiset(a + [x] + b) == multiset(a) + multiset{x} + multiset(b);
    assert multiset(a + b) == multiset(a) + multiset(b);
  }

  lemma InsertAfter(s: seq<ProcessingInfo>, pi: ProcessingInfo)
    requires SortedDescending(s)
    ensures var r := Insert(s, pi); var k := FirstBelow(s, pi.execPath);
      forall i :: k < i < |r| ==> Less(r[i].execPath, pi.execPath)
  {
    var k := FirstBelow(s, pi.execPath);
    var r := Insert(s, pi);
    InsertShape(s, pi);
    forall i | k < i < |r|
      ensures Less(r[i].execPath, pi.execPath)
    {
      if i - 1 > k {
        AtMostThenLess(s[k].execPath, s[i - 1].execPath, pi.execPath);
      }
    }
  }

  lemma InsertSorted(s: seq<ProcessingInfo>, pi: ProcessingInfo)
    requires SortedDescending(s)
    ensures SortedDescending(Insert(s, pi))
  {
    var k := FirstBelow(s, pi.execPath);
    var r := Insert(s, pi);
    InsertShape(s, pi);
    InsertAfter(s, pi);
    forall i, j | 0 <= i < j < |r|
      ensures !Less(r[i].execPath, r[j].execPath)
    {
      if i == k {
        LessAsymmetric(r[j].execPath, pi.execPath);
      } else if j < k {
        assert r[i] == s[i] && r[j] == s[j];
      } else if j == k {
        assert r[i] == s[i];
      } else if i < k {
        assert r[i] == s[i] && r[j] == s[j - 1];
      } else {
        assert r[i] == s[i - 1] && r[j] == s[j - 1];
      }
    }
  }

  // ---------------------------------------------------------------------
  // Construction and analyses
  // ---------------------------------------------------------------------

  /** `new DataSet(analysis, id, folder)`: the project is the analysis's,
      and the analysis is the only one known. */
  function NewDataSet(analysis: Analysis, id: string, folder: string): (ds: DataSet)
    ensures ds.id == id && ds.outputBaseFolder == folder && ds.project == analysis.project
    ensures ListOfAnalyses(ds) == {analysis.name} && GetAnalysis(ds, analysis.name) == Some(analysis)
    ensures ds.dummies == map[] && ds.plannedOrRunning == map[] && ds.processing == map[]
  {
    DataSet(id, folder, analysis.project, map[analysis.name := analysis], map[], map[], map[])
  }

  /** `updateAnalysis`: adds or replaces the analysis under its name. */
  function UpdateAnalysis(ds: DataSet, a: Analysis): (r: DataSet)
    ensures HasAnalysis(r, a.name) && GetAnalysis(r, a.name) == Some(a)
    ensures forall n :: n != a.name ==> GetAnalysis(r, n) == GetAnalysis(ds, n)
    ensures ListOfAnalyses(r) == ListOfAnalyses(ds) + {a.name}
    ensures r.(analyses := ds.analyses) == ds
  {
    ds.(analyses := ds.analyses[a.name := a])
  }

  /** `getAnalysis(id)`: `None` for an unknown name. */
  function GetAnalysis(ds: DataSet, name: string): (r: Option<Analysis>)
    ensures r.Some? <==> HasAnalysis(ds, name)
  {
    if name in ds.analyses then Some(ds.analyses[name]) else None
  }

  predicate HasAnalysis(ds: DataSet, name: string) {
    name in ds.analyses
  }

  /** `getListOfAnalyses()`; the hash map's key order is not modelled. */
  function ListOfAnalyses(ds: DataSet): (r: set<string>)
    ensures forall n :: n in r <==> HasAnalysis(ds, n)
  {
    ds.analyses.Keys
  }

  /** `getConfiguration()`: a parentless configuration holding the dataset
      id under `pid`, `PID`, `dataSet` and `DATASET`, as strings. */
  function GetConfiguration(ds: DataSet, info: C.Info, d: CV.Detectors): (r: C.Configuration)
    ensures C.Valid(r) && |r.parents| == 0
  {
    var c0 := C.NewConfiguration(info, []);
    assert C.Valid(c0);
    var c1 := C.PutValue(c0, PID, ds.id, C.STRING_TYPE, d);
    var c2 := C.PutValue(c1, PID_CAP, ds.id, C.STRING_TYPE, d);
    var c3 := C.PutValue(c2, DATASET, ds.id, C.STRING_TYPE, d);
    C.PutValue(c3, DATASET_CAP, ds.id, C.STRING_TYPE, d)
  }

  const PID := "pid"
  const PID_CAP := "PID"
  const DATASET := "dataSet"
  const DATASET_CAP := "DATASET"

  /** All four keys of the dataset configuration read back as the id. */
  lemma ConfigurationHoldsId(ds: DataSet, info: C.Info, d: CV.Detectors, key: string)
    requires key in {PID, PID_CAP, DATASET, DATASET_CAP}
    ensures var c := GetConfiguration(ds, info, d);
      C.GetOrThrow(c, key).Success? && C.GetOrThrow(c, key).value.value == ds.id
  {
    var c0 := C.NewConfiguration(info, []);
    assert C.Valid(c0);
    var c1 := C.PutValue(c0, PID, ds.id, C.STRING_TYPE, d);
    var c2 := C.PutValue(c1, PID_CAP, ds.id, C.STRING_TYPE, d);
    var c3 := C.PutValue(c2, DATASET, ds.id, C.STRING_TYPE, d);
    var c4 := C.PutValue(c3, DATASET_CAP, ds.id, C.STRING_TYPE, d);
    // Each later put leaves the earlier keys' resolution alone.
    if key == PID {
      C.PutValueGet(c0, PID, ds.id, C.STRING_TYPE, d);
      assert C.Resolve(c4, key) == C.Resolve(c3, key) == C.Resolve(c2, key) == C.Resolve(c1, key);
    } else if key == PID_CAP {
      C.PutValueGet(c1, PID_CAP, ds.id, C.STRING_TYPE, d);
      assert C.Resolve(c4, key) == C.Resolve(c3, key) == C.Resolve(c2, key);
    } else if key == DATASET {
      C.PutValueGet(c2, DATASET, ds.id, C.STRING_TYPE, d);
      assert C.Resolve(c4, key) == C.Resolve(c3, key);
    } else {
      C.PutValueGet(c3, DATASET_CAP, ds.id, C.STRING_TYPE, d);
    }
  }

  // ---------------------------------------------------------------------
  // Processing records
  // ---------------------------------------------------------------------

  /** Every record list was built by `AddProcessingInformation`, so each is
      sorted and holds records of its own analysis. */
  predicate Valid(ds: DataSet) {
    forall a :: a in ds.processing ==> SortedDescending(ds.processing[a])
  }

  /** `getProcessingInformation(analysis)`: a copy of the analysis's list;
      empty for an analysis without records. */
  function ProcessingInformation(ds: DataSet, a: Analysis): (r: seq<ProcessingInfo>)
    ensures a !in ds.processing ==> r == []
    ensures Valid(ds) ==> SortedDescending(r)
  {
    if a in ds.processing then ds.processing[a] else []
  }

  /** `addProcessingInformation(pi)`: a record already in its analysis's
      list is ignored; otherwise it is added and the list re-sorted by
      descending execution path. */
  function AddProcessingInformation(ds: DataSet, pi: ProcessingInfo): (r: DataSet)
    ensures pi in ProcessingInformation(ds, pi.analysis) ==> r == ds
    ensures pi !in ProcessingInformation(ds, pi.analysis) ==>
      r == ds.(processing := ds.processing[pi.analysis := Insert(ProcessingInformation(ds, pi.analysis), pi)])
  {
    var con := ProcessingInformation(ds, pi.analysis);
    if pi in con then ds
    else ds.(processing := ds.processing[pi.analysis := Insert(con, pi)])
  }

  /** Adding a record keeps every list sorted, makes the record part of its
      analysis's list, adds nothing else, and leaves the other analyses
      alone; adding the same record again changes nothing. */
  lemma AddProcessingInformationSpec(ds: DataSet, pi: ProcessingInfo, b: Analysis)
    requires Valid(ds)
    ensures var r := AddProcessingInformation(ds, pi);
      Valid(r) && pi in ProcessingInformation(r, pi.analysis) &&
      (pi !in ProcessingInformation(ds, pi.analysis) ==>
         multiset(ProcessingInformation(r, pi.analysis)) == multiset(ProcessingInformation(ds, pi.analysis)) + multiset{pi}) &&
      (b != pi.analysis ==> ProcessingInformation(r, b) == ProcessingInformation(ds, b)) &&
      AddProcessingInformation(r, pi) == r
  {
    var con := ProcessingInformation(ds, pi.analysis);
    if pi !in con {
      InsertSpec(con, pi);
      var r := AddProcessingInformation(ds, pi);
      assert pi in multiset(ProcessingInformation(r, pi.analysis));
    }
  }

  /** `getLatestValidProcessingInformation(analysis)`: the first record, in
      list order, that `valid` accepts. `valid` stands for the checks that
      the record has execution details with executed jobs and an existing
      execution directory. */
  function LatestValid(ds: DataSet, a: Analysis, valid: ProcessingInfo -> bool): (r: Option<ProcessingInfo>)
  {
    FirstValid(ProcessingInformation(ds, a), valid)
  }

  function FirstValid(s: seq<ProcessingInfo>, valid: ProcessingInfo -> bool): (r: Option<ProcessingInfo>)
    decreases |s|
  {
    if |s| == 0 then None else if valid(s[0]) then Some(s[0]) else FirstValid(s[1..], valid)
  }

  /** The latest valid record is valid, in the list, and every record before
      it is invalid; there is none exactly when no record is valid. */
  lemma {:induction false} FirstValidSpec(s: seq<ProcessingInfo>, valid: ProcessingInfo -> bool)
    ensures FirstValid(s, valid).None? <==> forall i :: 0 <= i < |s| ==> !valid(s[i])
    ensures FirstValid(s, valid).Some? ==>
      exists k :: 0 <= k < |s| && s[k] == FirstValid(s, valid).value && valid(s[k]) &&
        forall i :: 0 <= i < k ==> !valid(s[i])
    decreases |s|
  {
    if |s| > 0 && !valid(s[0]) {
      FirstValidSpec(s[1..], valid);
      if FirstValid(s[1..], valid).Some? {
        var k :| 0 <= k < |s| - 1 && s[1..][k] == FirstValid(s[1..], valid).value && valid(s[1..][k]) &&
          forall i :: 0 <= i < k ==> !valid(s[1..][i]);
        assert s[k + 1] == s[1..][k];
        assert forall i :: 0 < i < k + 1 ==> s[i] == s[1..][i - 1];
      }
      assert forall i :: 0 < i < |s| ==> s[i] == s[1..][i - 1];
    }
  }

  // ---------------------------------------------------------------------
  // Dummy and planned-or-running records
  // ---------------------------------------------------------------------

  function GetDummy(ds: DataSet, a: Analysis): (r: Option<ProcessingInfo>)
    ensures r.Some? <==> HasDummy(ds, a)
  {
    if a in ds.dummies then Some(ds.dummies[a]) else None
  }

  predicate HasDummy(ds: DataSet, a: Analysis) {
    a in ds.dummies
  }

  /** `setDummyAnalysisProcessingInformation`: the first dummy of an
      analysis stays; later ones are ignored. */
  function SetDummy(ds: DataSet, dummy: ProcessingInfo): (r: DataSet)
    ensures HasDummy(ds, dummy.analysis) ==> r == ds
    ensures !HasDummy(ds, dummy.analysis) ==> GetDummy(r, dummy.analysis) == Some(dummy)
    ensures forall a :: a != dummy.analysis ==> GetDummy(r, a) == GetDummy(ds, a)
    ensures r.(dummies := ds.dummies) == ds
  {
    if dummy.analysis in ds.dummies then ds else ds.(dummies := ds.dummies[dummy.analysis := dummy])
  }

  /** `removeDummyAnalysisProcessingInformation`. */
  function RemoveDummy(ds: DataSet, a: Analysis): (r: DataSet)
    ensures !HasDummy(r, a)
    ensures forall b :: b != a ==> GetDummy(r, b) == GetDummy(ds, b)
    ensures r.(dummies := ds.dummies) == ds
  {
    ds.(dummies := ds.dummies - {a})
  }

  function GetPlannedOrRunning(ds: DataSet, a: Analysis): (r: Option<ProcessingInfo>)
    ensures r.Some? <==> HasPlannedOrRunning(ds, a)
  {
    if a in ds.plannedOrRunning then Some(ds.plannedOrRunning[a]) else None
  }

  predicate HasPlannedOrRunning(ds: DataSet, a: Analysis) {
    a in ds.plannedOrRunning
  }

  /** `setPlannedOrRunningAnalysisProcessingInformation`: first write wins. */
  function SetPlannedOrRunning(ds: DataSet, p: ProcessingInfo): (r: DataSet)
    ensures HasPlannedOrRunning(ds, p.analysis) ==> r == ds
    ensures !HasPlannedOrRunning(ds, p.analysis) ==> GetPlannedOrRunning(r, p.analysis) == Some(p)
    ensures forall a :: a != p.analysis ==> GetPlannedOrRunning(r, a) == GetPlannedOrRunning(ds, a)
    ensures r.(plannedOrRunning := ds.plannedOrRunning) == ds
  {
    if p.analysis in ds.plannedOrRunning then ds
    else ds.(plannedOrRunning := ds.plannedOrRunning[p.analysis := p])
  }

  /** Whatever sequence of dummies is set, the first one for the analysis
      is the one kept, until it is removed; after removal the next one set
      is kept. */
  lemma {:induction false} FirstDummyWins(ds: DataSet, dummies: seq<ProcessingInfo>, a: Analysis, k: nat)
    requires !HasDummy(ds, a) && k < |dummies| && dummies[k].analysis == a
    requires forall i :: 0 <= i < k ==> dummies[i].analysis != a
    ensures GetDummy(SetDummies(ds, dummies), a) == Some(dummies[k])
    decreases |dummies|
  {
    if k == |dummies| - 1 {
      FirstDummyWinsPrefix(ds, dummies[..k], a);
    } else {
      FirstDummyWins(ds, dummies[..|dummies| - 1], a, k);
      assert dummies[..|dummies| - 1][k] == dummies[k];
    }
  }

  lemma {:induction false} FirstDummyWinsPrefix(ds: DataSet, dummies: seq<ProcessingInfo>, a: Analysis)
    requires !HasDummy(ds, a)
    requires forall i :: 0 <= i < |dummies| ==> dummies[i].analysis != a
    ensures !HasDummy(SetDummies(ds, dummies), a)
    decreases |dummies|
  {
    if |dummies| > 0 {
      FirstDummyWinsPrefix(ds, dummies[..|dummies| - 1], a);
    }
  }

  /** Setting dummies one after the other. */
  function SetDummies(ds: DataSet, dummies: seq<ProcessingInfo>): DataSet
    decreases |dummies|
  {
    if |dummies| == 0 then ds else SetDummy(SetDummies(ds, dummies[..|dummies| - 1]), dummies[|dummies| - 1])
  }

  /** After removal the next dummy set is the one kept. */
  lemma RemoveThenSetDummy(ds: DataSet, dummy: ProcessingInfo)
    ensures GetDummy(SetDummy(RemoveDummy(ds, dummy.analysis), dummy), dummy.analysis) == Some(dummy)
  {
  }
}
