/** Jobs: the generic job states, job ids (fake ids for jobs that were not
    submitted, PBS ids as the batch system prints them), the names and log
    file names the job manager gives jobs, the job-state log line, and the
    Sun Grid Engine specifics (submit output, qstat columns, the values it
    adds to a configuration).

    The clock (`System.nanoTime`, `System.currentTimeMillis`) is a
    parameter. */
module Jobs {
  import opened Wrappers
  import JS = JavaStrings
  import C = Configurations
  import CV = ConfigValues

  // ---------------------------------------------------------------------
  // Job states
  // ---------------------------------------------------------------------

  datatype JobState =
    | RUNNING | FAILED | OK | UNKNOWN | UNKNOWN_READOUT | UNKNOWN_SUBMITTED
    | UNSTARTED | HOLD | QUEUED | DUMMY | ABORTED | FAILED_POSSIBLE

  predicate IsPlannedOrRunning(s: JobState) {
    s == UNSTARTED || s == RUNNING || s == QUEUED || s == HOLD
  }

  predicate IsDummy(s: JobState) {
    s == DUMMY
  }

  predicate IsRunning(s: JobState) {
    s == RUNNING
  }

  predicate IsUnknown(s: JobState) {
    s == UNKNOWN || s == UNKNOWN_READOUT || s == UNKNOWN_SUBMITTED
  }

  /** The state classes: a running job is planned or running, no state is
      both unknown and planned or running, and a dummy is neither. */
  lemma StateClasses(s: JobState)
    ensures IsRunning(s) ==> IsPlannedOrRunning(s)
    ensures !(IsUnknown(s) && IsPlannedOrRunning(s))
    ensures IsDummy(s) ==> !IsUnknown(s) && !IsPlannedOrRunning(s)
    ensures IsPlannedOrRunning(s) <==> s in {UNSTARTED, RUNNING, QUEUED, HOLD}
    ensures IsUnknown(s) <==> s in {UNKNOWN, UNKNOWN_READOUT, UNKNOWN_SUBMITTED}
  {
  }

  // ---------------------------------------------------------------------
  // Fake job ids
  // ---------------------------------------------------------------------

  /** A Java `long`. */
  type Long = x: int | -0x8000_0000_0000_0000 <= x < 0x8000_0000_0000_0000

  datatype FakeJobReason = NOT_EXECUTED | FILE_EXISTED | UNDEFINED

  function ReasonName(r: FakeJobReason): string {
    match r
    case NOT_EXECUTED => "NOT_EXECUTED"
    case FILE_EXISTED => "FILE_EXISTED"
    case UNDEFINED => "UNDEFINED"
  }

  /** The id of a job that was not submitted: the reason, the creation
      time in nanoseconds and whether the job is an array job. */
  datatype FakeJobID = FakeJobID(reason: FakeJobReason, nanotime: Long, isArray: bool)

  /** The constructors; the reason defaults to UNDEFINED and the array flag
      to false. `nanotime` is the clock reading. */
  function NewFake(reason: Option<FakeJobReason>, isArray: Option<bool>, nanotime: Long): (f: FakeJobID)
    ensures f.reason == (if reason.Some? then reason.value else UNDEFINED)
    ensures f.isArray == (isArray.Some? && isArray.value)
    ensures f.nanotime == nanotime
  {
    FakeJobID(if reason.Some? then reason.value else UNDEFINED, nanotime, isArray.Some? && isArray.value)
  }

  /** `getNotExecutedFakeJob(job, array)`. */
  function NotExecutedFake(isArray: bool, nanotime: Long): (f: FakeJobID)
    ensures f == FakeJobID(NOT_EXECUTED, nanotime, isArray)
  {
    NewFake(Some(NOT_EXECUTED), Some(isArray), nanotime)
  }

  /** `getFileExistedFakeJob(job, array)`; the context form is not an array. */
  function FileExistedFake(isArray: bool, nanotime: Long): (f: FakeJobID)
    ensures f == FakeJobID(FILE_EXISTED, nanotime, isArray)
  {
    NewFake(Some(FILE_EXISTED), Some(isArray), nanotime)
  }

  /** Fake ids are never valid and never array jobs, whatever the flag. */
  predicate FakeIsValid(f: FakeJobID) { false }

  predicate FakeIsArrayJob(f: FakeJobID) { false }

  /** The two named fake jobs carry their reason and the array flag they
      were built with, and like every fake id are neither valid nor an
      array job. */
  lemma NamedFakesAreInert(isArray: bool, nanotime: Long)
    ensures NotExecutedFake(isArray, nanotime).reason == NOT_EXECUTED
    ensures FileExistedFake(isArray, nanotime).reason == FILE_EXISTED
    ensures NotExecutedFake(isArray, nanotime).isArray == isArray && FileExistedFake(isArray, nanotime).isArray == isArray
    ensures !FakeIsValid(NotExecutedFake(isArray, nanotime)) && !FakeIsArrayJob(NotExecutedFake(isArray, nanotime))
    ensures !FakeIsValid(FileExistedFake(isArray, nanotime)) && !FakeIsArrayJob(FileExistedFake(isArray, nanotime))
  {
  }

  /** `String.format("0x%08X%s", nanotime, isArray ? "[]" : "")`: a
      negative time prints as its 64-bit two's complement. */
  function FakeShortID(f: FakeJobID): (r: string)
    ensures JS.StartsWith(r, "0x") && |r| >= 10
    ensures JS.EndsWith(r, "[]") <==> f.isArray
  {
    var h := JS.FormatHex8(f.nanotime);
    var r := "0x" + h + (if f.isArray then "[]" else "");
    assert r[|r| - 2..] == (if f.isArray then "[]" else h[|h| - 2..]);
    assert JS.IsUpperHexDigit(h[|h| - 1]);
    r
  }

  /** The hex digits of a short id, between `0x` and the array marker. */
  function HexDigitsOf(r: string, isArray: bool): string
    requires |r| >= 2 + (if isArray then 2 else 0)
  {
    r[2..|r| - (if isArray then 2 else 0)]
  }

  /** `getId()`: the short id, a dot and the reason's name. */
  function FakeID(f: FakeJobID): (r: string)
    ensures JS.StartsWith(r, FakeShortID(f))
  {
    FakeShortID(f) + "." + ReasonName(f.reason)
  }

  /** `isFakeJobID(id)`. */
  predicate IsFakeJobID(id: string) {
    JS.StartsWith(id, "0x")
  }

  /** A short id decodes back to the time (modulo 2^64) and the array flag;
      both the short and the long id are recognised as fake, and the long
      id splits at its dot into the short id and the reason. */
  lemma FakeIDRoundTrip(f: FakeJobID)
    ensures var r := FakeShortID(f); var h := HexDigitsOf(r, f.isArray);
      (forall i :: 0 <= i < |h| ==> JS.IsUpperHexDigit(h[i])) &&
      JS.HexValue(h) == f.nanotime % 0x1_0000_0000_0000_0000
    ensures IsFakeJobID(FakeShortID(f)) && IsFakeJobID(FakeID(f))
    ensures JS.Split(FakeID(f), ".") == [FakeShortID(f), ReasonName(f.reason)]
  {
    FakeShortIDDigits(f);
    assert FakeID(f)[..2] == "0x";
    FakeIDSplits(f);
  }

  /** The digits of a short id are the formatted time. */
  lemma FakeShortIDDigits(f: FakeJobID)
    ensures HexDigitsOf(FakeShortID(f), f.isArray) == JS.FormatHex8(f.nanotime)
  {
    var h := JS.FormatHex8(f.nanotime);
    var r := FakeShortID(f);
    assert r == "0x" + h + (if f.isArray then "[]" else "");
  }

  /** A short id holds no dot, so the long id splits at its one dot. */
  lemma FakeIDSplits(f: FakeJobID)
    ensures JS.Split(FakeID(f), ".") == [FakeShortID(f), ReasonName(f.reason)]
  {
    var h := JS.FormatHex8(f.nanotime);
    var r := FakeShortID(f);
    assert JS.Avoids(r, '.') by {
      forall i | 0 <= i < |r| ensures r[i] != '.' {
        if 2 <= i < 2 + |h| {
          assert r[i] == h[i - 2];
        }
      }
    }
    assert JS.Join([r, ReasonName(f.reason)], ".") == FakeID(f);
    JS.SplitJoin([r, ReasonName(f.reason)], ".");
  }

  // ---------------------------------------------------------------------
  // PBS job ids
  // ---------------------------------------------------------------------

  /** A PBS job id as the batch system printed it; `None` is a null id. */
  datatype PBSJobID = PBSJobID(id: Option<string>)

  /** A Java string reference that may be the interned literal `"none"`.
      Only the literal itself is that very object; text read from the
      batch system's output is a fresh string even when it reads "none". */
  datatype StringRef = StringRef(text: string, isNoneLiteral: bool)

  predicate WellFormedRef(r: StringRef) {
    r.isNoneLiteral ==> r.text == "none"
  }

  /** `isValidID()` as written: non-null and not the same object as the
      literal `"none"` (`!=` on references). */
  predicate PBSIsValidAsWritten(id: Option<StringRef>) {
    id.Some? && !id.value.isNoneLiteral
  }

  /** `isValidID()` as intended: non-null and not the text "none". */
  predicate PBSIsValid(j: PBSJobID) {
    j.id.Some? && j.id.value != "none"
  }

  /** A "none" the batch system printed is accepted as valid by the
      reference comparison, while the intended check rejects it. */
  lemma PBSNoneFromOutputAccepted()
    ensures PBSIsValidAsWritten(Some(StringRef("none", false)))
    ensures !PBSIsValid(PBSJobID(Some("none")))
  {
  }

  /** The two checks agree on every id except a "none" that is not the
      literal; the intended check rejects exactly null and "none". */
  lemma PBSValidity(r: Option<StringRef>)
    requires r.Some? ==> WellFormedRef(r.value)
    ensures var j := PBSJobID(if r.Some? then Some(r.value.text) else None);
      (PBSIsValid(j) ==> PBSIsValidAsWritten(r)) &&
      (PBSIsValidAsWritten(r) && !PBSIsValid(j) <==> r.Some? && r.value.text == "none" && !r.value.isNoneLiteral)
  {
  }

  /** `getId()`: the constructor's string. */
  function PBSId(j: PBSJobID): (r: Option<string>)
    ensures r == j.id
  {
    j.id
  }

  /** `isArrayJob()`: the id contains `"[]."`; a null id throws. */
  function PBSIsArrayJob(j: PBSJobID): (r: Result<bool, string>)
    ensures j.id.None? <==> r.Failure?
    ensures r.Success? ==> (r.value <==> exists i :: JS.OccursAt(j.id.value, "[].", i))
  {
    if j.id.None? then Failure("NullPointerException")
    else
      var t := j.id.value;
      assert JS.IndexOf(t, "[].") >= 0 ==> JS.OccursAt(t, "[].", JS.IndexOf(t, "[]."));
      Success(JS.Contains(t, "[]."))
  }

  /** `getShortID()` (and `toString()`): the first piece of the id split at
      dots; an id of dots only has no pieces and throws. */
  function PBSShortID(j: PBSJobID): (r: Result<string, string>)
    ensures j.id.None? ==> r.Failure?
    ensures r.Success? ==> JS.Avoids(r.value, '.') || r.value == j.id.value
  {
    if j.id.None? then Failure("NullPointerException")
    else
      var parts := JS.Split(j.id.value, ".");
      if |parts| == 0 then Failure("ArrayIndexOutOfBoundsException")
      else
        ShortIDPiece(j.id.value);
        Success(parts[0])
  }

  lemma ShortIDPiece(t: string)
    ensures |JS.Split(t, ".")| > 0 ==> JS.Avoids(JS.Split(t, ".")[0], '.') || JS.Split(t, ".")[0] == t
  {
    if JS.IndexOf(t, ".") >= 0 {
      JS.RawSplitAvoids(t, ".");
    }
  }

  /** The short id is the text before the first dot, and an id without a
      dot is its own short id. */
  lemma PBSShortIDBeforeDot(a: string, rest: string)
    requires JS.Avoids(a, '.')
    ensures a != "" ==> PBSShortID(PBSJobID(Some(a + "." + rest))) == Success(a)
    ensures PBSShortID(PBSJobID(Some(a))) == Success(a)
  {
    JS.SplitNoDelimiter(a, ".");
    if a != "" {
      JS.SplitCons(a, ".", rest);
    }
  }

  // ---------------------------------------------------------------------
  // Job manager
  // ---------------------------------------------------------------------

  /** `createJobName(...)`: "r", the context's time stamp, the dataset id,
      and the tool name or postfix, joined by underscores. The reduce-level
      flag and the size inputs are ignored. */
  function JobName(timestamp: string, datasetID: string, tool: string): (r: string)
    ensures JS.StartsWith(r, "r" + timestamp + "_")
    ensures JS.EndsWith(r, "_" + tool)
  {
    var r := "r" + timestamp + "_" + datasetID + "_" + tool;
    assert r[..|"r" + timestamp + "_"|] == "r" + timestamp + "_";
    assert r[|r| - |"_" + tool|..] == "_" + tool;
    r
  }

  /** A name whose parts have no underscore splits back into them. */
  lemma JobNameParts(timestamp: string, datasetID: string, tool: string)
    requires JS.Avoids(timestamp, '_') && JS.Avoids(datasetID, '_') && JS.Avoids(tool, '_') && tool != ""
    ensures JS.Split(JobName(timestamp, datasetID, tool), "_") == ["r" + timestamp, datasetID, tool]
  {
    var xs := ["r" + timestamp, datasetID, tool];
    assert JS.Join(xs[1..], "_") == datasetID + "_" + tool by {
      assert JS.Join(xs[1..][1..], "_") == tool;
    }
    assert JS.Join(xs, "_") == JobName(timestamp, datasetID, tool);
    assert JS.Avoids("r" + timestamp, '_') by {
      forall i | 0 <= i < |"r" + timestamp| ensures ("r" + timestamp)[i] != '_' {
        if i > 0 { assert ("r" + timestamp)[i] == timestamp[i - 1]; }
      }
    }
    JS.SplitJoin(xs, "_");
  }

  /** `getLogFileName(job)`: the job name, ".o" and the job id (Java prints
      a null id as "null"). */
  function LogFileName(jobName: string, jobID: Option<string>): (r: string)
    ensures jobID.Some? ==> JS.EndsWith(r, ".o" + jobID.value)
    ensures JS.StartsWith(r, jobName)
  {
    var r := jobName + ".o" + (if jobID.Some? then jobID.value else "null");
    assert r[..|jobName|] == jobName;
    assert jobID.Some? ==> r[|r| - |".o" + jobID.value|..] == ".o" + jobID.value;
    r
  }

  /** A dummy command is an array command exactly when it has array
      settings. */
  function DummyIsArray(arraySettings: Option<seq<string>>): (r: bool)
    ensures r <==> arraySettings.Some? && |arraySettings.value| > 0
  {
    arraySettings != None && |arraySettings.value| > 0
  }

  /** The code a job state is logged with. */
  function StateCode(s: JobState): string {
    if s == UNSTARTED then "N"
    else if s == ABORTED then "A"
    else if s == OK then "C"
    else if s == FAILED then "E"
    else "255"
  }

  /** The states a logged code stands for: one state per letter code, all
      other states as "255". */
  function StateOfCode(code: string): Option<JobState> {
    if code == "N" then Some(UNSTARTED)
    else if code == "A" then Some(ABORTED)
    else if code == "C" then Some(OK)
    else if code == "E" then Some(FAILED)
    else None
  }

  lemma StateCodeRoundTrip(s: JobState)
    ensures StateOfCode(StateCode(s)) == (if s in {UNSTARTED, ABORTED, OK, FAILED} then Some(s) else None)
    ensures StateCode(s) == "255" <==> s !in {UNSTARTED, ABORTED, OK, FAILED}
  {
  }

  /** `storeJobStateInfo`: the line `jobID:code:seconds` that is appended
      to the job-state log, where seconds are the milliseconds' decimal
      text without its last three digits; nothing when the id is null.
      Fewer than three digits make the substring throw, before the id is
      looked at. */
  function StateLine(jobID: Option<string>, s: JobState, millis: nat): (r: Result<Option<string>, string>)
    ensures millis < 100 <==> r.Failure?
    ensures millis >= 100 && jobID.None? ==> r == Success(None)
    ensures r.Success? && jobID.Some? ==> r.value.Some? && JS.StartsWith(r.value.value, jobID.value + ":" + StateCode(s) + ":")
  {
    var m := JS.NatToString(millis);
    MillisDigits(millis);
    if |m| < 3 then Failure("StringIndexOutOfBoundsException")
    else
      var seconds := m[..|m| - 3];
      if jobID.None? then Success(None)
      else
        var line := jobID.value + ":" + StateCode(s) + ":" + seconds;
        assert line[..|jobID.value + ":" + StateCode(s) + ":"|] == jobID.value + ":" + StateCode(s) + ":";
        Success(Some(line))
  }

  lemma MillisDigits(millis: nat)
    ensures |JS.NatToString(millis)| >= 3 <==> millis >= 100
  {
    if millis >= 100 {
      JS.NatToStringDropLast(millis);
      JS.NatToStringDropLast(millis / 10);
    } else if millis >= 10 {
      JS.NatToStringDropLast(millis);
    }
  }

  /** From one second on, a logged line splits back into the id, the state
      code and the whole seconds. */
  lemma StateLineParses(jobID: string, s: JobState, millis: nat)
    requires millis >= 1000 && JS.Avoids(jobID, ':')
    ensures StateLine(Some(jobID), s, millis).Success?
    ensures var line := StateLine(Some(jobID), s, millis).value.value;
      JS.Split(line, ":") == [jobID, StateCode(s), JS.NatToString(millis / 1000)]
  {
    var secs := JS.NatToString(millis / 1000);
    StateLineOfSeconds(jobID, s, millis);
    SecondsAvoidColon(millis / 1000);
    JoinThree(jobID, StateCode(s), secs);
    StateCodeAvoidsColon(s);
    JS.SplitJoin([jobID, StateCode(s), secs], ":");
  }

  /** From one second on, the line is the id, the code and the seconds. */
  lemma StateLineOfSeconds(jobID: string, s: JobState, millis: nat)
    requires millis >= 1000
    ensures StateLine(Some(jobID), s, millis) == Success(Some(jobID + ":" + StateCode(s) + ":" + JS.NatToString(millis / 1000)))
  {
    MillisDigits(millis);
    JS.NatToStringDropThree(millis);
  }

  lemma SecondsAvoidColon(n: nat)
    ensures JS.Avoids(JS.NatToString(n), ':') && JS.NatToString(n) != ""
  {
    var t := JS.NatToString(n);
    forall i | 0 <= i < |t| ensures t[i] != ':' {
      assert JS.IsAsciiDigit(t[i]);
    }
  }

  lemma StateCodeAvoidsColon(s: JobState)
    ensures JS.Avoids(StateCode(s), ':')
  {
  }

  lemma JoinThree(a: string, b: string, c: string)
    ensures JS.Join([a, b, c], ":") == a + ":" + b + ":" + c
  {
    var xs := [a, b, c];
    assert JS.Join(xs[1..][1..], ":") == c;
    assert JS.Join(xs[1..], ":") == b + ":" + c;
  }

  // ---------------------------------------------------------------------
  // Sun Grid Engine
  // ---------------------------------------------------------------------

  /** The state column texts and column positions of `qstat` output. */
  const SGE_QUEUED := "qw"
  const SGE_HOLD := "hqw"
  const SGE_RUNNING := "r"
  const SGE_JOB_ID_COLUMN := 0
  const SGE_JOB_STATE_COLUMN := 4

  /** `parseJobID(output)`: `None` unless the submit output starts with
      "Your job"; otherwise the third space-separated token, which throws
      when there is none. */
  function SGEParseJobID(output: string): (r: Result<Option<string>, string>)
    ensures !JS.StartsWith(output, "Your job") <==> r == Success(None)
  {
    if !JS.StartsWith(output, "Your job") then Success(None)
    else
      var parts := JS.Split(output, " ");
      if |parts| < 3 then Failure("ArrayIndexOutOfBoundsException") else Success(Some(parts[2]))
  }

  /** The id of "Your job <id> <rest>" is read back. */
  lemma SGEParseJobIDOfSubmit(id: string, rest: string)
    requires id != "" && JS.Avoids(id, ' ')
    ensures SGEParseJobID("Your job " + id + " " + rest) == Success(Some(id))
  {
    var out := "Your job " + id + " " + rest;
    assert out[..8] == "Your job";
    var tail := JS.DropTrailingEmpty(JS.RawSplit(rest, " "));
    assert out == "Your" + " " + ("job" + " " + (id + " " + rest));
    JS.SplitCons("Your", " ", "job" + " " + (id + " " + rest));
    JS.RawSplitCons("job", " ", id + " " + rest);
    JS.RawSplitCons(id, " ", rest);
    JS.DropTrailingEmptyCons("job", [id] + JS.RawSplit(rest, " "));
    JS.DropTrailingEmptyCons(id, JS.RawSplit(rest, " "));
  }

  const RODDY_JOBID := "RODDY_JOBID"
  const RODDY_SCRATCH := "RODDY_SCRATCH"
  const RODDY_AUTOCLEANUP_SCRATCH := "RODDY_AUTOCLEANUP_SCRATCH"

  /** `addSpecificSettingsToConfiguration`: the job id (empty outside a
      job), a scratch directory per job, and automatic scratch clean-up.
      The values get a detected type, as the two-argument value
      constructor gives them. */
  function SGEAddSpecificSettings(c: C.Configuration, d: CV.Detectors): (r: C.Configuration)
    requires C.Valid(c)
    ensures C.Valid(r) && r.parents == c.parents
    ensures forall j :: j !in {RODDY_JOBID, RODDY_SCRATCH, RODDY_AUTOCLEANUP_SCRATCH} ==> C.Resolve(r, j) == C.Resolve(c, j)
  {
    var c1 := C.PutValue(c, RODDY_JOBID, "${JOB_ID-}", "", d);
    var c2 := C.PutValue(c1, RODDY_SCRATCH, "/tmp/roddyScratch/${JOB_ID}", "", d);
    C.PutValue(c2, RODDY_AUTOCLEANUP_SCRATCH, "true", "", d)
  }

  /** The three added values read back. */
  lemma SGESettingsRead(c: C.Configuration, d: CV.Detectors)
    requires C.Valid(c)
    ensures var r := SGEAddSpecificSettings(c, d);
      C.GetOrThrow(r, RODDY_JOBID).Success? && C.GetOrThrow(r, RODDY_JOBID).value.value == "${JOB_ID-}" &&
      C.GetOrThrow(r, RODDY_SCRATCH).Success? && C.GetOrThrow(r, RODDY_SCRATCH).value.value == "/tmp/roddyScratch/${JOB_ID}" &&
      C.GetOrThrow(r, RODDY_AUTOCLEANUP_SCRATCH).Success? && C.GetOrThrow(r, RODDY_AUTOCLEANUP_SCRATCH).value.value == "true"
  {
    var c1 := C.PutValue(c, RODDY_JOBID, "${JOB_ID-}", "", d);
    var c2 := C.PutValue(c1, RODDY_SCRATCH, "/tmp/roddyScratch/${JOB_ID}", "", d);
    var r := C.PutValue(c2, RODDY_AUTOCLEANUP_SCRATCH, "true", "", d);
    C.PutValueGet(c, RODDY_JOBID, "${JOB_ID-}", "", d);
    C.PutValueGet(c1, RODDY_SCRATCH, "/tmp/roddyScratch/${JOB_ID}", "", d);
    C.PutValueGet(c2, RODDY_AUTOCLEANUP_SCRATCH, "true", "", d);
    assert C.Resolve(r, RODDY_JOBID) == C.Resolve(c1, RODDY_JOBID);
    assert C.Resolve(r, RODDY_SCRATCH) == C.Resolve(c2, RODDY_SCRATCH);
  }
}
