/** Execution context levels, processing flags and execution context
    errors: which levels may submit jobs, the bit flags that select what
    a run stores, and errors that are expanded with extra information and
    traced back to their base error. */
module ExecutionContexts {
  import opened Wrappers

  // ---------------------------------------------------------------------
  // Execution context levels
  // ---------------------------------------------------------------------

  datatype Level =
    | QUERY_STATUS | RUN | RERUN | TESTRERUN | ABORTED
    | CREATETESTDATA | UNSET | READOUT | CLEANUP

  /** The two flags each level is declared with; a level declared without
      arguments has both false. */
  function Flags(l: Level): (r: (bool, bool))
  {
    match l
    case RUN => (true, true)
    case RERUN => (true, true)
    case TESTRERUN => (false, false)
    case ABORTED => (false, true)
    case CLEANUP => (true, true)
    case _ => (false, false)
  }

  predicate CanSubmitJobs(l: Level) { Flags(l).0 }

  predicate AllowedToSubmitJobs(l: Level) { Flags(l).1 }

  /** Submitting is possible exactly at RUN, RERUN and CLEANUP; ABORTED is
      the one level that is allowed but cannot submit, and a level that
      can submit is always allowed to. */
  lemma SubmissionTable(l: Level)
    ensures CanSubmitJobs(l) <==> l in {RUN, RERUN, CLEANUP}
    ensures AllowedToSubmitJobs(l) <==> l in {RUN, RERUN, CLEANUP, ABORTED}
    ensures CanSubmitJobs(l) ==> AllowedToSubmitJobs(l)
  {
  }

  // ---------------------------------------------------------------------
  // Processing flags
  // ---------------------------------------------------------------------

  datatype ProcessingFlag = STORE_DUMMY_JOBS | STORE_FILES | CREATE_FAKE_JOBS | STORE_NOTHING | STORE_EVERYTHING

  /** The bitwise OR of the values of simple flags, as the composite
      constructor folds them. A value is the set of its set bits, so OR is
      union and AND is intersection. */
  function Combine(fs: seq<ProcessingFlag>): set<nat>
    requires forall i :: 0 <= i < |fs| ==> fs[i] != STORE_EVERYTHING
    decreases 0, 1, |fs|
  {
    if |fs| == 0 then {} else Combine(fs[..|fs| - 1]) + Value(fs[|fs| - 1])
  }

  /** The bits of the flag's value (0b1, 0b10, 0b10000, 0); the composite
      flag is built from its parts. */
  function Value(f: ProcessingFlag): set<nat>
    decreases if f == STORE_EVERYTHING then 1 else 0, 0
  {
    match f
    case STORE_DUMMY_JOBS => {0}
    case STORE_FILES => {1}
    case CREATE_FAKE_JOBS => {4}
    case STORE_NOTHING => {}
    case STORE_EVERYTHING => Combine([STORE_DUMMY_JOBS, STORE_FILES])
  }

  /** `contains(int)`: some bit in common. No flag value has the sign bit,
      so Java's signed `> 0` is the same as non-zero. */
  predicate ContainsBits(v: set<nat>, flag: set<nat>) {
    v * flag != {}
  }

  /** `contains(flag)`. */
  predicate Contains(a: ProcessingFlag, b: ProcessingFlag) {
    ContainsBits(Value(a), Value(b))
  }

  /** `isIn(flag)`: computes the same as `contains`. */
  predicate IsIn(a: ProcessingFlag, b: ProcessingFlag) {
    Value(b) * Value(a) != {}
  }

  lemma IsInIsContains(a: ProcessingFlag, b: ProcessingFlag)
    ensures IsIn(a, b) == Contains(a, b) == Contains(b, a)
  {
    assert Value(a) * Value(b) == Value(b) * Value(a);
  }

  /** A combination contains a value exactly when one of its parts does. */
  lemma {:induction false} CombineContains(fs: seq<ProcessingFlag>, v: set<nat>)
    requires forall i :: 0 <= i < |fs| ==> fs[i] != STORE_EVERYTHING
    ensures ContainsBits(Combine(fs), v) <==> exists i :: 0 <= i < |fs| && ContainsBits(Value(fs[i]), v)
    decreases |fs|
  {
    if |fs| > 0 {
      var init := fs[..|fs| - 1];
      CombineContains(init, v);
      assert (Combine(init) + Value(fs[|fs| - 1])) * v == (Combine(init) * v) + (Value(fs[|fs| - 1]) * v);
      if ContainsBits(Combine(fs), v) && !ContainsBits(Value(fs[|fs| - 1]), v) {
        var i :| 0 <= i < |init| && ContainsBits(Value(init[i]), v);
        assert fs[i] == init[i];
      }
      if exists i :: 0 <= i < |fs| && ContainsBits(Value(fs[i]), v) {
        var i :| 0 <= i < |fs| && ContainsBits(Value(fs[i]), v);
        if i < |init| {
          assert init[i] == fs[i];
        }
      }
    }
  }

  /** Storing everything contains dummy jobs and files but not fake jobs;
      storing nothing contains no flag and is in no flag. */
  lemma FlagTable(f: ProcessingFlag)
    ensures Contains(STORE_EVERYTHING, f) <==> f in {STORE_DUMMY_JOBS, STORE_FILES, STORE_EVERYTHING}
    ensures !Contains(STORE_NOTHING, f) && !IsIn(STORE_NOTHING, f)
  {
    CombineContains([STORE_DUMMY_JOBS, STORE_FILES], Value(f));
  }

  // ---------------------------------------------------------------------
  // Execution context errors
  // ---------------------------------------------------------------------

  /** The `java.util.logging` levels an error can carry. */
  datatype LogLevel = SEVERE | WARNING | INFO | CONFIG | FINE | FINER | FINEST

  function LogLevelName(l: LogLevel): string {
    match l
    case SEVERE => "SEVERE"
    case WARNING => "WARNING"
    case INFO => "INFO"
    case CONFIG => "CONFIG"
    case FINE => "FINE"
    case FINER => "FINER"
    case FINEST => "FINEST"
  }

  /** An error: the description, level, optional extra information, the
      error it was expanded from, and an exception's message. */
  datatype Error = Error(description: string, level: LogLevel, additionalInfo: Option<string>,
                         parent: Option<Error>, exception: Option<string>)

  /** The constructor the predefined errors are built with. */
  function NewError(description: string, level: LogLevel): (r: Error)
    ensures r.parent.None? && r.additionalInfo.None? && r.exception.None?
  {
    Error(description, level, None, None, None)
  }

  const EXECUTION_SETUP_INVALID := NewError("The workflow setup is not correct.", SEVERE)
  const EXECUTION_PATH_NOTFOUND_WARN := NewError("A path could not be found.", WARNING)
  const EXECUTION_JOBFAILED := NewError("The execution of a job failed.", SEVERE)

  /** `expand(info, level)`: a new error with the same description. */
  function Expand(e: Error, info: string, level: LogLevel): (r: Error)
    ensures r.description == e.description && r.level == level && r.additionalInfo == Some(info)
    ensures r.parent == Some(e) && r.exception.None?
  {
    Error(e.description, level, Some(info), Some(e), None)
  }

  /** `expand(info)`: level SEVERE. */
  function ExpandSevere(e: Error, info: string): (r: Error)
    ensures r == Expand(e, info, SEVERE)
  {
    Expand(e, info, SEVERE)
  }

  /** `expand(exception)`: the description is the additional information. */
  function ExpandException(e: Error, ex: string): (r: Error)
    ensures r.description == e.description && r.level == SEVERE && r.additionalInfo == Some(e.description)
    ensures r.parent == Some(e) && r.exception == Some(ex)
  {
    ExpandSevere(e, e.description).(exception := Some(ex))
  }

  /** `getBase()`: the root of the parent chain. */
  function Base(e: Error): (r: Error)
    ensures r.parent.None?
    ensures e.parent.None? ==> r == e
  {
    if e.parent.None? then e else Base(e.parent.value)
  }

  /** The parent chain from `e` to its base. */
  function Chain(e: Error): (r: seq<Error>)
    ensures |r| > 0 && r[0] == e
  {
    if e.parent.None? then [e] else [e] + Chain(e.parent.value)
  }

  /** The base is the last error of the chain, and the only one without a
      parent. */
  lemma {:induction false} BaseEndsChain(e: Error)
    ensures Chain(e)[|Chain(e)| - 1] == Base(e)
    ensures forall i :: 0 <= i < |Chain(e)| - 1 ==> Chain(e)[i].parent.Some?
  {
    if e.parent.Some? {
      BaseEndsChain(e.parent.value);
    }
  }

  /** Expanding never changes the base: all three forms keep it. */
  lemma ExpandKeepsBase(e: Error, info: string, level: LogLevel, ex: string)
    ensures Base(Expand(e, info, level)) == Base(e)
    ensures Base(ExpandSevere(e, info)) == Base(e)
    ensures Base(ExpandException(e, ex)) == Base(e)
    ensures Base(Base(e)) == Base(e)
  {
  }

  /** `toString()`: description, a space and the level, then ": info" when
      there is additional information. */
  function ToString(e: Error): (r: string)
    ensures e.additionalInfo.None? ==> r == e.description + " " + LogLevelName(e.level)
    ensures e.additionalInfo.Some? ==> r == e.description + " " + LogLevelName(e.level) + ": " + e.additionalInfo.value
  {
    e.description + " " + LogLevelName(e.level) + (if e.additionalInfo.Some? then ": " + e.additionalInfo.value else "")
  }

  /** A new error and every expansion of a chain built by expansion share
      the description along the chain. */
  lemma ExpansionSharesDescription(e: Error, info: string, level: LogLevel, ex: string)
    requires SharesDescription(e)
    ensures SharesDescription(NewError(e.description, level))
    ensures SharesDescription(Expand(e, info, level)) && SharesDescription(ExpandException(e, ex))
  {
  }

  /** An expanded error prints as its base's description at the new level
      with the information appended. */
  lemma ExpandedToString(e: Error, info: string, level: LogLevel)
    requires SharesDescription(e)
    ensures ToString(Expand(e, info, level)) == Base(e).description + " " + LogLevelName(level) + ": " + info
  {
    DescriptionAlongChain(e);
  }

  /** Expansion copies the description, so the whole chain of an error that
      was built by expansion shares its base's description. */
  lemma {:induction false} DescriptionAlongChain(e: Error)
    requires SharesDescription(e)
    ensures Base(e).description == e.description
  {
    if e.parent.Some? {
      DescriptionAlongChain(e.parent.value);
    }
  }

  predicate SharesDescription(e: Error) {
    e.parent.Some? ==> e.parent.value.description == e.description && SharesDescription(e.parent.value)
  }
}
