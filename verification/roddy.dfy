/** The pure rules of the application entry point: how often and how
    long apart a failed job submission is repeated, the exit status, the
    `${...}` form of a variable reference, the short version string, the
    per-plugin version choice and the `--useiodir` argument rule. */
module RoddyMain {
  import opened Wrappers
  import JS = JavaStrings

  // ---------------------------------------------------------------------
  // Job resubmission
  // ---------------------------------------------------------------------

  /** A Java `int`. */
  type Int32 = i: int | JS.IsInt32(i)

  /** The resubmission switches: off, amount -1 and wait 10 at start-up. */
  datatype Resubmission = Resubmission(repeatJobSubmission: bool, amount: Int32, wait: Int32)

  const DEFAULT_RESUBMISSION := Resubmission(false, -1, 10)

  /** `--resubmitJobOnError [amount[,wait]]`: switches resubmission on and
      takes the amount and the wait from the first two option values.
      `toInt` is the conversion helper, which is not part of this model. */
  function ResubmitOption(s: Resubmission, options: seq<string>, toInt: string -> Int32): (r: Resubmission)
    ensures r.repeatJobSubmission
    ensures r.amount == if |options| > 0 then toInt(options[0]) else s.amount
    ensures r.wait == if |options| > 1 then toInt(options[1]) else s.wait
  {
    var withAmount := if |options| > 0 then s.(amount := toInt(options[0])) else s;
    var withWait := if |options| > 1 then withAmount.(wait := toInt(options[1])) else withAmount;
    withWait.(repeatJobSubmission := true)
  }

  /** `getRepeatSubmissionAmount()`: one attempt when resubmission is off,
      unbounded (`Integer.MAX_VALUE`) for a non-positive amount. */
  function RepeatSubmissionAmount(s: Resubmission): (r: int)
    ensures 1 <= r <= JS.INT_MAX
    ensures !s.repeatJobSubmission ==> r == 1
    ensures s.repeatJobSubmission && s.amount <= 0 ==> r == JS.INT_MAX
    ensures s.repeatJobSubmission && s.amount > 0 ==> r == s.amount
  {
    if !s.repeatJobSubmission then 1
    else if s.amount <= 0 then JS.INT_MAX
    else s.amount
  }

  /** `getRepeatSubmissionWait()`: at least 2. */
  function RepeatSubmissionWait(s: Resubmission): (r: int)
    ensures r >= 2
    ensures s.wait >= 2 ==> r == s.wait
    ensures s.wait <= 1 ==> r == 2
  {
    if s.wait <= 1 then 2 else s.wait
  }

  /** The amount and wait read back the option values when they are in
      range; without values, resubmission is unbounded every 10 seconds. */
  lemma ResubmitOptionRoundTrip(options: seq<string>, toInt: string -> Int32)
    requires |options| >= 2 && 0 < toInt(options[0]) && toInt(options[1]) >= 2
    ensures RepeatSubmissionAmount(ResubmitOption(DEFAULT_RESUBMISSION, options, toInt)) == toInt(options[0])
    ensures RepeatSubmissionWait(ResubmitOption(DEFAULT_RESUBMISSION, options, toInt)) == toInt(options[1])
    ensures RepeatSubmissionAmount(ResubmitOption(DEFAULT_RESUBMISSION, [], toInt)) == JS.INT_MAX
    ensures RepeatSubmissionWait(ResubmitOption(DEFAULT_RESUBMISSION, [], toInt)) == 10
    ensures RepeatSubmissionAmount(DEFAULT_RESUBMISSION) == 1
  {
  }

  // ---------------------------------------------------------------------
  // Exit status
  // ---------------------------------------------------------------------

  /** `exit(code)`: a code up to 255 is passed on, a larger one is
      replaced by the code of the wrong-exit-code reason (whose value is
      not part of this model). Negative codes are passed on too. */
  function ExitStatus(code: int, wrongExitCodeUsed: int): (r: int)
    ensures code <= 255 ==> r == code
    ensures code > 255 ==> r == wrongExitCodeUsed
  {
    if code <= 255 then code else wrongExitCodeUsed
  }

  /** With a replacement code in range, every status is at most 255 and
      clamping twice changes nothing. */
  lemma ExitStatusClamped(code: int, wrongExitCodeUsed: int)
    requires wrongExitCodeUsed <= 255
    ensures ExitStatus(code, wrongExitCodeUsed) <= 255
    ensures ExitStatus(ExitStatus(code, wrongExitCodeUsed), wrongExitCodeUsed) == ExitStatus(code, wrongExitCodeUsed)
  {
  }

  // ---------------------------------------------------------------------
  // Variable references
  // ---------------------------------------------------------------------

  /** `asRoddyVarRef(var)`: the empty name stays empty. */
  function AsRoddyVarRef(v: string): (r: string)
    ensures v == "" <==> r == ""
    ensures v != "" ==> JS.StartsWith(r, "${") && JS.EndsWith(r, "}") && |r| == |v| + 3
  {
    if v == "" then "" else "${" + v + "}"
  }

  /** The name is recovered by dropping the `${` and the `}`. */
  lemma VarRefRoundTrip(v: string)
    requires v != ""
    ensures AsRoddyVarRef(v)[2..|AsRoddyVarRef(v)| - 1] == v
  {
  }

  // ---------------------------------------------------------------------
  // Versions
  // ---------------------------------------------------------------------

  /** `Constants.APP_CURRENT_VERSION_STRING`. */
  const APP_CURRENT_VERSION_STRING := "3.5.1"

  /** `getShortVersionString()` for a version string: the first two
      '.'-separated pieces; fewer pieces make the index fail. */
  function ShortVersion(version: string): (r: Result<string, string>)
    ensures r.Failure? <==> |JS.Split(version, ".")| < 2
    ensures r.Success? ==> r.value == JS.Split(version, ".")[0] + "." + JS.Split(version, ".")[1]
  {
    var complete := JS.Split(version, ".");
    if |complete| < 2 then Failure("ArrayIndexOutOfBoundsException")
    else Success(complete[0] + "." + complete[1])
  }

  /** `major.minor` and `major.minor.rest` shorten to `major.minor`. */
  lemma ShortVersionParts(major: string, minor: string, rest: Option<string>)
    requires JS.Avoids(major, '.') && JS.Avoids(minor, '.') && minor != ""
    ensures ShortVersion(major + "." + JS.WithRest(minor, ".", rest)) == Success(major + "." + minor)
  {
    JS.SplitFirstTwo(major, minor, ".", rest);
  }

  /** The running version "3.5.1" is "3.5" in short. */
  lemma CurrentShortVersion()
    ensures ShortVersion(APP_CURRENT_VERSION_STRING) == Success("3.5")
  {
    assert APP_CURRENT_VERSION_STRING == "3" + "." + JS.WithRest("5", ".", Some("1"));
    ShortVersionParts("3", "5", Some("1"));
    assert "3" + "." + "5" == "3.5";
  }

  /** The comma-separated `id:version` entries: the command-line option
      when it is set, the application property otherwise. */
  function PluginVersionEntries(option: Option<string>, property: string): (r: seq<string>)
    ensures option.Some? ==> r == JS.Split(option.value, ",")
    ensures option.None? ==> r == JS.Split(property, ",")
  {
    JS.Split(if option.Some? then option.value else property, ",")
  }

  /** One entry: skipped when the conversion helper `isNullOrEmpty` says
      it is empty, otherwise split at ':' into the id and the version; an
      entry without a second piece makes the index fail. */
  function ParseEntry(entry: string, isNullOrEmpty: string -> bool): (r: Result<Option<(string, string)>, string>)
    ensures isNullOrEmpty(entry) ==> r == Success(None)
    ensures !isNullOrEmpty(entry) && |JS.Split(entry, ":")| < 2 ==> r.Failure?
    ensures !isNullOrEmpty(entry) && |JS.Split(entry, ":")| >= 2 ==>
      r == Success(Some((JS.Split(entry, ":")[0], JS.Split(entry, ":")[1])))
  {
    if isNullOrEmpty(entry) then Success(None)
    else
      var versionString := JS.Split(entry, ":");
      if |versionString| < 2 then Failure("ArrayIndexOutOfBoundsException")
      else Success(Some((versionString[0], versionString[1])))
  }

  predicate EntryFails(entry: string, isNullOrEmpty: string -> bool) {
    ParseEntry(entry, isNullOrEmpty).Failure?
  }

  /** A parsed entry for the plugin `id`. */
  predicate EntryFor(e: Result<Option<(string, string)>, string>, id: string) {
    e.Success? && e.value.Some? && e.value.value.0 == id
  }

  /** Reference definition: the version of the last entry for `id`. */
  function LastVersion(entries: seq<string>, id: string, isNullOrEmpty: string -> bool): Option<string>
  {
    if |entries| == 0 then None
    else
      var e := ParseEntry(entries[|entries| - 1], isNullOrEmpty);
      if EntryFor(e, id) then Some(e.value.value.1) else LastVersion(entries[..|entries| - 1], id, isNullOrEmpty)
  }

  /** A version found is that of some entry for the id; none is found only
      when no entry is for the id. */
  lemma {:induction false} LastVersionFound(entries: seq<string>, id: string, isNullOrEmpty: string -> bool)
    ensures var r := LastVersion(entries, id, isNullOrEmpty);
      r.Some? ==> exists i :: 0 <= i < |entries| && ParseEntry(entries[i], isNullOrEmpty) == Success(Some((id, r.value)))
    ensures LastVersion(entries, id, isNullOrEmpty).None? ==>
      forall i :: 0 <= i < |entries| ==> !EntryFor(ParseEntry(entries[i], isNullOrEmpty), id)
  {
    if |entries| > 0 && !EntryFor(ParseEntry(entries[|entries| - 1], isNullOrEmpty), id) {
      var init := entries[..|entries| - 1];
      LastVersionFound(init, id, isNullOrEmpty);
      assert forall i :: 0 <= i < |init| ==> init[i] == entries[i];
    }
  }

  /** The map the loop of `getUsedPluginVersion` fills from the entries
      (failing entries stop the loop and are not looked at here). */
  function Versions(entries: seq<string>, isNullOrEmpty: string -> bool): (m: map<string, string>)
  {
    if |entries| == 0 then map[]
    else
      var m := Versions(entries[..|entries| - 1], isNullOrEmpty);
      var e := ParseEntry(entries[|entries| - 1], isNullOrEmpty);
      if e.Success? && e.value.Some? then m[e.value.value.0 := e.value.value.1] else m
  }

  /** The filled map holds exactly the last version of every id. */
  lemma {:induction false} VersionsAreLast(entries: seq<string>, id: string, isNullOrEmpty: string -> bool)
    ensures id in Versions(entries, isNullOrEmpty) <==> LastVersion(entries, id, isNullOrEmpty).Some?
    ensures id in Versions(entries, isNullOrEmpty) ==>
      Versions(entries, isNullOrEmpty)[id] == LastVersion(entries, id, isNullOrEmpty).value
  {
    if |entries| > 0 {
      VersionsAreLast(entries[..|entries| - 1], id, isNullOrEmpty);
    }
  }

  /** One more entry that does not fail extends the filled map by its pair,
      if it has one. */
  lemma VersionsStep(entries: seq<string>, i: nat, isNullOrEmpty: string -> bool)
    requires i < |entries| && !EntryFails(entries[i], isNullOrEmpty)
    ensures var e := ParseEntry(entries[i], isNullOrEmpty); var m := Versions(entries[..i], isNullOrEmpty);
      Versions(entries[..i + 1], isNullOrEmpty) == if e.value.Some? then m[e.value.value.0 := e.value.value.1] else m
  {
    assert entries[..i + 1][..i] == entries[..i];
  }

  /** `getUsedPluginVersion(id)`: the entries go into a map in order, so a
      later entry for an id overrides an earlier one; an id without an
      entry gets the development version. */
  method UsedPluginVersion(entries: seq<string>, id: string, develop: string, isNullOrEmpty: string -> bool)
    returns (r: Result<string, string>)
    ensures r.Failure? <==> exists i :: 0 <= i < |entries| && EntryFails(entries[i], isNullOrEmpty)
    ensures r.Success? ==> r.value == LastVersion(entries, id, isNullOrEmpty).GetOr(develop)
  {
    var pluginVersions: map<string, string> := map[];
    var i := 0;
    while i < |entries|
      invariant 0 <= i <= |entries|
      invariant forall j :: 0 <= j < i ==> !EntryFails(entries[j], isNullOrEmpty)
      invariant pluginVersions == Versions(entries[..i], isNullOrEmpty)
    {
      var e := ParseEntry(entries[i], isNullOrEmpty);
      if e.Failure? {
        assert EntryFails(entries[i], isNullOrEmpty);
        return Failure(e.error);
      }
      VersionsStep(entries, i, isNullOrEmpty);
      if e.value.Some? {
        pluginVersions := pluginVersions[e.value.value.0 := e.value.value.1];
      }
      i := i + 1;
    }
    assert entries[..i] == entries;
    assert forall j :: 0 <= j < |entries| ==> !EntryFails(entries[j], isNullOrEmpty);
    VersionsAreLast(entries, id, isNullOrEmpty);
    if id in pluginVersions {
      return Success(pluginVersions[id]);
    }
    return Success(develop);
  }

  /** An entry appended for an id decides that id's version; other ids keep
      theirs. The helper must not take the entry for an empty one. */
  lemma {:induction false} LaterEntryOverrides(entries: seq<string>, id: string, version: string, other: string,
                                              isNullOrEmpty: string -> bool)
    requires JS.Avoids(id, ':') && JS.Avoids(version, ':') && version != ""
    requires !isNullOrEmpty(id + ":" + version)
    requires other != id
    ensures LastVersion(entries + [id + ":" + version], id, isNullOrEmpty) == Some(version)
    ensures LastVersion(entries + [id + ":" + version], other, isNullOrEmpty) == LastVersion(entries, other, isNullOrEmpty)
  {
    var entry := id + ":" + version;
    assert JS.Join([id, version], ":") == entry by {
      assert JS.Join([id, version][1..], ":") == version;
    }
    JS.SplitJoin([id, version], ":");
    var es := entries + [entry];
    assert es[..|es| - 1] == entries;
  }

  // ---------------------------------------------------------------------
  // Input and output directories
  // ---------------------------------------------------------------------

  /** The settings `--useiodir` makes. */
  datatype IODirectories = IODirectories(useSingleIODirectory: bool, baseInputDirectory: string, baseOutputDirectory: string)

  /** `--useiodir in[,out]`: one directory serves for both, two are input
      and output; no directory or more than two are an error. */
  function UseIODir(directories: seq<string>): (r: Result<IODirectories, string>)
    ensures r.Success? <==> 1 <= |directories| <= 2
    ensures r.Success? ==> (r.value.useSingleIODirectory <==> |directories| == 1)
    ensures r.Success? ==> r.value.baseInputDirectory == directories[0]
    ensures r.Success? && |directories| == 2 ==> r.value.baseOutputDirectory == directories[1]
  {
    if |directories| == 0 || |directories| > 2 then Failure("Arguments for --useiodir are wrong")
    else
      var single := |directories| == 1;
      var input := directories[0];
      Success(IODirectories(single, input, if single then input else directories[1]))
  }

  /** The directories the settings were made from. */
  function DirectoriesOf(io: IODirectories): (r: seq<string>)
    ensures |r| == if io.useSingleIODirectory then 1 else 2
  {
    if io.useSingleIODirectory then [io.baseInputDirectory] else [io.baseInputDirectory, io.baseOutputDirectory]
  }

  /** The settings give back the argument list, and a single directory is
      both input and output. */
  lemma UseIODirRoundTrip(directories: seq<string>)
    requires UseIODir(directories).Success?
    ensures DirectoriesOf(UseIODir(directories).value) == directories
    ensures UseIODir(directories).value.useSingleIODirectory ==>
      UseIODir(directories).value.baseOutputDirectory == UseIODir(directories).value.baseInputDirectory
  {
    if |directories| == 2 {
      assert directories == [directories[0], directories[1]];
    }
  }
}
