/** `versionsInfo.txt`, written by Roddy into every execution directory: a
    `Roddy version:` header, a `Library info:` line and one `Loaded plugin`
    line per plugin. `ReadVersionInfo` is `read_version_info`: the header must
    match or the whole read fails; plugin lines that do not match are skipped;
    a later line for the same plugin overrides an earlier one. */
module VersionInfo {
  import opened Wrappers
  import opened PyText
  import opened DecimalDigits
  import PF = ParameterFiles

  const RODDY_PREFIX: string := "Roddy version: "
  const PLUGIN_PREFIX: string := "Loaded plugin "
  const DEVELOP: string := "develop"
  const RODDY_KEY: string := "Roddy"

  /** Three non-empty digit groups separated by dots. */
  predicate IsVersionTriple(v: string) {
    exists a, b :: 0 < a && a + 1 < b && b + 1 < |v| && v[a] == '.' && v[b] == '.'
      && forall j :: 0 <= j < |v| && j != a && j != b ==> IsDecimalDigit(v[j])
  }

  /** `re.match(r"Roddy version: (\d+\.\d+\.\d+|develop)", s)`: the first
      alternative with the longest digit runs, otherwise `develop`. Nothing
      needs to follow the match. */
  function RoddyVersion(s: string): (r: Option<string>)
    ensures r.Some? ==> |RODDY_PREFIX + r.value| <= |s| && s[..|RODDY_PREFIX + r.value|] == RODDY_PREFIX + r.value
    ensures r.Some? ==> r.value == DEVELOP || IsVersionTriple(r.value)
  {
    if |s| < |RODDY_PREFIX| || s[..|RODDY_PREFIX|] != RODDY_PREFIX then None
    else
      var u := s[|RODDY_PREFIX|..];
      assert s == RODDY_PREFIX + u;
      var r := VersionAfterPrefix(u);
      VersionAfterPrefixShape(u);
      assert r.Some? ==> s[..|RODDY_PREFIX + r.value|] == RODDY_PREFIX + r.value;
      r
  }

  /** The group of the version pattern, matched at the start of `u`. */
  function VersionAfterPrefix(u: string): (r: Option<string>)
    ensures r.Some? ==> |r.value| <= |u| && u[..|r.value|] == r.value
  {
    var a := DigitRun(u, 0);
    var b := if a < |u| then DigitRun(u, a + 1) else 0;
    var c := if a + 1 + b < |u| then DigitRun(u, a + b + 2) else 0;
    if a > 0 && a < |u| && u[a] == '.' && b > 0 && a + 1 + b < |u| && u[a + 1 + b] == '.' && c > 0 then
      Some(u[..a + b + 2 + c])
    else if |u| >= |DEVELOP| && u[..|DEVELOP|] == DEVELOP then Some(DEVELOP)
    else None
  }

  /** What the version group holds: `develop` or three digit runs joined by
      dots. */
  lemma VersionAfterPrefixShape(u: string)
    ensures VersionAfterPrefix(u).Some? ==> VersionAfterPrefix(u).value == DEVELOP || IsVersionTriple(VersionAfterPrefix(u).value)
  {
    var a := DigitRun(u, 0);
    var b := if a < |u| then DigitRun(u, a + 1) else 0;
    var c := if a + 1 + b < |u| then DigitRun(u, a + b + 2) else 0;
    if a > 0 && a < |u| && u[a] == '.' && b > 0 && a + 1 + b < |u| && u[a + 1 + b] == '.' && c > 0 {
      VersionAfterPrefixOfRuns(u, a, b, c);
      TripleOfRuns(u, a, b, c);
    } else {
      assert VersionAfterPrefix(u) == if |u| >= |DEVELOP| && u[..|DEVELOP|] == DEVELOP then Some(DEVELOP) else None;
    }
  }

  /** Three digit runs joined by dots make a version triple. */
  lemma TripleOfRuns(u: string, a: nat, b: nat, c: nat)
    requires 0 < a < |u| && DigitRun(u, 0) == a && u[a] == '.'
    requires 0 < b && a + 1 + b < |u| && DigitRun(u, a + 1) == b && u[a + 1 + b] == '.'
    requires 0 < c && DigitRun(u, a + b + 2) == c
    ensures IsVersionTriple(u[..a + b + 2 + c])
  {
    DigitRunDigits(u, 0);
    DigitRunDigits(u, a + 1);
    DigitRunDigits(u, a + b + 2);
    var v := u[..a + b + 2 + c];
    forall j | 0 <= j < |v| && j != a && j != a + 1 + b
      ensures IsDecimalDigit(v[j])
    {
      assert v[j] == u[j];
    }
    assert v[a] == '.' && v[a + 1 + b] == '.';
  }

  /** A header naming a release reports exactly that release, however the
      line continues after a non-digit. `a` and `b` are the positions of the
      release's two dots. */
  lemma RoddyVersionOfRelease(v: string, a: nat, b: nat, rest: string)
    requires 0 < a && a + 1 < b && b + 1 < |v| && v[a] == '.' && v[b] == '.'
    requires forall j :: 0 <= j < |v| && j != a && j != b ==> IsDecimalDigit(v[j])
    requires |rest| > 0 ==> !IsDecimalDigit(rest[0])
    ensures RoddyVersion(RODDY_PREFIX + v + rest) == Some(v)
  {
    var s := RODDY_PREFIX + v + rest;
    var u := v + rest;
    assert s == RODDY_PREFIX + u;
    assert s[..|RODDY_PREFIX|] == RODDY_PREFIX;
    assert s[|RODDY_PREFIX|..] == u;
    VersionAfterPrefixOfRelease(v, a, b, rest);
  }

  lemma VersionAfterPrefixOfRelease(v: string, a: nat, b: nat, rest: string)
    requires 0 < a && a + 1 < b && b + 1 < |v| && v[a] == '.' && v[b] == '.'
    requires forall j :: 0 <= j < |v| && j != a && j != b ==> IsDecimalDigit(v[j])
    requires |rest| > 0 ==> !IsDecimalDigit(rest[0])
    ensures VersionAfterPrefix(v + rest) == Some(v)
  {
    var u := v + rest;
    ReleaseRuns(v, a, b, rest);
    ReleaseLayout(v, a, b, rest);
    assert u[..a + (b - a - 1) + 2 + (|v| - b - 1)] == v;
    VersionAfterPrefixOfRuns(u, a, b - a - 1, |v| - b - 1);
  }

  /** The version pattern matches three non-empty digit runs joined by
      dots. */
  lemma VersionAfterPrefixOfRuns(u: string, a: nat, b: nat, c: nat)
    requires 0 < a < |u| && DigitRun(u, 0) == a && u[a] == '.'
    requires 0 < b && a + 1 + b < |u| && DigitRun(u, a + 1) == b && u[a + 1 + b] == '.'
    requires 0 < c && DigitRun(u, a + b + 2) == c
    ensures VersionAfterPrefix(u) == Some(u[..a + b + 2 + c])
  {
    assert a < |u| && a + 1 + b < |u|;
    assert DigitRun(u, a + 1) == b && DigitRun(u, a + b + 2) == c;
  }

  /** The three digit runs of a release header. */
  lemma ReleaseRuns(v: string, a: nat, b: nat, rest: string)
    requires 0 < a && a + 1 < b && b + 1 < |v| && v[a] == '.' && v[b] == '.'
    requires forall j :: 0 <= j < |v| && j != a && j != b ==> IsDecimalDigit(v[j])
    requires |rest| > 0 ==> !IsDecimalDigit(rest[0])
    ensures DigitRun(v + rest, 0) == a
    ensures DigitRun(v + rest, a + 1) == b - a - 1
    ensures DigitRun(v + rest, b + 1) == |v| - b - 1
  {
    ReleaseLayout(v, a, b, rest);
    DigitRunsBetweenDots(v + rest, a, b, |v|);
  }

  /** The digit runs of a text whose first `n` characters are digits except
      for dots at `a` and `b`, followed by a non-digit or the end. */
  lemma DigitRunsBetweenDots(u: string, a: nat, b: nat, n: nat)
    requires 0 < a && a + 1 < b && b + 1 < n <= |u| && u[a] == '.' && u[b] == '.'
    requires forall j :: 0 <= j < n && j != a && j != b ==> IsDecimalDigit(u[j])
    requires n < |u| ==> !IsDecimalDigit(u[n])
    ensures DigitRun(u, 0) == a
    ensures DigitRun(u, a + 1) == b - a - 1
    ensures DigitRun(u, b + 1) == n - b - 1
  {
    assert DottedDigits(u, a, b, n);
    DigitRunBetween(u, 0, a, a, b, n);
    DigitRunBetween(u, a + 1, b, a, b, n);
    DigitRunBetween(u, b + 1, n, a, b, n);
  }

  /** The first `n` characters of `u` are digits except for dots at `a` and
      `b`, and a non-digit or the end follows. */
  predicate DottedDigits(u: string, a: nat, b: nat, n: nat) {
    a < n && b < n && n <= |u| && u[a] == '.' && u[b] == '.'
    && (forall j :: 0 <= j < n && j != a && j != b ==> IsDecimalDigit(u[j]))
    && (n < |u| ==> !IsDecimalDigit(u[n]))
  }

  /** One digit run of such a text, from `i` up to the next dot or `n`. */
  lemma DigitRunBetween(u: string, i: nat, e: nat, a: nat, b: nat, n: nat)
    requires DottedDigits(u, a, b, n)
    requires i <= e && (e == a || e == b || e == n)
    requires (a < i || e <= a) && (b < i || e <= b)
    ensures DigitRun(u, i) == e - i
  {
    DigitRunExact(u, i, e - i);
  }

  lemma ReleaseLayout(v: string, a: nat, b: nat, rest: string)
    requires 0 < a && a + 1 < b && b + 1 < |v| && v[a] == '.' && v[b] == '.'
    requires forall j :: 0 <= j < |v| && j != a && j != b ==> IsDecimalDigit(v[j])
    requires |rest| > 0 ==> !IsDecimalDigit(rest[0])
    ensures forall j :: 0 <= j < |v| && j != a && j != b ==> IsDecimalDigit((v + rest)[j])
    ensures (v + rest)[a] == '.' && (v + rest)[b] == '.'
    ensures |v| < |v + rest| ==> !IsDecimalDigit((v + rest)[|v|])
  {
  }

  lemma {:induction false} DigitRunExact(t: string, i: nat, n: nat)
    requires i + n <= |t|
    requires forall j :: i <= j < i + n ==> IsDecimalDigit(t[j])
    requires i + n < |t| ==> !IsDecimalDigit(t[i + n])
    ensures DigitRun(t, i) == n
    decreases n
  {
    if n > 0 {
      DigitRunExact(t, i + 1, n - 1);
    }
  }

  /** Largest index in `[1, i]` holding a colon, or 0. */
  function LastColon(u: string, i: int): (c: nat)
    requires i < |u|
    ensures c == 0 || (1 <= c <= i && u[c] == ':')
    ensures forall j :: c < j <= i && j >= 1 ==> u[j] != ':'
    decreases i
  {
    if i < 1 then 0 else if u[i] == ':' then i else LastColon(u, i - 1)
  }

  /** `re.match(r"Loaded plugin (\S+):(\S+)\sfrom.+", s)`. The plugin name is
      greedy, so it runs to the LAST colon of the first blank-free word that
      still leaves a non-empty version; the version runs to the end of that
      word; one whitespace character, `from` and at least one more character
      (not a line feed) must follow. */
  function PluginLine(s: string): (r: Option<(string, string)>)
  {
    if |s| < |PLUGIN_PREFIX| || s[..|PLUGIN_PREFIX|] != PLUGIN_PREFIX then None
    else
      var u := s[|PLUGIN_PREFIX|..];
      var n := NonSpaceRun(u, 0);
      if n < 3 || n + 6 > |u| || u[n + 1..n + 5] != "from" || u[n + 5] == '\n' then None
      else
        var c := LastColon(u, n - 2);
        if c == 0 then None
        else Some((u[..c], u[c + 1..n]))
  }

  /** A matched plugin line starts with the prefix, the non-empty blank-free
      name, a colon and the non-empty blank-free version, followed by a
      whitespace character. */
  lemma PluginLineShape(s: string)
    requires PluginLine(s).Some?
    ensures var r := PluginLine(s).value;
      |r.0| > 0 && |r.1| > 0 && NoSpace(r.0) && NoSpace(r.1)
    ensures var r := PluginLine(s).value;
      var head := PLUGIN_PREFIX + r.0 + ":" + r.1;
      |head| < |s| && s[..|head|] == head && IsSpace(s[|head|])
  {
    var u := s[|PLUGIN_PREFIX|..];
    var n := NonSpaceRun(u, 0);
    PluginHead(s, u, n, LastColon(u, n - 2));
  }

  /** The name and version cut from the first blank-free word of a plugin
      line, at a colon `c`, rebuild the start of the line. */
  lemma PluginHead(s: string, u: string, n: nat, c: nat)
    requires |PLUGIN_PREFIX| <= |s| && s[..|PLUGIN_PREFIX|] == PLUGIN_PREFIX && u == s[|PLUGIN_PREFIX|..]
    requires 0 < c < n - 1 && n < |u| && u[c] == ':'
    requires forall j :: 0 <= j < n ==> !IsSpace(u[j])
    requires IsSpace(u[n])
    ensures NoSpace(u[..c]) && NoSpace(u[c + 1..n])
    ensures var head := PLUGIN_PREFIX + u[..c] + ":" + u[c + 1..n];
      |head| < |s| && s[..|head|] == head && IsSpace(s[|head|])
  {
    var name := u[..c];
    var version := u[c + 1..n];
    assert forall j :: 0 <= j < |name| ==> name[j] == u[j];
    assert forall j :: 0 <= j < |version| ==> version[j] == u[c + 1 + j];
    assert s == PLUGIN_PREFIX + u;
    assert u[..n] == name + ":" + version;
    assert s[..|PLUGIN_PREFIX| + n] == PLUGIN_PREFIX + u[..n];
    assert PLUGIN_PREFIX + (name + ":" + version) == PLUGIN_PREFIX + name + ":" + version;
  }

  /** A plugin line as Roddy writes it parses to the plugin's name and
      version. */
  lemma PluginLineParses(name: string, version: string, location: string)
    requires |name| > 0 && NoSpace(name)
    requires |version| > 0 && NoSpace(version) && Avoids(version, ':')
    ensures PluginLine(PLUGIN_PREFIX + name + ":" + version + " from " + location) == Some((name, version))
  {
    var s := PLUGIN_PREFIX + name + ":" + version + " from " + location;
    var u := name + ":" + version + " from " + location;
    assert s == PLUGIN_PREFIX + u;
    PluginWord(name, version, location);
    PluginTail(name, version, location);
    PluginLineOf(s, |name| + 1 + |version|, |name|);
  }

  /** Where the parts of a plugin line sit in the text after the prefix. */
  lemma PluginTail(name: string, version: string, location: string)
    ensures var u := name + ":" + version + " from " + location; var n := |name| + 1 + |version|;
      n + 6 <= |u| && u[n + 1..n + 5] == "from" && u[n + 5] == ' '
      && u[..|name|] == name && u[|name| + 1..n] == version
  {
    var w := name + ":" + version;
    var u := w + " from " + location;
    assert u[|w| + 1..|w| + 5] == "from";
    assert u[..|name|] == w[..|name|] == name;
    assert u[|name| + 1..|w|] == w[|name| + 1..] == version;
  }

  /** The match of a plugin line, given its blank-free word's length `n`
      and the word's last colon `c`. */
  lemma PluginLineOf(s: string, n: nat, c: nat)
    requires exists u :: s == PLUGIN_PREFIX + u
    requires var u := s[|PLUGIN_PREFIX|..];
      NonSpaceRun(u, 0) == n && 3 <= n && n + 6 <= |u| && u[n + 1..n + 5] == "from" && u[n + 5] != '\n'
      && LastColon(u, n - 2) == c && c != 0
    ensures PluginLine(s) == Some((s[|PLUGIN_PREFIX|..][..c], s[|PLUGIN_PREFIX|..][c + 1..n]))
  {
  }

  /** The blank-free word of a plugin line and its last colon. */
  lemma PluginWord(name: string, version: string, location: string)
    requires |name| > 0 && NoSpace(name)
    requires |version| > 0 && NoSpace(version) && Avoids(version, ':')
    ensures NonSpaceRun(name + ":" + version + " from " + location, 0) == |name| + 1 + |version|
    ensures LastColon(name + ":" + version + " from " + location, |name| + |version| - 1) == |name|
  {
    var w := name + ":" + version;
    var u := w + " from " + location;
    assert forall j :: 0 <= j < |w| ==> !IsSpace(u[j]) by {
      forall j | 0 <= j < |w| ensures !IsSpace(u[j]) {
        assert u[j] == w[j];
        if j < |name| { assert w[j] == name[j]; }
        else if j > |name| { assert w[j] == version[j - |name| - 1]; }
      }
    }
    assert u[|w|] == ' ';
    NonSpaceRunExact(u, 0, |w|);
    var n := |w|;
    assert u[|name|] == ':';
    assert forall j :: |name| < j <= n - 2 ==> u[j] != ':' by {
      forall j | |name| < j <= n - 2 ensures u[j] != ':' {
        assert u[j] == version[j - |name| - 1];
      }
    }
    LastColonExact(u, n - 2, |name|);
  }

  lemma {:induction false} NonSpaceRunExact(t: string, i: nat, n: nat)
    requires i + n <= |t|
    requires forall j :: i <= j < i + n ==> !IsSpace(t[j])
    requires i + n < |t| ==> IsSpace(t[i + n])
    ensures NonSpaceRun(t, i) == n
    decreases n
  {
    if n > 0 {
      NonSpaceRunExact(t, i + 1, n - 1);
    }
  }

  lemma {:induction false} LastColonExact(u: string, i: int, c: nat)
    requires i < |u| && 1 <= c <= i && u[c] == ':'
    requires forall j :: c < j <= i ==> u[j] != ':'
    ensures LastColon(u, i) == c
    decreases i
  {
    if i > c {
      LastColonExact(u, i - 1, c);
    }
  }

  /** One line after the header: stripped, skipped when empty, otherwise
      matched as a plugin line. */
  function PluginEntry(line: string): Option<(string, string)> {
    var s := RStrip(line);
    if s == "" then None else PluginLine(s)
  }

  function PluginEntries(lines: seq<string>): (ds: seq<Option<(string, string)>>)
    ensures |ds| == |lines|
    ensures forall i :: 0 <= i < |lines| ==> ds[i] == PluginEntry(lines[i])
  {
    seq(|lines|, i requires 0 <= i < |lines| => PluginEntry(lines[i]))
  }

  /** The lines after the two header lines (the second, `Library info:`, is
      read and dropped). */
  function BodyLines(lines: seq<string>): seq<string> {
    if |lines| >= 2 then lines[2..] else []
  }

  function FirstLine(lines: seq<string>): string {
    if |lines| > 0 then RStrip(lines[0]) else ""
  }

  /** `read_version_info` on the file's lines. `Failure` carries the
      unparsable header (the RuntimeError). */
  function ReadVersionInfo(lines: seq<string>): (r: Result<map<string, string>, string>)
    ensures r.Failure? <==> RoddyVersion(FirstLine(lines)).None?
    ensures r.Failure? ==> r.error == FirstLine(lines)
    ensures r.Success? ==> RODDY_KEY in r.value
  {
    match RoddyVersion(FirstLine(lines))
    case None => Failure(FirstLine(lines))
    case Some(v) => Success(map[RODDY_KEY := v] + PF.Assignments(PluginEntries(BodyLines(lines))))
  }

  /** The components listed are Roddy and exactly the plugins some body line
      names; Roddy's version is the header's unless a plugin line is named
      `Roddy`; a plugin's version is the one on its last line. */
  lemma ReadVersionInfoSpec(lines: seq<string>, key: string)
    requires ReadVersionInfo(lines).Success?
    ensures var m := ReadVersionInfo(lines).value;
      key in m <==> key == RODDY_KEY || exists i :: PF.DeclaresAt(PluginEntries(BodyLines(lines)), i, key)
    ensures var m := ReadVersionInfo(lines).value;
      key == RODDY_KEY && !(exists i :: PF.DeclaresAt(PluginEntries(BodyLines(lines)), i, key))
      ==> m[key] == RoddyVersion(FirstLine(lines)).value
    ensures var ds := PluginEntries(BodyLines(lines));
      forall i :: (PF.DeclaresAt(ds, i, key) && (forall j :: i < j < |ds| ==> !PF.DeclaresAt(ds, j, key)))
        ==> ReadVersionInfo(lines).value[key] == ds[i].value.1
  {
    var ds := PluginEntries(BodyLines(lines));
    PF.AssignmentsKeys(ds, key);
    forall i | PF.DeclaresAt(ds, i, key) && (forall j :: i < j < |ds| ==> !PF.DeclaresAt(ds, j, key))
      ensures ReadVersionInfo(lines).value[key] == ds[i].value.1
    {
      PF.LastAssignmentWins(ds, i);
    }
  }

  const PLUGIN_AQC: string := "AlignmentAndQCWorkflows"
  const PLUGIN_CO: string := "COWorkflows"
  const PLUGIN_BASE: string := "PluginBase"
  const PLUGIN_DEFAULT: string := "DefaultPlugin"

  /** A plugin line as Roddy writes it, with its line feed. */
  function PluginLineText(name: string, version: string, location: string): string {
    PLUGIN_PREFIX + name + ":" + version + " from " + location + "\n"
  }

  /** The version file of the script's own test: header, library line, four
      plugin lines and a blank last line. The directories the plugins were
      loaded from are parameters: they are irrelevant to the result. */
  function ExampleLines(locs: seq<string>): seq<string>
    requires |locs| == 4
  {
    [ RODDY_PREFIX + "3.5.9" + "\n",
      "Library info:\n",
      PluginLineText(PLUGIN_AQC, "1.2.51-1", locs[0]),
      PluginLineText(PLUGIN_CO, "1.2.66-1", locs[1]),
      PluginLineText(PLUGIN_BASE, "1.2.1-0", locs[2]),
      PluginLineText(PLUGIN_DEFAULT, "1.2.2-0", locs[3]),
      "        " ]
  }

  /** Locations as Roddy prints them: `((<directory>))`. */
  predicate IsLocation(loc: string) {
    |loc| > 0 && loc[|loc| - 1] == ')'
  }

  lemma ExampleVersionInfo(locs: seq<string>)
    requires |locs| == 4 && forall i :: 0 <= i < 4 ==> IsLocation(locs[i])
    ensures ReadVersionInfo(ExampleLines(locs)) == Success(map[
      RODDY_KEY := "3.5.9", PLUGIN_AQC := "1.2.51-1", PLUGIN_CO := "1.2.66-1",
      PLUGIN_BASE := "1.2.1-0", PLUGIN_DEFAULT := "1.2.2-0"])
  {
    var lines := ExampleLines(locs);
    HeaderExample();
    assert FirstLine(lines) == RODDY_PREFIX + "3.5.9";
    ExampleEntries(locs);
    ExampleAssignments();
  }

  lemma ExampleEntries(locs: seq<string>)
    requires |locs| == 4 && forall i :: 0 <= i < 4 ==> IsLocation(locs[i])
    ensures PluginEntries(BodyLines(ExampleLines(locs)))
         == [Some((PLUGIN_AQC, "1.2.51-1")), Some((PLUGIN_CO, "1.2.66-1")),
             Some((PLUGIN_BASE, "1.2.1-0")), Some((PLUGIN_DEFAULT, "1.2.2-0")), None]
  {
    var body := BodyLines(ExampleLines(locs));
    var es := [Some((PLUGIN_AQC, "1.2.51-1")), Some((PLUGIN_CO, "1.2.66-1")),
               Some((PLUGIN_BASE, "1.2.1-0")), Some((PLUGIN_DEFAULT, "1.2.2-0")), None];
    assert |body| == 5;
    forall i | 0 <= i < 5 ensures PluginEntry(body[i]) == es[i] {
      if i == 0 {
        ExampleAQC(locs[0]);
      } else if i == 1 {
        ExampleCO(locs[1]);
      } else if i == 2 {
        ExampleBase(locs[2]);
      } else if i == 3 {
        ExampleDefault(locs[3]);
      } else {
        ExampleBlankLine();
      }
    }
    EntriesOf(body, es);
  }

  /** Lines whose entries are known one by one. */
  lemma EntriesOf(lines: seq<string>, es: seq<Option<(string, string)>>)
    requires |lines| == |es| && forall i :: 0 <= i < |lines| ==> PluginEntry(lines[i]) == es[i]
    ensures PluginEntries(lines) == es
  {
  }

  /** Each plugin line of the example parses to its plugin's name and
      version. */
  lemma ExampleAQC(loc: string)
    requires IsLocation(loc)
    ensures PluginEntry(PluginLineText(PLUGIN_AQC, "1.2.51-1", loc)) == Some((PLUGIN_AQC, "1.2.51-1"))
  {
    PluginExample(PLUGIN_AQC, "1.2.51-1", loc);
  }

  lemma ExampleCO(loc: string)
    requires IsLocation(loc)
    ensures PluginEntry(PluginLineText(PLUGIN_CO, "1.2.66-1", loc)) == Some((PLUGIN_CO, "1.2.66-1"))
  {
    PluginExample(PLUGIN_CO, "1.2.66-1", loc);
  }

  lemma ExampleBase(loc: string)
    requires IsLocation(loc)
    ensures PluginEntry(PluginLineText(PLUGIN_BASE, "1.2.1-0", loc)) == Some((PLUGIN_BASE, "1.2.1-0"))
  {
    PluginExample(PLUGIN_BASE, "1.2.1-0", loc);
  }

  lemma ExampleDefault(loc: string)
    requires IsLocation(loc)
    ensures PluginEntry(PluginLineText(PLUGIN_DEFAULT, "1.2.2-0", loc)) == Some((PLUGIN_DEFAULT, "1.2.2-0"))
  {
    PluginExample(PLUGIN_DEFAULT, "1.2.2-0", loc);
  }

  /** The indented last line of the test buffer is blank. */
  lemma ExampleBlankLine()
    ensures PluginEntry("        ") == None
  {
    var ws := "        ";
    assert AllSpace(ws);
    RStripTrailing("", ws);
    assert "" + ws == ws;
  }

  lemma ExampleAssignments()
    ensures map[RODDY_KEY := "3.5.9"]
      + PF.Assignments([Some((PLUGIN_AQC, "1.2.51-1")), Some((PLUGIN_CO, "1.2.66-1")),
                        Some((PLUGIN_BASE, "1.2.1-0")), Some((PLUGIN_DEFAULT, "1.2.2-0")), None])
      == map[RODDY_KEY := "3.5.9", PLUGIN_AQC := "1.2.51-1", PLUGIN_CO := "1.2.66-1",
             PLUGIN_BASE := "1.2.1-0", PLUGIN_DEFAULT := "1.2.2-0"]
  {
    var ds := [Some((PLUGIN_AQC, "1.2.51-1")), Some((PLUGIN_CO, "1.2.66-1")),
               Some((PLUGIN_BASE, "1.2.1-0")), Some((PLUGIN_DEFAULT, "1.2.2-0")), None];
    assert ds[..4] == [Some((PLUGIN_AQC, "1.2.51-1")), Some((PLUGIN_CO, "1.2.66-1")),
               Some((PLUGIN_BASE, "1.2.1-0")), Some((PLUGIN_DEFAULT, "1.2.2-0"))];
    assert ds[..4][..3] == ds[..3] && ds[..3][..2] == ds[..2] && ds[..2][..1] == ds[..1] && ds[..1][..0] == [];
    assert PF.Assignments(ds[..1]) == map[PLUGIN_AQC := "1.2.51-1"];
    assert PF.Assignments(ds[..2]) == map[PLUGIN_AQC := "1.2.51-1", PLUGIN_CO := "1.2.66-1"];
    assert PF.Assignments(ds[..3]) == map[PLUGIN_AQC := "1.2.51-1", PLUGIN_CO := "1.2.66-1", PLUGIN_BASE := "1.2.1-0"];
  }

  lemma HeaderExample()
    ensures RStrip(RODDY_PREFIX + "3.5.9" + "\n") == RODDY_PREFIX + "3.5.9"
    ensures RoddyVersion(RODDY_PREFIX + "3.5.9") == Some("3.5.9")
  {
    RStripTrailing(RODDY_PREFIX + "3.5.9", "\n");
    RoddyVersionOfRelease("3.5.9", 1, 3, "");
    assert RODDY_PREFIX + "3.5.9" + "" == RODDY_PREFIX + "3.5.9";
  }

  /** `\d` is not only ASCII: a header written in Arabic-Indic digits
      (3.5.9 as U+0663, U+0665, U+0669) is read, its digits kept as they are. */
  lemma NonAsciiHeaderExample()
    ensures RoddyVersion(RODDY_PREFIX + "\U{0663}.\U{0665}.\U{0669}") == Some("\U{0663}.\U{0665}.\U{0669}")
  {
    var v := "\U{0663}.\U{0665}.\U{0669}";
    assert forall j :: 0 <= j < |v| && j != 1 && j != 3 ==> 0x660 <= v[j] as int <= 0x669;
    RoddyVersionOfRelease(v, 1, 3, "");
    assert RODDY_PREFIX + "\U{0663}.\U{0665}.\U{0669}" + "" == RODDY_PREFIX + "\U{0663}.\U{0665}.\U{0669}";
  }

  /** A test plugin line (`name:version from (location)` and a line feed). */
  lemma PluginExample(name: string, version: string, location: string)
    requires |name| > 0 && NoSpace(name)
    requires |version| > 0 && NoSpace(version) && Avoids(version, ':')
    requires IsLocation(location)
    ensures PluginEntry(PluginLineText(name, version, location)) == Some((name, version))
  {
    var s := PLUGIN_PREFIX + name + ":" + version + " from " + location;
    assert s[|s| - 1] == ')';
    RStripTrailing(s, "\n");
    PluginLineParses(name, version, location);
  }
}
