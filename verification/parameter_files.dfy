/** Roddy's `.parameters` files: bash `declare` lines recorded for every job.
    `ParseParameterLine` follows the regular expression
    `declare(?:\s-\S)*\s+([^=]+)=(.+)` matched with `re.match` against the
    right-stripped line, including the order in which Python's backtracking
    engine tries the alternatives; `ParameterFileEntries` is the per-file
    loop where a later declaration of a name overrides an earlier one. */
module ParameterFiles {
  import opened Wrappers
  import opened PyText
  import JS = JavaStrings

  const DECLARE: string := "declare"

  /** One `\s-\S` repetition (a bash attribute flag such as ` -x`) at `i`. */
  predicate FlagAt(t: string, i: nat) {
    i + 3 <= |t| && IsSpace(t[i]) && t[i + 1] == '-' && !IsSpace(t[i + 2])
  }

  /** How many flag repetitions the greedy `(?:\s-\S)*` consumes from `i`. */
  function FlagRun(t: string, i: nat): (k: nat)
    requires i <= |t|
    ensures i + 3 * k <= |t|
    decreases |t| - i
  {
    if FlagAt(t, i) then 1 + FlagRun(t, i + 3) else 0
  }

  /** The run is the longest: a flag at each of the `k` steps, and none
      after them. */
  lemma {:induction false} FlagRunLongest(t: string, i: nat)
    requires i <= |t|
    ensures forall j :: 0 <= j < FlagRun(t, i) ==> FlagAt(t, i + 3 * j)
    ensures !FlagAt(t, i + 3 * FlagRun(t, i))
    decreases |t| - i
  {
    if FlagAt(t, i) {
      FlagRunLongest(t, i + 3);
      var k := FlagRun(t, i + 3);
      forall j | 1 <= j < 1 + k ensures FlagAt(t, i + 3 * j) {
        assert FlagAt(t, i + 3 + 3 * (j - 1));
      }
    }
  }

  /** `([^=]+)=(.+)` tried at `p`: the name runs to the first `=` after `p` and
      must not be empty; the value is at least one character and stops before
      a line feed. */
  function AssignmentAt(t: string, p: nat): (r: Option<(string, string)>)
    requires p <= |t|
    ensures r.Some? ==> |r.value.0| > 0 && |r.value.1| > 0
    ensures r.Some? ==> Avoids(r.value.0, '=') && Avoids(r.value.1, '\n')
  {
    var q := FirstFrom(t, '=', p);
    if q == p || q + 1 >= |t| || t[q + 1] == '\n' then None
    else
      var e := FirstFrom(t, '\n', q + 1);
      FirstFromFirst(t, '=', p);
      FirstFromFirst(t, '\n', q + 1);
      Some((t[p..q], t[q + 1..e]))
  }

  /** A matched assignment is laid out as `name=value` from `p` on, and on a
      text without line feeds it runs to the end. */
  lemma AssignmentLayout(t: string, p: nat)
    requires p <= |t| && AssignmentAt(t, p).Some?
    ensures var r := AssignmentAt(t, p).value;
      p + |r.0| + 1 + |r.1| <= |t| && t[p..p + |r.0| + 1 + |r.1|] == r.0 + "=" + r.1
    ensures var r := AssignmentAt(t, p).value;
      Avoids(t, '\n') ==> p + |r.0| + 1 + |r.1| == |t|
  {
    var q := FirstFrom(t, '=', p);
    var e := FirstFrom(t, '\n', q + 1);
    assert t[p..e] == t[p..q] + "=" + t[q + 1..e];
  }

  /** `\s+` of `len`, `len - 1`, ..., 1 characters after `start`, longest
      first: the first position where the assignment matches. */
  function TryLengths(t: string, start: nat, len: nat): (p: Option<nat>)
    requires start + len <= |t|
    ensures p.Some? ==> start < p.value <= start + len && AssignmentAt(t, p.value).Some?
    decreases len
  {
    if len == 0 then None
    else if AssignmentAt(t, start + len).Some? then Some(start + len)
    else TryLengths(t, start, len - 1)
  }

  /** The flag repetitions backtracked from `k` down to zero. */
  function TryFlags(t: string, k: nat): (p: Option<nat>)
    requires 3 * k <= |t|
    ensures p.Some? ==> 0 < p.value <= |t| && AssignmentAt(t, p.value).Some?
    decreases k
  {
    var found := TryLengths(t, 3 * k, SpaceRun(t, 3 * k));
    if found.Some? || k == 0 then found else TryFlags(t, k - 1)
  }

  /** The regular expression after its literal `declare`. */
  function MatchAfterDeclare(t: string): (r: Option<(string, string)>)
    ensures r.Some? ==> |r.value.0| > 0 && Avoids(r.value.0, '=')
    ensures r.Some? ==> |r.value.1| > 0 && Avoids(r.value.1, '\n')
  {
    match TryFlags(t, FlagRun(t, 0))
    case Some(p) => AssignmentAt(t, p)
    case None => None
  }

  /** On a text without line feeds a match ends the text with `name=value`. */
  lemma MatchAfterDeclareLayout(t: string)
    requires MatchAfterDeclare(t).Some? && Avoids(t, '\n')
    ensures var r := MatchAfterDeclare(t).value; JS.EndsWith(t, r.0 + "=" + r.1)
  {
    var p := TryFlags(t, FlagRun(t, 0)).value;
    AssignmentLayout(t, p);
  }

  /** `parse_parameter_line`: `Some((name, value))` when the line is a
      `declare` statement, `None` otherwise. */
  function ParseParameterLine(line: string): (r: Option<(string, string)>)
    ensures r.Some? ==> |RStrip(line)| >= |DECLARE| && RStrip(line)[..|DECLARE|] == DECLARE
    ensures r.Some? ==> |r.value.0| > 0 && Avoids(r.value.0, '=')
    ensures r.Some? ==> |r.value.1| > 0 && Avoids(r.value.1, '\n')
  {
    var s := RStrip(line);
    if |s| < |DECLARE| || s[..|DECLARE|] != DECLARE then None
    else MatchAfterDeclare(s[|DECLARE|..])
  }

  /** On a single line the name, `=` and the value end the stripped line. */
  lemma ParseParameterLineLayout(line: string)
    requires ParseParameterLine(line).Some? && Avoids(line, '\n')
    ensures var r := ParseParameterLine(line).value; JS.EndsWith(RStrip(line), r.0 + "=" + r.1)
  {
    var s := RStrip(line);
    NoNewlineAfterDeclare(line, s);
    MatchAfterDeclareLayout(s[|DECLARE|..]);
  }

  lemma NoNewlineAfterDeclare(line: string, s: string)
    requires s == RStrip(line) && |s| >= |DECLARE|
    ensures Avoids(line, '\n') ==> Avoids(s[|DECLARE|..], '\n')
    ensures forall tail :: JS.EndsWith(s[|DECLARE|..], tail) ==> JS.EndsWith(s, tail)
  {
    if Avoids(line, '\n') {
      var t := s[|DECLARE|..];
      forall j | 0 <= j < |t| ensures t[j] != '\n' {
        assert t[j] == line[|DECLARE| + j];
      }
    }
  }

  /** Bash attribute flags as `declare -p` prints them: ` -x -i`. */
  predicate IsFlags(f: string) {
    |f| % 3 == 0 && forall j :: 0 <= j < |f| / 3 ==> FlagAt(f, 3 * j)
  }

  /** Every `declare` line of the usual shape parses to its name and value:
      flags, a whitespace separator, a name that starts with neither
      whitespace nor `-` and holds no `=`, `=`, a one-line value, and any
      trailing whitespace. */
  lemma DeclareLineParses(flags: string, sep: string, name: string, value: string, trailing: string)
    requires IsFlags(flags)
    requires |sep| > 0 && AllSpace(sep)
    requires |name| > 0 && !IsSpace(name[0]) && name[0] != '-' && Avoids(name, '=')
    requires |value| > 0 && Avoids(value, '\n') && !IsSpace(value[|value| - 1])
    requires AllSpace(trailing)
    ensures ParseParameterLine(DECLARE + flags + sep + name + "=" + value + trailing) == Some((name, value))
  {
    var t := flags + sep + name + "=" + value;
    var line := DECLARE + flags + sep + name + "=" + value + trailing;
    assert line == (DECLARE + t) + trailing;
    RStripTrailing(DECLARE + t, trailing);
    var s := RStrip(line);
    assert s[..|DECLARE|] == DECLARE && s[|DECLARE|..] == t;
    AfterDeclareShape(flags, sep, name, value);
  }

  lemma AfterDeclareShape(flags: string, sep: string, name: string, value: string)
    requires IsFlags(flags)
    requires |sep| > 0 && AllSpace(sep)
    requires |name| > 0 && !IsSpace(name[0]) && name[0] != '-' && Avoids(name, '=')
    requires |value| > 0 && Avoids(value, '\n')
    ensures MatchAfterDeclare(flags + sep + name + "=" + value) == Some((name, value))
  {
    PrefixMatch(flags, sep, name, value);
    Regroup(flags + sep, name, value);
  }

  lemma PrefixMatch(flags: string, sep: string, name: string, value: string)
    requires IsFlags(flags)
    requires |sep| > 0 && AllSpace(sep)
    requires |name| > 0 && !IsSpace(name[0]) && name[0] != '-' && Avoids(name, '=')
    requires |value| > 0 && Avoids(value, '\n')
    ensures MatchAfterDeclare(flags + sep + (name + "=" + value)) == Some((name, value))
  {
    var post := name + "=" + value;
    assert post[0] == name[0];
    PrefixLayout(flags, sep, post);
    AssignmentAfterPrefix(flags + sep, name, value);
    MatchOfLayout(flags + sep + post, |flags| / 3, |flags| + |sep|, (name, value));
  }

  lemma Regroup(pre: string, name: string, value: string)
    ensures pre + (name + "=" + value) == pre + name + "=" + value
  {
  }

  /** The expression matches with `k` flags, the whitespace up to `p` and
      the assignment from `p` on. */
  lemma MatchOfLayout(t: string, k: nat, p: nat, r: (string, string))
    requires 3 * k < p <= |t|
    requires FlagRun(t, 0) == k && SpaceRun(t, 3 * k) == p - 3 * k
    requires AssignmentAt(t, p) == Some(r)
    ensures MatchAfterDeclare(t) == Some(r)
  {
    BacktrackStopsAt(t, k, p);
    MatchAfterDeclareAt(t, k, p);
  }

  /** The assignment of a `declare` line starts right after the separator. */
  lemma AssignmentAfterPrefix(pre: string, name: string, value: string)
    requires |name| > 0 && Avoids(name, '=')
    requires |value| > 0 && Avoids(value, '\n')
    ensures AssignmentAt(pre + (name + "=" + value), |pre|) == Some((name, value))
  {
    var t := pre + (name + "=" + value);
    assert t[|pre|..] == name + "=" + value;
    AssignmentOfShape(t, |pre|, name, value);
  }

  /** With `k` flags and the whitespace up to `p`, where the assignment
      matches, the backtracking stops at `p` without giving up a flag or a
      blank. */
  lemma BacktrackStopsAt(t: string, k: nat, p: nat)
    requires 3 * k < p <= |t|
    requires SpaceRun(t, 3 * k) == p - 3 * k
    requires AssignmentAt(t, p).Some?
    ensures TryFlags(t, k) == Some(p)
  {
    TryLengthsFirst(t, 3 * k, SpaceRun(t, 3 * k), p);
    TryFlagsFirst(t, k, p);
  }

  /** The match is the assignment where the backtracking stops. */
  lemma MatchAfterDeclareAt(t: string, k: nat, p: nat)
    requires FlagRun(t, 0) == k && 3 * k <= |t| && TryFlags(t, k) == Some(p)
    ensures p <= |t| && MatchAfterDeclare(t) == AssignmentAt(t, p)
  {
  }

  /** Where the flags and the separator of a `declare` line end. */
  lemma PrefixLayout(flags: string, sep: string, post: string)
    requires IsFlags(flags)
    requires |sep| > 0 && AllSpace(sep)
    requires |post| > 0 && !IsSpace(post[0]) && post[0] != '-'
    ensures 3 * (|flags| / 3) == |flags|
    ensures FlagRun(flags + sep + post, 0) == |flags| / 3
    ensures SpaceRun(flags + sep + post, |flags|) == |sep|
  {
    var rest := sep + post;
    assert rest[0] == sep[0];
    if |sep| >= 2 { assert rest[1] == sep[1]; } else { assert rest[1] == post[0]; }
    FlagRunOfFlags(flags, rest, 0);
    assert flags + rest == flags + sep + post;
    BlankRunAfter(flags, sep, post);
  }

  /** The whitespace run after `pre` covers exactly `sep` when a
      non-whitespace character follows. */
  lemma BlankRunAfter(pre: string, sep: string, post: string)
    requires AllSpace(sep) && |post| > 0 && !IsSpace(post[0])
    ensures SpaceRun(pre + sep + post, |pre|) == |sep|
  {
    var t := pre + sep + post;
    assert t[|pre| + |sep|] == post[0];
    forall j | |pre| <= j < |pre| + |sep| ensures IsSpace(t[j]) {
      assert t[j] == sep[j - |pre|];
    }
    SpaceRunExact(t, |pre|, |sep|);
  }

  lemma TryFlagsFirst(t: string, k: nat, p: nat)
    requires 3 * k <= |t| && TryLengths(t, 3 * k, SpaceRun(t, 3 * k)) == Some(p)
    ensures TryFlags(t, k) == Some(p)
  {
  }

  lemma TryLengthsFirst(t: string, start: nat, len: nat, p: nat)
    requires 0 < len && p == start + len <= |t| && AssignmentAt(t, p).Some?
    ensures TryLengths(t, start, len) == Some(p)
  {
  }

  lemma {:induction false} FlagRunOfFlags(flags: string, rest: string, j: nat)
    requires IsFlags(flags) && j <= |flags| / 3
    requires |rest| > 0 && IsSpace(rest[0])
    requires |rest| >= 2 ==> rest[1] != '-'
    ensures FlagRun(flags + rest, 3 * j) == |flags| / 3 - j
    decreases |flags| / 3 - j
  {
    var t := flags + rest;
    if j < |flags| / 3 {
      assert FlagAt(flags, 3 * j);
      assert t[3 * j..3 * j + 3] == flags[3 * j..3 * j + 3];
      assert FlagAt(t, 3 * j);
      FlagRunOfFlags(flags, rest, j + 1);
    } else {
      assert 3 * j == |flags|;
      assert t[3 * j] == rest[0];
      if 3 * j + 3 <= |t| {
        assert t[3 * j + 1] == rest[1];
      }
      assert !FlagAt(t, 3 * j);
    }
  }

  lemma {:induction false} SpaceRunExact(t: string, i: nat, n: nat)
    requires i + n < |t|
    requires forall j :: i <= j < i + n ==> IsSpace(t[j])
    requires !IsSpace(t[i + n])
    ensures SpaceRun(t, i) == n
    decreases n
  {
    if n > 0 {
      SpaceRunExact(t, i + 1, n - 1);
    }
  }

  lemma {:induction false} AssignmentOfShape(t: string, p: nat, name: string, value: string)
    requires p <= |t| && t[p..] == name + "=" + value
    requires |name| > 0 && Avoids(name, '=')
    requires |value| > 0 && Avoids(value, '\n')
    ensures AssignmentAt(t, p) == Some((name, value))
  {
    var q := p + |name|;
    assert t[q] == '=' by { assert t[p..][|name|] == '='; }
    assert forall j :: p <= j < q ==> t[j] != '=' by {
      forall j | p <= j < q ensures t[j] != '=' { assert t[j] == t[p..][j - p] == name[j - p]; }
    }
    FirstFromExact(t, '=', p, q);
    assert t[q + 1] == value[0] by { assert t[p..][|name| + 1] == value[0]; }
    assert forall j :: q + 1 <= j < |t| ==> t[j] != '\n' by {
      forall j | q + 1 <= j < |t| ensures t[j] != '\n' {
        assert t[j] == t[p..][j - p] == value[j - q - 1];
      }
    }
    FirstFromExact(t, '\n', q + 1, |t|);
    assert t[p..q] == name && t[q + 1..|t|] == value by {
      assert t[p..q] == t[p..][..|name|];
      assert t[q + 1..|t|] == t[p..][|name| + 1..];
    }
    assert q + 1 < |t| && q != p;
    assert AssignmentAt(t, p) == Some((t[p..q], t[q + 1..|t|]));
  }

  lemma {:induction false} FirstFromExact(t: string, c: char, i: nat, q: nat)
    requires i <= q <= |t|
    requires forall j :: i <= j < q ==> t[j] != c
    requires q < |t| ==> t[q] == c
    ensures FirstFrom(t, c, i) == q
    decreases q - i
  {
    if i < q {
      FirstFromExact(t, c, i + 1, q);
    }
  }

  /** A `declare` line without trailing whitespace. */
  lemma DeclareLineParsesStripped(flags: string, sep: string, name: string, value: string)
    requires IsFlags(flags)
    requires |sep| > 0 && AllSpace(sep)
    requires |name| > 0 && !IsSpace(name[0]) && name[0] != '-' && Avoids(name, '=')
    requires |value| > 0 && Avoids(value, '\n') && !IsSpace(value[|value| - 1])
    ensures ParseParameterLine(DECLARE + flags + sep + name + "=" + value) == Some((name, value))
  {
    DeclareLineParses(flags, sep, name, value, "");
    assert DECLARE + flags + sep + name + "=" + value + "" == DECLARE + flags + sep + name + "=" + value;
  }

  lemma NotDeclareLine(line: string)
    requires |RStrip(line)| < |DECLARE| || RStrip(line)[..|DECLARE|] != DECLARE
    ensures ParseParameterLine(line) == None
  {
  }

  /** The two lines of the script's own test that are not declarations. */
  lemma NonDeclarationExamples()
    ensures ParseParameterLine("if [[ -z \"${PS1-}\" ]]; then") == None
    ensures ParseParameterLine("\n") == None
  {
    var s := "if [[ -z \"${PS1-}\" ]]; then";
    RStripTrailing(s, "");
    assert s + "" == s;
    assert s[..|DECLARE|][0] == 'i';
    NotDeclareLine(s);
    assert RStrip("\n") == "" by { assert RStrip("\n") == RStrip(""); }
  }

  /** The script's test lines with two flags and a numeric value. */
  lemma TargetSizeExample()
    ensures ParseParameterLine(DECLARE + " -x -i" + " " + "TARGETSIZE" + "=" + "74569526")
         == Some(("TARGETSIZE", "74569526"))
  {
    assert IsFlags(" -x -i") by { assert FlagAt(" -x -i", 0) && FlagAt(" -x -i", 3); }
    DeclareLineParsesStripped(" -x -i", " ", "TARGETSIZE", "74569526");
  }

  lemma ThreadsExample()
    ensures ParseParameterLine(DECLARE + " -x -i" + " " + "BWA_MEM_THREADS" + "=" + "8")
         == Some(("BWA_MEM_THREADS", "8"))
  {
    assert IsFlags(" -x -i") by { assert FlagAt(" -x -i", 0) && FlagAt(" -x -i", 3); }
    DeclareLineParsesStripped(" -x -i", " ", "BWA_MEM_THREADS", "8");
  }

  /** One flag followed by a run of blanks. */
  lemma VersionExample()
    ensures ParseParameterLine(DECLARE + " -x" + "   " + "SAMBAMBA_MARKDUP_VERSION" + "=" + "0.5.9")
         == Some(("SAMBAMBA_MARKDUP_VERSION", "0.5.9"))
  {
    assert IsFlags(" -x") by { assert FlagAt(" -x", 0); }
    DeclareLineParsesStripped(" -x", "   ", "SAMBAMBA_MARKDUP_VERSION", "0.5.9");
  }

  /** A quoted value holding `=` and blanks is kept verbatim (the value of the
      test's `SAMBAMBA_MARKDUP_OPTS` line, written in four pieces). */
  lemma QuotedValueExample()
    ensures var opts := "\"-t 6 -l 9 " + "--hash-table-size=2000000 " + "--overflow-list-size=1000000 "
                        + "--io-buffer-size=64\"";
      ParseParameterLine(DECLARE + " -x" + "   " + "SAMBAMBA_MARKDUP_OPTS" + "=" + opts)
      == Some(("SAMBAMBA_MARKDUP_OPTS", opts))
  {
    var a, b, c, d := "\"-t 6 -l 9 ", "--hash-table-size=2000000 ", "--overflow-list-size=1000000 ",
                      "--io-buffer-size=64\"";
    assert Avoids(a, '\n') && Avoids(b, '\n') && Avoids(c, '\n') && Avoids(d, '\n');
    AvoidsConcat(a, b, '\n');
    AvoidsConcat(a + b, c, '\n');
    AvoidsConcat(a + b + c, d, '\n');
    assert IsFlags(" -x") by { assert FlagAt(" -x", 0); }
    assert (a + b + c + d)[|a + b + c + d| - 1] == '"';
    DeclareLineParsesStripped(" -x", "   ", "SAMBAMBA_MARKDUP_OPTS", a + b + c + d);
  }

  lemma AvoidsConcat(a: string, b: string, c: char)
    requires Avoids(a, c) && Avoids(b, c)
    ensures Avoids(a + b, c)
  {
    forall i | 0 <= i < |a + b| ensures (a + b)[i] != c {
      if i >= |a| { assert (a + b)[i] == b[i - |a|]; }
    }
  }

  // ---------------------------------------------------------------------
  // A whole file
  // ---------------------------------------------------------------------

  /** The outcome of `parse_parameter_line` for every line of a file. */
  function Declarations(lines: seq<string>): (ds: seq<Option<(string, string)>>)
    ensures |ds| == |lines|
    ensures forall i :: 0 <= i < |lines| ==> ds[i] == ParseParameterLine(lines[i])
  {
    seq(|lines|, i requires 0 <= i < |lines| => ParseParameterLine(lines[i]))
  }

  /** `parse_parameter_file` on the file's lines: every `declare` line sets
      its name, a later line overriding an earlier one. */
  function ParameterFileEntries(lines: seq<string>): map<string, string>
  {
    Assignments(Declarations(lines))
  }

  /** The loop of `parse_parameter_file` over the parsed lines. */
  function Assignments(ds: seq<Option<(string, string)>>): map<string, string>
  {
    if |ds| == 0 then map[]
    else
      var before := Assignments(ds[..|ds| - 1]);
      match ds[|ds| - 1]
      case Some((name, value)) => before[name := value]
      case None => before
  }

  /** Entry `i` declares `name`. */
  predicate DeclaresAt(ds: seq<Option<(string, string)>>, i: int, name: string) {
    0 <= i < |ds| && ds[i].Some? && ds[i].value.0 == name
  }

  /** The names in the result are exactly the names some line declares. */
  lemma {:induction false} AssignmentsKeys(ds: seq<Option<(string, string)>>, name: string)
    ensures name in Assignments(ds) <==> exists i :: DeclaresAt(ds, i, name)
  {
    if |ds| > 0 {
      var init := ds[..|ds| - 1];
      AssignmentsKeys(init, name);
      if exists i :: DeclaresAt(ds, i, name) {
        var i :| DeclaresAt(ds, i, name);
        if i < |ds| - 1 {
          assert DeclaresAt(init, i, name);
        }
      }
      if exists i :: DeclaresAt(init, i, name) {
        var i :| DeclaresAt(init, i, name);
        assert DeclaresAt(ds, i, name);
      }
      if DeclaresAt(ds, |ds| - 1, name) {
        assert name in Assignments(ds);
      }
    }
  }

  /** The value of a name is the one on the last line declaring it. */
  lemma {:induction false} LastAssignmentWins(ds: seq<Option<(string, string)>>, i: nat)
    requires i < |ds| && ds[i].Some?
    requires forall j :: i < j < |ds| ==> !DeclaresAt(ds, j, ds[i].value.0)
    ensures ds[i].value.0 in Assignments(ds)
    ensures Assignments(ds)[ds[i].value.0] == ds[i].value.1
  {
    var init := ds[..|ds| - 1];
    var name := ds[i].value.0;
    if i < |ds| - 1 {
      assert !DeclaresAt(ds, |ds| - 1, name);
      forall j | i < j < |init| ensures !DeclaresAt(init, j, name) {
        assert !DeclaresAt(ds, j, name);
      }
      LastAssignmentWins(init, i);
    }
  }

  /** A file's entries: a name is present iff some line declares it, with the
      value of the last such line. */
  lemma ParameterFileEntriesSpec(lines: seq<string>, name: string)
    ensures name in ParameterFileEntries(lines) <==> exists i :: DeclaresAt(Declarations(lines), i, name)
    ensures forall i :: DeclaresAt(Declarations(lines), i, name)
                && (forall j :: i < j < |lines| ==> !DeclaresAt(Declarations(lines), j, name))
              ==> ParameterFileEntries(lines)[name] == ParseParameterLine(lines[i]).value.1
  {
    AssignmentsKeys(Declarations(lines), name);
    forall i | DeclaresAt(Declarations(lines), i, name)
                && (forall j :: i < j < |lines| ==> !DeclaresAt(Declarations(lines), j, name))
      ensures ParameterFileEntries(lines)[name] == ParseParameterLine(lines[i]).value.1
    {
      LastAssignmentWins(Declarations(lines), i);
    }
  }

  /** A file without `declare` lines yields the empty map. */
  lemma {:induction false} NoDeclarationsNoEntries(ds: seq<Option<(string, string)>>)
    requires forall i :: 0 <= i < |ds| ==> ds[i] == None
    ensures Assignments(ds) == map[]
  {
    if |ds| > 0 {
      NoDeclarationsNoEntries(ds[..|ds| - 1]);
    }
  }
}
