/** The `java.lang.String` and `java.lang.Integer` operations the configuration
    and job rules rely on, with the JDK's conventions: -1 for "not found",
    `split` with a literal delimiter dropping trailing empty strings,
    `trim` removing every character up to U+0020. */
module JavaStrings {
  import opened Wrappers
  import D = DecimalDigits

  predicate StartsWith(s: string, p: string) {
    |p| <= |s| && s[..|p|] == p
  }

  predicate EndsWith(s: string, p: string) {
    |p| <= |s| && s[|s| - |p|..] == p
  }

  /** `t` occurs in `s` starting at index `i`. */
  predicate OccursAt(s: string, t: string, i: int) {
    0 <= i && i + |t| <= |s| && s[i..i + |t|] == t
  }

  /** `s.indexOf(t, from)`: the first index at or after `from` (a negative
      `from` counts as 0) where `t` occurs, or -1. */
  function IndexOfFrom(s: string, t: string, from: int): (r: int)
    ensures r == -1 || (r >= 0 && r >= from && OccursAt(s, t, r))
    ensures r >= 0 ==> forall j :: from <= j < r ==> !OccursAt(s, t, j)
    ensures r == -1 ==> forall j :: from <= j ==> !OccursAt(s, t, j)
    decreases if from < 0 then |s| + 1 else |s| - from
  {
    if from < 0 then IndexOfFrom(s, t, 0)
    else if from + |t| > |s| then -1
    else if s[from..from + |t|] == t then from
    else IndexOfFrom(s, t, from + 1)
  }

  /** `s.indexOf(t)`. */
  function IndexOf(s: string, t: string): int {
    IndexOfFrom(s, t, 0)
  }

  /** `s.contains(t)`. */
  predicate Contains(s: string, t: string) {
    IndexOf(s, t) >= 0
  }

  /** The last index at or before `i` where `t` occurs, or -1. */
  function LastIndexOfFrom(s: string, t: string, i: int): (r: int)
    ensures r == -1 || (0 <= r <= i && OccursAt(s, t, r))
    ensures forall j :: r < j <= i ==> !OccursAt(s, t, j)
    decreases i + 1
  {
    if i < 0 then -1
    else if OccursAt(s, t, i) then i
    else LastIndexOfFrom(s, t, i - 1)
  }

  /** `s.lastIndexOf(t)`. */
  function LastIndexOf(s: string, t: string): int {
    LastIndexOfFrom(s, t, |s| - |t|)
  }

  /** `s.lastIndexOf(c)` for a one-character `c`: -1 or the index of a `c`,
      with no `c` after it. */
  lemma LastIndexOfSingle(s: string, c: string)
    requires |c| == 1
    ensures -1 <= LastIndexOf(s, c) < |s|
    ensures LastIndexOf(s, c) >= 0 ==> s[LastIndexOf(s, c)] == c[0]
    ensures forall j :: LastIndexOf(s, c) < j < |s| ==> s[j] != c[0]
  {
    var i := LastIndexOf(s, c);
    forall j | i < j < |s| ensures s[j] != c[0] {
      assert !OccursAt(s, c, j);
      assert s[j..j + 1] == [s[j]];
    }
    if i >= 0 {
      assert s[i..i + 1][0] == c[0];
    }
  }

  /** `s.replace(t, r)`: every non-overlapping occurrence of `t`, scanning
      left to right, replaced by `r`; an empty `t` inserts `r` around every
      character. */
  function Replace(s: string, t: string, r: string): string
    decreases |s|
  {
    if |t| == 0 then
      if |s| == 0 then r else r + [s[0]] + Replace(s[1..], t, r)
    else if |s| < |t| then s
    else if s[..|t|] == t then r + Replace(s[|t|..], t, r)
    else [s[0]] + Replace(s[1..], t, r)
  }

  lemma {:induction false} ReplaceAbsent(s: string, t: string, r: string)
    requires |t| > 0
    requires IndexOf(s, t) == -1
    ensures Replace(s, t, r) == s
    decreases |s|
  {
    if |s| >= |t| {
      assert !OccursAt(s, t, 0);
      assert IndexOf(s[1..], t) == -1 by {
        forall j | 0 <= j ensures !OccursAt(s[1..], t, j) {
          assert !OccursAt(s, t, j + 1);
        }
      }
      ReplaceAbsent(s[1..], t, r);
    }
  }

  /** The pieces of `s` between the occurrences of the literal delimiter `d`,
      found left to right without overlap (what `Pattern.split` yields before
      trailing empty strings are discarded). */
  function RawSplit(s: string, d: string): (r: seq<string>)
    requires |d| > 0
    ensures |r| >= 1
    decreases |s|
  {
    if |s| == 0 then [""]
    else if StartsWith(s, d) then [""] + RawSplit(s[|d|..], d)
    else
      var rest := RawSplit(s[1..], d);
      [[s[0]] + rest[0]] + rest[1..]
  }

  function DropTrailingEmpty(xs: seq<string>): (r: seq<string>)
    ensures |r| <= |xs| && r == xs[..|r|]
    ensures |r| > 0 ==> r[|r| - 1] != ""
    ensures forall i :: |r| <= i < |xs| ==> xs[i] == ""
  {
    if |xs| == 0 then []
    else if xs[|xs| - 1] == "" then DropTrailingEmpty(xs[..|xs| - 1])
    else xs
  }

  /** `s.split(regex)` where the regex matches exactly the literal `d`
      ("[.]", "[,]", "[ ]", "[=]", "[:]", "[-]", "[.][.]" in the source). */
  function Split(s: string, d: string): seq<string>
    requires |d| > 0
  {
    if IndexOf(s, d) < 0 then [s] else DropTrailingEmpty(RawSplit(s, d))
  }

  /** Joins pieces with the delimiter `d` (the inverse of `RawSplit`). */
  function Join(xs: seq<string>, d: string): string
    requires |xs| >= 1
  {
    if |xs| == 1 then xs[0] else xs[0] + d + Join(xs[1..], d)
  }

  predicate Avoids(s: string, c: char) {
    forall i :: 0 <= i < |s| ==> s[i] != c
  }

  /** Splitting and joining again gives the original string back. */
  lemma {:induction false} JoinRawSplit(s: string, d: string)
    requires |d| > 0
    ensures Join(RawSplit(s, d), d) == s
    decreases |s|
  {
    if |s| == 0 {
    } else if StartsWith(s, d) {
      assert RawSplit(s, d) == [""] + RawSplit(s[|d|..], d);
      JoinRawSplit(s[|d|..], d);
      JoinEmptyHead(RawSplit(s[|d|..], d), d);
      assert s == d + s[|d|..];
    } else {
      var rest := RawSplit(s[1..], d);
      assert RawSplit(s, d) == [[s[0]] + rest[0]] + rest[1..];
      JoinRawSplit(s[1..], d);
      JoinConsHead(s[0], rest, d);
      assert s == [s[0]] + s[1..];
    }
  }

  /** An empty first piece puts the delimiter in front. */
  lemma JoinEmptyHead(xs: seq<string>, d: string)
    requires |xs| >= 1
    ensures Join([""] + xs, d) == d + Join(xs, d)
  {
    assert ([""] + xs)[1..] == xs;
  }

  /** A character prepended to the first piece is prepended to the join. */
  lemma JoinConsHead(c: char, xs: seq<string>, d: string)
    requires |xs| >= 1
    ensures Join([[c] + xs[0]] + xs[1..], d) == [c] + Join(xs, d)
  {
    var ys := [[c] + xs[0]] + xs[1..];
    if |xs| > 1 {
      assert ys[1..] == xs[1..];
    }
  }

  /** The last piece is not empty when the string does not end with the
      (one-character) delimiter. */
  lemma {:induction false} RawSplitLastNonEmpty(s: string, d: string)
    requires |d| == 1 && |s| > 0 && s[|s| - 1] != d[0]
    ensures RawSplit(s, d)[|RawSplit(s, d)| - 1] != ""
    decreases |s|
  {
    if StartsWith(s, d) {
      RawSplitLastNonEmpty(s[1..], d);
    } else if |s| > 1 {
      RawSplitLastNonEmpty(s[1..], d);
    }
  }

  /** Splitting at a one-character delimiter and joining again gives back a
      string that does not end with the delimiter. */
  lemma JoinSplit(s: string, d: string)
    requires |d| == 1 && |s| > 0 && s[|s| - 1] != d[0]
    ensures |Split(s, d)| > 0 && Join(Split(s, d), d) == s
  {
    RawSplitLastNonEmpty(s, d);
    JoinRawSplit(s, d);
  }

  /** `JoinSplit` for a delimiter given as its character. */
  lemma JoinSplitCharIf(s: string, c: char)
    ensures |s| > 0 && s[|s| - 1] != c ==> |Split(s, [c])| > 0 && Join(Split(s, [c]), [c]) == s
  {
    if |s| > 0 && s[|s| - 1] != c {
      JoinSplit(s, [c]);
    }
  }

  /** A string without the delimiter's first character is one piece. */
  lemma {:induction false} RawSplitNoDelimiter(a: string, d: string)
    requires |d| > 0 && Avoids(a, d[0])
    ensures RawSplit(a, d) == [a]
    decreases |a|
  {
    if |a| > 0 {
      assert a[0] != d[0];
      RawSplitNoDelimiter(a[1..], d);
      assert [a[0]] + a[1..] == a;
    }
  }

  /** The piece before the first delimiter is split off, the rest is split
      independently. */
  lemma {:induction false} RawSplitCons(a: string, d: string, b: string)
    requires |d| > 0 && Avoids(a, d[0])
    ensures RawSplit(a + d + b, d) == [a] + RawSplit(b, d)
    decreases |a|
  {
    if |a| == 0 {
      assert a + d + b == d + b;
      assert (d + b)[|d|..] == b;
    } else {
      var s := a + d + b;
      assert s[0] == a[0] && a[0] != d[0];
      assert !StartsWith(s, d);
      assert s[1..] == a[1..] + d + b;
      RawSplitCons(a[1..], d, b);
      assert [a[0]] + a[1..] == a;
    }
  }

  lemma {:induction false} IndexOfAvoids(a: string, d: string, b: string)
    requires |d| > 0 && Avoids(a, d[0])
    ensures IndexOf(a + d + b, d) == |a|
  {
    var s := a + d + b;
    assert OccursAt(s, d, |a|) by { assert s[|a|..|a| + |d|] == d; }
  }

  lemma {:induction false} IndexOfNoDelimiter(a: string, d: string)
    requires |d| > 0 && Avoids(a, d[0])
    ensures IndexOf(a, d) == -1
  {
  }

  /** The delimiter-free string splits into itself (`"abc".split("[.]")`). */
  lemma SplitNoDelimiter(a: string, d: string)
    requires |d| > 0 && Avoids(a, d[0])
    ensures Split(a, d) == [a]
  {
    IndexOfNoDelimiter(a, d);
  }

  /** `(a + d + b).split(d)` starts with `a` when `a` is not empty or
      something non-empty follows. */
  lemma SplitCons(a: string, d: string, b: string)
    requires |d| > 0 && Avoids(a, d[0])
    requires a != "" || DropTrailingEmpty(RawSplit(b, d)) != []
    ensures Split(a + d + b, d) == [a] + DropTrailingEmpty(RawSplit(b, d))
  {
    IndexOfAvoids(a, d, b);
    RawSplitCons(a, d, b);
    DropTrailingEmptyCons(a, RawSplit(b, d));
  }

  /** No piece of a split at a one-character delimiter holds it. */
  lemma {:induction false} RawSplitAvoids(s: string, d: string)
    requires |d| == 1
    ensures forall i :: 0 <= i < |RawSplit(s, d)| ==> Avoids(RawSplit(s, d)[i], d[0])
    decreases |s|
  {
    if |s| > 0 {
      RawSplitAvoids(s[|d|..], d);
      RawSplitAvoids(s[1..], d);
      if !StartsWith(s, d) {
        var rest := RawSplit(s[1..], d);
        assert s[0] != d[0];
        assert forall i :: 1 <= i < |[[s[0]] + rest[0]] + rest[1..]| ==> ([[s[0]] + rest[0]] + rest[1..])[i] == rest[i];
      }
    }
  }

  /** Fields free of the delimiter, joined and split again, come back;
      `Join` is then the inverse of `RawSplit` in both directions. */
  lemma {:induction false} RawSplitJoin(xs: seq<string>, d: string)
    requires |d| > 0 && |xs| >= 1
    requires forall i :: 0 <= i < |xs| ==> Avoids(xs[i], d[0])
    ensures RawSplit(Join(xs, d), d) == xs
    decreases |xs|
  {
    if |xs| == 1 {
      RawSplitNoDelimiter(xs[0], d);
    } else {
      RawSplitJoin(xs[1..], d);
      RawSplitCons(xs[0], d, Join(xs[1..], d));
    }
  }

  /** `String.join(d, xs).split(d)` is `xs` when no field holds the
      delimiter and the last field is not empty. */
  lemma SplitJoin(xs: seq<string>, d: string)
    requires |d| > 0 && |xs| >= 1 && xs[|xs| - 1] != ""
    requires forall i :: 0 <= i < |xs| ==> Avoids(xs[i], d[0])
    ensures Split(Join(xs, d), d) == xs
  {
    RawSplitJoin(xs, d);
    if |xs| == 1 {
      IndexOfNoDelimiter(xs[0], d);
    } else {
      IndexOfAvoids(xs[0], d, Join(xs[1..], d));
    }
  }

  /** `b` followed optionally by the delimiter and more text. */
  function WithRest(b: string, d: string, rest: Option<string>): string {
    b + (if rest.Some? then d + rest.value else "")
  }

  /** The raw pieces of `b`, optionally followed by the delimiter and more,
      start with `b`; a non-empty `b` survives the dropping of trailing
      empty pieces. */
  lemma FirstPieceOfRest(b: string, d: string, rest: Option<string>)
    requires |d| > 0 && Avoids(b, d[0]) && b != ""
    ensures RawSplit(WithRest(b, d, rest), d)[0] == b
    ensures DropTrailingEmpty(RawSplit(WithRest(b, d, rest), d)) != []
  {
    if rest.Some? {
      assert WithRest(b, d, rest) == b + d + rest.value;
      RawSplitCons(b, d, rest.value);
    } else {
      assert WithRest(b, d, rest) == b;
      RawSplitNoDelimiter(b, d);
    }
  }

  /** `(a + d + b + ...).split(d)` starts with `a` and `b` when both are
      free of the delimiter and `b` is not empty. */
  lemma SplitFirstTwo(a: string, b: string, d: string, rest: Option<string>)
    requires |d| > 0 && Avoids(a, d[0]) && Avoids(b, d[0]) && b != ""
    ensures var s := Split(a + d + WithRest(b, d, rest), d); |s| >= 2 && s[0] == a && s[1] == b
  {
    var rs := RawSplit(WithRest(b, d, rest), d);
    FirstPieceOfRest(b, d, rest);
    SplitCons(a, d, WithRest(b, d, rest));
    assert DropTrailingEmpty(rs)[0] == rs[0];
  }

  lemma {:induction false} DropTrailingEmptyCons(a: string, xs: seq<string>)
    requires a != "" || DropTrailingEmpty(xs) != []
    ensures DropTrailingEmpty([a] + xs) == [a] + DropTrailingEmpty(xs)
    decreases |xs|
  {
    if |xs| > 0 && xs[|xs| - 1] == "" {
      assert ([a] + xs)[..|xs|] == [a] + xs[..|xs| - 1];
      DropTrailingEmptyCons(a, xs[..|xs| - 1]);
    }
  }

  // ---------------------------------------------------------------------
  // Splitting at a regex character class
  // ---------------------------------------------------------------------

  /** The pieces of `s` between the characters of `cs`, each occurrence of
      one of them being one match: what `Pattern.split` yields for the
      class `[cs]` before trailing empty strings are discarded. No piece
      holds a character of `cs`. */
  function RawSplitAt(s: string, cs: string): (r: seq<string>)
    ensures |r| >= 1
    ensures forall k, i :: 0 <= k < |r| && 0 <= i < |r[k]| ==> r[k][i] !in cs
    decreases |s|
  {
    if |s| == 0 then [""]
    else
      var rest := RawSplitAt(s[1..], cs);
      if s[0] in cs then
        var r := [""] + rest;
        assert forall k :: 1 <= k < |r| ==> r[k] == rest[k - 1];
        r
      else
        var r := [[s[0]] + rest[0]] + rest[1..];
        assert forall k :: 1 <= k < |r| ==> r[k] == rest[k];
        assert forall i :: 1 <= i < |r[0]| ==> r[0][i] == rest[0][i - 1];
        r
  }

  /** `s.split("[" + cs + "]")` for a class of the literal characters `cs`:
      the whole string when none of them occurs, otherwise the pieces
      without the trailing empty ones. */
  function SplitAt(s: string, cs: string): (r: seq<string>)
    ensures forall k, i :: 0 <= k < |r| && 0 <= i < |r[k]| ==> r[k][i] !in cs
  {
    if forall i :: 0 <= i < |s| ==> s[i] !in cs then [s] else DropTrailingEmpty(RawSplitAt(s, cs))
  }

  /** The characters of `s` that belong to `cs`, in order. */
  function Matched(s: string, cs: string): (m: string)
    ensures |m| <= |s|
    ensures forall i :: 0 <= i < |m| ==> m[i] in cs
    decreases |s|
  {
    if |s| == 0 then ""
    else
      var rest := Matched(s[1..], cs);
      if s[0] in cs then
        var m := [s[0]] + rest;
        assert forall i :: 1 <= i < |m| ==> m[i] == rest[i - 1];
        m
      else rest
  }

  /** The pieces with one character between each two neighbours. */
  function Interleave(xs: seq<string>, ms: string): string
    requires |xs| == |ms| + 1
    decreases |ms|
  {
    if |ms| == 0 then xs[0] else xs[0] + [ms[0]] + Interleave(xs[1..], ms[1..])
  }

  /** Putting the matched characters back between the raw pieces rebuilds
      the string: the split loses nothing but the separators. */
  lemma {:induction false} RawSplitAtRebuilds(s: string, cs: string)
    ensures |RawSplitAt(s, cs)| == |Matched(s, cs)| + 1
    ensures Interleave(RawSplitAt(s, cs), Matched(s, cs)) == s
    decreases |s|
  {
    if |s| > 0 {
      var rest := RawSplitAt(s[1..], cs);
      var m := Matched(s[1..], cs);
      RawSplitAtRebuilds(s[1..], cs);
      if s[0] in cs {
        assert RawSplitAt(s, cs) == [""] + rest;
        assert Matched(s, cs) == [s[0]] + m;
        assert ([""] + rest)[1..] == rest;
        assert ([s[0]] + m)[1..] == m;
        assert s == [s[0]] + s[1..];
      } else {
        assert RawSplitAt(s, cs) == [[s[0]] + rest[0]] + rest[1..];
        assert Matched(s, cs) == m;
        InterleaveConsHead(s[0], rest, m);
        assert s == [s[0]] + s[1..];
      }
    }
  }

  /** A string without a character of `cs` is one raw piece. */
  lemma {:induction false} RawSplitAtNone(s: string, cs: string)
    requires forall i :: 0 <= i < |s| ==> s[i] !in cs
    ensures RawSplitAt(s, cs) == [s]
    decreases |s|
  {
    if |s| > 0 {
      RawSplitAtNone(s[1..], cs);
      assert [s[0]] + s[1..] == s;
    }
  }

  /** The split is the raw pieces without some trailing empty ones, and
      the raw pieces with the matched characters put back between them
      rebuild the string. */
  lemma SplitAtRebuilds(s: string, cs: string)
    ensures var r := SplitAt(s, cs); var raw := RawSplitAt(s, cs);
      |r| <= |raw| && r == raw[..|r|] && (forall k :: |r| <= k < |raw| ==> raw[k] == "") &&
      |raw| == |Matched(s, cs)| + 1 && Interleave(raw, Matched(s, cs)) == s
  {
    RawSplitAtRebuilds(s, cs);
    if forall i :: 0 <= i < |s| ==> s[i] !in cs {
      RawSplitAtNone(s, cs);
    }
  }

  /** A character prepended to the first piece is prepended to the
      interleaving. */
  lemma InterleaveConsHead(c: char, xs: seq<string>, ms: string)
    requires |xs| == |ms| + 1
    ensures Interleave([[c] + xs[0]] + xs[1..], ms) == [c] + Interleave(xs, ms)
  {
    var ys := [[c] + xs[0]] + xs[1..];
    if |ms| > 0 {
      assert ys[1..] == xs[1..];
    }
  }

  /** A class of one character splits as that character taken literally. */
  lemma {:induction false} RawSplitAtChar(s: string, c: char)
    ensures RawSplitAt(s, [c]) == RawSplit(s, [c])
    decreases |s|
  {
    if |s| > 0 {
      RawSplitAtChar(s[1..], c);
      assert StartsWith(s, [c]) <==> s[0] == c by {
        assert s[..1] == [s[0]];
      }
      assert s[|[c]|..] == s[1..];
    }
  }

  /** `s.split("[c]")` is `s.split` at the literal `c`. */
  lemma SplitAtChar(s: string, c: char)
    ensures SplitAt(s, [c]) == Split(s, [c])
  {
    RawSplitAtChar(s, c);
    if forall i :: 0 <= i < |s| ==> s[i] !in [c] {
      IndexOfNoDelimiter(s, [c]);
    } else {
      var i :| 0 <= i < |s| && s[i] in [c];
      assert OccursAt(s, [c], i) by {
        assert s[i..i + 1] == [c];
      }
    }
  }

  /** Splitting at the class of one character and joining with that
      character gives back a string that does not end with it. */
  lemma JoinSplitAtChar(s: string, c: char)
    ensures |s| > 0 && s[|s| - 1] != c ==> |SplitAt(s, [c])| > 0 && Join(SplitAt(s, [c]), [c]) == s
  {
    SplitAtChar(s, c);
    JoinSplitCharIf(s, c);
  }

  /** The characters with a meaning inside a regex character class. */
  predicate IsClassSyntax(c: char) {
    c == '\\' || c == '[' || c == ']' || c == '^' || c == '&' || c == '-'
  }

  /** What `Pattern.compile("[" + body + "]")` makes of a class body. */
  datatype CharClass =
    | Unclosed            // `PatternSyntaxException`: the class is never closed
    | Chars(cs: string)   // one character, any of `cs`
    | Syntax(body: string) // a body using class syntax

  /** The class a body makes. An empty body leaves `[]` unclosed, and so do
      a lone `\` (it escapes the closing bracket), a lone `[` (it opens a
      nested class) and a lone `^` (it negates, and the `]` after it is then
      taken literally). A lone `]`, `&` or `-` is a literal character, and so
      is every character of a body free of class syntax. Any other body
      uses escapes, ranges, negation, nested classes, intersections or a
      `]` that closes the class early. */
  function CompileClass(body: string): (r: CharClass)
    ensures r.Unclosed? <==> |body| == 0 || body == "\\" || body == "[" || body == "^"
    ensures r.Chars? ==> r.cs == body
    ensures r.Syntax? ==> r.body == body
    ensures |body| > 0 && (forall i :: 0 <= i < |body| ==> !IsClassSyntax(body[i])) ==> r == Chars(body)
    ensures |body| == 1 && body[0] != '\\' && body[0] != '[' && body[0] != '^' ==> r == Chars(body)
  {
    if |body| == 0 then Unclosed
    else if forall i :: 0 <= i < |body| ==> !IsClassSyntax(body[i]) then
      assert !IsClassSyntax(body[0]);
      Chars(body)
    else if |body| == 1 then
      if body[0] == ']' || body[0] == '&' || body[0] == '-' then Chars(body) else Unclosed
    else Syntax(body)
  }

  /** `v.split("[" + sep + "]")`, or `None` when the class does not
      compile. `regex` stands for `Pattern.compile` on a body with class
      syntax: the split it performs, or `None` when it does not compile. */
  function SplitClass(v: string, sep: string, regex: string -> Option<string -> seq<string>>): (r: Option<seq<string>>)
    ensures r.None? <==> CompileClass(sep).Unclosed? || (CompileClass(sep).Syntax? && regex(sep).None?)
    ensures CompileClass(sep).Chars? ==> r == Some(SplitAt(v, sep))
  {
    match CompileClass(sep)
    case Unclosed => None
    case Chars(cs) => Some(SplitAt(v, cs))
    case Syntax(body) => if regex(body).None? then None else Some(regex(body).value(v))
  }

  /** A one-character body other than `\`, `[` and `^` is the class of
      that character alone. */
  lemma CompileOneChar(c: char)
    ensures c != '\\' && c != '[' && c != '^' ==> CompileClass([c]) == Chars([c])
  {
  }

  /** `"a,b;c".split("[,;]")` splits at both characters of the class. */
  lemma SplitAtTwoChars()
    ensures SplitAt("a,b;c", ",;") == ["a", "b", "c"]
  {
    var cs := ",;";
    assert 'c' !in cs && 'b' !in cs && 'a' !in cs && ';' in cs && ',' in cs;
    assert ['a'] + "" == "a" && ['b'] + "" == "b" && ['c'] + "" == "c" && [""][1..] == [];
    assert "c"[1..] == "" && RawSplitAt("", cs) == [""];
    assert RawSplitAt("c", cs) == ["c"];
    assert ";c"[0] == ';' && ";c"[1..] == "c";
    assert RawSplitAt(";c", cs) == ["", "c"];
    assert "b;c"[0] == 'b' && "b;c"[1..] == ";c";
    assert RawSplitAt("b;c", cs) == ["b", "c"];
    assert ",b;c"[0] == ',' && ",b;c"[1..] == "b;c";
    assert RawSplitAt(",b;c", cs) == ["", "b", "c"];
    assert "a,b;c"[0] == 'a' && "a,b;c"[1..] == ",b;c";
    assert RawSplitAt("a,b;c", cs) == ["a", "b", "c"];
    assert "a,b;c"[1] in cs;
  }

  /** `"x,,".split("[,]")` drops the trailing empty pieces, and
      `"".split("[,]")` is `[""]`. */
  lemma SplitAtTrailing()
    ensures SplitAt("x,,", ",") == ["x"]
    ensures SplitAt("", ",") == [""]
  {
    assert ['x'] + "" == "x" && 'x' !in ",";
    assert ","[0] == ',' && ","[1..] == "" && ",,"[1..] == "," && "x,,"[1..] == ",,";
    assert RawSplitAt(",", ",") == ["", ""];
    assert RawSplitAt(",,", ",") == ["", "", ""];
    assert RawSplitAt("x,,", ",") == ["x", "", ""];
    assert "x,,"[1] in ",";
    assert ["x", "", ""][..2] == ["x", ""] && ["x", ""][..1] == ["x"];
  }

  /** A body of plain characters is a class of them; a lone `\` or `[`
      leaves the class unclosed, a lone `]` is literal, and `a-z` is a
      range, which is class syntax. */
  lemma CompileClassExamples()
    ensures CompileClass(",;") == Chars(",;")
    ensures CompileClass("\\") == Unclosed && CompileClass("[") == Unclosed
    ensures CompileClass("]") == Chars("]") && CompileClass("a-z") == Syntax("a-z")
  {
    assert IsClassSyntax("a-z"[1]);
  }


  /** Java's `trim` whitespace: every character up to U+0020. */
  predicate IsTrimmable(c: char) {
    c <= ' '
  }

  function TrimStart(s: string): (r: string)
    ensures |r| <= |s| && r == s[|s| - |r|..]
    ensures |r| > 0 ==> !IsTrimmable(r[0])
  {
    if |s| > 0 && IsTrimmable(s[0]) then TrimStart(s[1..]) else s
  }

  function TrimEnd(s: string): (r: string)
    ensures |r| <= |s| && r == s[..|r|]
    ensures |r| > 0 ==> !IsTrimmable(r[|r| - 1])
  {
    if |s| > 0 && IsTrimmable(s[|s| - 1]) then TrimEnd(s[..|s| - 1]) else s
  }

  /** `s.trim()`. */
  function Trim(s: string): string {
    TrimEnd(TrimStart(s))
  }

  /** `s.toLowerCase()` on the ASCII letters. */
  function ToLower(s: string): (r: string)
    ensures |r| == |s|
    ensures forall i :: 0 <= i < |s| ==> r[i] == LowerChar(s[i])
  {
    seq(|s|, i requires 0 <= i < |s| => LowerChar(s[i]))
  }

  function LowerChar(c: char): char {
    if 'A' <= c <= 'Z' then (c as int + 32) as char else c
  }

  // ---------------------------------------------------------------------
  // Decimal and hexadecimal numbers
  // ---------------------------------------------------------------------

  const INT_MIN: int := -0x8000_0000
  const INT_MAX: int := 0x7FFF_FFFF

  predicate IsInt32(i: int) {
    INT_MIN <= i <= INT_MAX
  }

  /** The ASCII digits `"" + n` prints. */
  predicate IsAsciiDigit(c: char) {
    '0' <= c <= '9'
  }

  predicate AllAsciiDigits(s: string) {
    forall i :: 0 <= i < |s| ==> IsAsciiDigit(s[i])
  }

  function DigitChar(d: nat): (c: char)
    requires d < 10
    ensures IsAsciiDigit(c)
  {
    ('0' as int + d) as char
  }

  /** The decimal digits of `n` without leading zeros (`"" + n`). */
  function NatToString(n: nat): (r: string)
    ensures |r| >= 1 && AllAsciiDigits(r)
    ensures |r| > 1 ==> r[0] != '0'
  {
    if n < 10 then [DigitChar(n)] else NatToString(n / 10) + [DigitChar(n % 10)]
  }

  /** `Character.digit(ch, 10) >= 0` for a UTF-16 unit `ch`: a decimal
      digit that is a single unit. A character outside the Basic
      Multilingual Plane is two surrogate units in a Java string, and
      neither surrogate is a digit. */
  predicate IsJavaDigit(c: char) {
    (c as int) < 0x10000 && D.IsDecimalDigit(c)
  }

  predicate AllJavaDigits(s: string) {
    forall i :: 0 <= i < |s| ==> IsJavaDigit(s[i])
  }

  /** ASCII digits are digits to Java. */
  lemma NatToStringDecimal(n: nat)
    ensures AllJavaDigits(NatToString(n))
  {
    var r := NatToString(n);
    forall i | 0 <= i < |r| ensures IsJavaDigit(r[i]) {
      assert IsAsciiDigit(r[i]);
    }
  }

  /** `"" + i` for a Java `int` or `long`. */
  function IntToString(i: int): string {
    if i < 0 then "-" + NatToString(-i) else NatToString(i)
  }

  /** The value of a string of decimal digits, each worth
      `Character.digit(c, 10)`. */
  function DigitsValue(s: string): nat {
    if |s| == 0 then 0
    else DigitsValue(s[..|s| - 1]) * 10 + D.DecimalValue(s[|s| - 1])
  }

  lemma {:induction false} DigitsValueOfNatToString(n: nat)
    ensures DigitsValue(NatToString(n)) == n
  {
    if n >= 10 {
      var s := NatToString(n);
      assert s[..|s| - 1] == NatToString(n / 10);
      DigitsValueOfNatToString(n / 10);
    }
  }

  /** `Integer.parseInt(s)`: an optional sign and at least one decimal digit
      (a Unicode decimal digit of one UTF-16 unit, as `Character.digit`
      reads them), the value within the 32-bit range; `None` stands for the
      NumberFormatException. */
  function ParseInt(s: string): (r: Option<int>)
    ensures r.Some? ==> IsInt32(r.value)
    ensures r.Some? ==> |s| > 0 && forall i :: 0 <= i < |s| ==> (s[i] as int) < 0x10000
  {
    if |s| == 0 then None
    else
      var negative := s[0] == '-';
      var digits := if s[0] == '-' || s[0] == '+' then s[1..] else s;
      if |digits| == 0 || !AllJavaDigits(digits) then None
      else
        var mag: int := DigitsValue(digits);
        var v := if negative then 0 - mag else mag;
        if IsInt32(v) then Some(v) else None
  }

  /** A non-ASCII digit of the Basic Multilingual Plane is read with its
      value, while a digit outside it, two surrogates in a Java string, is
      not a number. */
  lemma ParseIntExamples()
    ensures ParseInt("\U{0661}\U{0662}") == Some(12)
    ensures ParseInt("-\U{0665}") == Some(-5)
    ensures ParseInt("\U{1D7CF}") == None
  {
    assert D.NonAsciiZeros[0] == 0x660;
    assert D.DecimalValue('\U{0661}') == 1 && D.DecimalValue('\U{0662}') == 2 && D.DecimalValue('\U{0665}') == 5;
    var t := "\U{0661}\U{0662}";
    assert t[..1] == "\U{0661}" && DigitsValue(t[..1]) == 1;
    assert DigitsValue(t) == 12;
    assert "-\U{0665}"[1..] == "\U{0665}";
  }

  /** Printing a 32-bit integer and parsing it again gives it back. */
  lemma ParseIntOfIntToString(i: int)
    requires IsInt32(i)
    ensures ParseInt(IntToString(i)) == Some(i)
  {
    if i < 0 {
      ParseIntOfNegative(i);
    } else {
      ParseIntOfNatToString(i);
    }
  }

  lemma ParseIntOfNegative(i: int)
    requires IsInt32(i) && i < 0
    ensures ParseInt("-" + NatToString(-i)) == Some(i)
  {
    var s := "-" + NatToString(-i);
    var digits := NatToString(-i);
    assert s[0] == '-' && s[1..] == digits;
    NatToStringDecimal(-i);
    DigitsValueOfNatToString(-i);
    assert 0 - DigitsValue(digits) == i;
  }

  lemma ParseIntOfNatToString(i: int)
    requires IsInt32(i) && i >= 0
    ensures ParseInt(NatToString(i)) == Some(i)
  {
    var s := NatToString(i);
    assert IsAsciiDigit(s[0]);
    NatToStringDecimal(i);
    DigitsValueOfNatToString(i);
  }

  /** Dropping the last decimal digit divides by ten. */
  lemma NatToStringDropLast(n: nat)
    requires n >= 10
    ensures NatToString(n)[..|NatToString(n)| - 1] == NatToString(n / 10)
  {
  }

  /** `millis.substring(0, millis.length() - 3)` of a decimal number is the
      number of whole seconds. */
  lemma NatToStringDropThree(n: nat)
    requires n >= 1000
    ensures |NatToString(n)| >= 4
    ensures NatToString(n)[..|NatToString(n)| - 3] == NatToString(n / 1000)
  {
    var s := NatToString(n);
    NatToStringDropLast(n);
    NatToStringDropLast(n / 10);
    NatToStringDropLast(n / 100);
    assert s[..|s| - 3] == s[..|s| - 1][..|s| - 2][..|s| - 3];
    assert n / 10 / 10 == n / 100;
    assert n / 100 / 10 == n / 1000;
  }

  predicate IsUpperHexDigit(c: char) {
    IsAsciiDigit(c) || 'A' <= c <= 'F'
  }

  function HexChar(d: nat): (c: char)
    requires d < 16
    ensures IsUpperHexDigit(c)
  {
    if d < 10 then DigitChar(d) else ('A' as int + d - 10) as char
  }

  function HexCharValue(c: char): nat
    requires IsUpperHexDigit(c)
  {
    if IsAsciiDigit(c) then c as int - '0' as int else c as int - 'A' as int + 10
  }

  /** The upper-case hexadecimal digits of `n` without leading zeros. */
  function NatToHex(n: nat): (r: string)
    ensures |r| >= 1
    ensures forall i :: 0 <= i < |r| ==> IsUpperHexDigit(r[i])
  {
    if n < 16 then [HexChar(n)] else NatToHex(n / 16) + [HexChar(n % 16)]
  }

  function HexValue(s: string): nat
    requires forall i :: 0 <= i < |s| ==> IsUpperHexDigit(s[i])
  {
    if |s| == 0 then 0
    else HexValue(s[..|s| - 1]) * 16 + HexCharValue(s[|s| - 1])
  }

  lemma {:induction false} HexValueOfNatToHex(n: nat)
    ensures HexValue(NatToHex(n)) == n
  {
    if n < 16 {
      assert HexCharValue(HexChar(n)) == n;
    } else {
      var s := NatToHex(n);
      assert s[..|s| - 1] == NatToHex(n / 16);
      HexValueOfNatToHex(n / 16);
      assert HexCharValue(HexChar(n % 16)) == n % 16;
    }
  }

  /** Leading zeros do not change a hexadecimal value. */
  lemma {:induction false} HexValueLeadingZeros(k: nat, s: string)
    requires forall i :: 0 <= i < |s| ==> IsUpperHexDigit(s[i])
    ensures forall i :: 0 <= i < k + |s| ==> IsUpperHexDigit((Zeros(k) + s)[i])
    ensures HexValue(Zeros(k) + s) == HexValue(s)
    decreases |s|
  {
    var z := Zeros(k) + s;
    assert forall i :: 0 <= i < k + |s| ==> IsUpperHexDigit(z[i]) by {
      forall i | 0 <= i < k + |s| ensures IsUpperHexDigit(z[i]) {
        if i >= k { assert z[i] == s[i - k]; }
      }
    }
    if |s| == 0 {
      assert z == Zeros(k);
      ZerosValue(k);
    } else {
      assert z[..|z| - 1] == Zeros(k) + s[..|s| - 1];
      HexValueLeadingZeros(k, s[..|s| - 1]);
    }
  }

  lemma {:induction false} ZerosValue(k: nat)
    ensures forall i :: 0 <= i < k ==> IsUpperHexDigit(Zeros(k)[i])
    ensures HexValue(Zeros(k)) == 0
  {
    if k > 0 {
      assert Zeros(k)[..k - 1] == Zeros(k - 1);
      ZerosValue(k - 1);
    }
  }

  function Zeros(k: nat): (r: string)
    ensures |r| == k && forall i :: 0 <= i < k ==> r[i] == '0'
  {
    seq(k, i => '0')
  }

  /** `String.format("%08X", v)` for a Java `long`: the two's-complement
      (unsigned 64-bit) value in upper-case hexadecimal, zero-padded to at
      least eight digits. */
  function FormatHex8(v: int): (r: string)
    requires -0x8000_0000_0000_0000 <= v < 0x8000_0000_0000_0000
    ensures |r| >= 8
    ensures forall i :: 0 <= i < |r| ==> IsUpperHexDigit(r[i])
    ensures HexValue(r) == v % 0x1_0000_0000_0000_0000
  {
    var u := v % 0x1_0000_0000_0000_0000;
    var h := NatToHex(u);
    HexValueOfNatToHex(u);
    HexValueLeadingZeros(if |h| < 8 then 8 - |h| else 0, h);
    Zeros(if |h| < 8 then 8 - |h| else 0) + h
  }

  // ---------------------------------------------------------------------
  // UTF-16 units and `compareTo`
  // ---------------------------------------------------------------------

  /** The UTF-16 units of a character: the character itself below U+10000,
      otherwise its high and its low surrogate. */
  function Units(c: char): (u: seq<int>)
    ensures 1 <= |u| <= 2
  {
    var n := c as int;
    if n < 0x10000 then [n] else [0xD800 + (n - 0x10000) / 0x400, 0xDC00 + (n - 0x10000) % 0x400]
  }

  /** A string as a Java `String` holds it. */
  function Utf16(s: string): (u: seq<int>)
    ensures |u| == 0 <==> |s| == 0
  {
    if |s| == 0 then [] else Units(s[0]) + Utf16(s[1..])
  }

  /** `a.compareTo(b) < 0` on UTF-16 units: the first differing unit
      decides, and a proper prefix comes first. */
  predicate UnitsLess(a: seq<int>, b: seq<int>)
    decreases |a|
  {
    if |a| == 0 then |b| > 0
    else if |b| == 0 then false
    else if a[0] != b[0] then a[0] < b[0]
    else UnitsLess(a[1..], b[1..])
  }

  /** A character's place in UTF-16 unit order: U+E000 to U+FFFF are single
      units above every surrogate, so they come after all supplementary
      characters; every other character keeps its code point's place. */
  function UnitRank(c: char): (k: int)
    ensures (c as int) < 0xE000 || 0xFFFF < (c as int) ==> k == c as int
    ensures 0xE000 <= (c as int) <= 0xFFFF ==> k >= 0x110000
  {
    var n := c as int;
    if 0xE000 <= n <= 0xFFFF then n + 0x102000 else n
  }

  /** Units common to both sides do not change the order. */
  lemma {:induction false} UnitsLessCommonPrefix(p: seq<int>, a: seq<int>, b: seq<int>)
    ensures UnitsLess(p + a, p + b) == UnitsLess(a, b)
    decreases |p|
  {
    if |p| > 0 {
      var pa, pb := p + a, p + b;
      assert |pa| > 0 && |pb| > 0 && pa[0] == pb[0];
      assert pa[1..] == p[1..] + a && pb[1..] == p[1..] + b;
      assert UnitsLess(pa, pb) == UnitsLess(pa[1..], pb[1..]);
      UnitsLessCommonPrefix(p[1..], a, b);
    } else {
      assert p + a == a && p + b == b;
    }
  }

  /** At two different characters the unit order is the rank order,
      whatever follows them. */
  lemma UnitsOfDistinct(x: char, y: char, a: seq<int>, b: seq<int>)
    requires x != y
    ensures UnitsLess(Units(x) + a, Units(y) + b) <==> UnitRank(x) < UnitRank(y)
  {
    var n, m := x as int, y as int;
    var ux, uy := Units(x) + a, Units(y) + b;
    if n >= 0x10000 && m >= 0x10000 && (n - 0x10000) / 0x400 == (m - 0x10000) / 0x400 {
      assert ux[0] == uy[0];
      assert ux[1..] == [Units(x)[1]] + a && uy[1..] == [Units(y)[1]] + b;
      assert (n - 0x10000) % 0x400 != (m - 0x10000) % 0x400;
    }
  }
}
