/** The pieces of Python's `str` and `re` behaviour the grouping script relies
    on: `str.isspace` (which is also what `\s` matches in a `str` pattern),
    `str.rstrip()`, and the character runs the script's regular expressions
    consume greedily. */
module PyText {
  import opened DecimalDigits

  /** Python's whitespace: the ASCII controls TAB..CR and FS..US, SPACE, NEL,
      NO-BREAK SPACE and the Unicode space separators. */
  predicate IsSpace(c: char) {
    var n := c as int;
    n == 0x20 || 0x09 <= n <= 0x0D || 0x1C <= n <= 0x1F || n == 0x85 || n == 0xA0
    || n == 0x1680 || 0x2000 <= n <= 0x200A || n == 0x2028 || n == 0x2029
    || n == 0x202F || n == 0x205F || n == 0x3000
  }

  predicate AllSpace(s: string) {
    forall i :: 0 <= i < |s| ==> IsSpace(s[i])
  }

  predicate NoSpace(s: string) {
    forall i :: 0 <= i < |s| ==> !IsSpace(s[i])
  }

  predicate Avoids(s: string, c: char) {
    forall i :: 0 <= i < |s| ==> s[i] != c
  }

  /** `s.rstrip()`: the longest prefix of `s` not ending in whitespace. */
  function RStrip(s: string): (r: string)
    ensures |r| <= |s| && r == s[..|r|]
    ensures |r| > 0 ==> !IsSpace(r[|r| - 1])
    ensures AllSpace(s[|r|..])
  {
    if |s| > 0 && IsSpace(s[|s| - 1]) then RStrip(s[..|s| - 1]) else s
  }

  /** Trailing whitespace is exactly what `rstrip` removes. */
  lemma {:induction false} RStripTrailing(x: string, ws: string)
    requires |x| > 0 ==> !IsSpace(x[|x| - 1])
    requires AllSpace(ws)
    ensures RStrip(x + ws) == x
    decreases |ws|
  {
    if |ws| > 0 {
      assert (x + ws)[..|x + ws| - 1] == x + ws[..|ws| - 1];
      RStripTrailing(x, ws[..|ws| - 1]);
    } else {
      assert x + ws == x;
    }
  }

  /** Number of whitespace characters starting at `i` (what a greedy `\s+`
      tries first). */
  function SpaceRun(t: string, i: nat): (n: nat)
    ensures i + n <= |t| || n == 0
    decreases |t| - i
  {
    if i < |t| && IsSpace(t[i]) then 1 + SpaceRun(t, i + 1) else 0
  }

  /** Number of non-whitespace characters starting at `i` (a greedy `\S+`). */
  function NonSpaceRun(t: string, i: nat): (n: nat)
    ensures i + n <= |t| || n == 0
    ensures forall j :: i <= j < i + n ==> !IsSpace(t[j])
    ensures i + n < |t| ==> IsSpace(t[i + n])
    decreases |t| - i
  {
    if i < |t| && !IsSpace(t[i]) then 1 + NonSpaceRun(t, i + 1) else 0
  }

  /** Number of decimal digits starting at `i` (a greedy `\d+`). */
  function DigitRun(t: string, i: nat): (n: nat)
    ensures i + n <= |t| || n == 0
    decreases |t| - i
  {
    if i < |t| && IsDecimalDigit(t[i]) then 1 + DigitRun(t, i + 1) else 0
  }

  /** The run is greedy: all of it is digits and it stops at a non-digit or
      at the end. */
  lemma {:induction false} DigitRunDigits(t: string, i: nat)
    ensures forall j :: i <= j < i + DigitRun(t, i) ==> IsDecimalDigit(t[j])
    ensures i + DigitRun(t, i) < |t| ==> !IsDecimalDigit(t[i + DigitRun(t, i)])
    decreases |t| - i
  {
    if i < |t| && IsDecimalDigit(t[i]) {
      DigitRunDigits(t, i + 1);
    }
  }

  /** Index of the first `c` at or after `i`, or `|t|` (where a `[^c]+` or a
      `.+` run stops). */
  function FirstFrom(t: string, c: char, i: nat): (q: nat)
    ensures i <= q <= |t| || (q == i && i > |t|)
    ensures q < |t| ==> t[q] == c
    decreases |t| - i
  {
    if i >= |t| then i else if t[i] == c then i else FirstFrom(t, c, i + 1)
  }

  /** No `c` lies between `i` and the first `c` found. */
  lemma {:induction false} FirstFromFirst(t: string, c: char, i: nat)
    ensures forall j :: i <= j < FirstFrom(t, c, i) && j < |t| ==> t[j] != c
    decreases |t| - i
  {
    if i < |t| && t[i] != c {
      FirstFromFirst(t, c, i + 1);
    }
  }
}
