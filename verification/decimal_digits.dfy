/** Unicode decimal digits: Python's `\d` in a `str` pattern and Java's
    `Character.digit(codePoint, 10)` accept every character of the Unicode
    category Nd (decimal number), not only ASCII `0`-`9`. Java reads a
    `String` one UTF-16 unit at a time, so there only the digits below
    U+10000 count (`JavaStrings.IsJavaDigit`). The table is that category
    in Unicode 15.0.0: each script's digits zero to nine are consecutive
    code points (the mathematical digits are five such runs back to back). */
module DecimalDigits {

  /** The zeros of the non-ASCII runs, in ascending order. */
  const NonAsciiZeros: seq<int> :=
    [0x660, 0x6F0, 0x7C0, 0x966, 0x9E6, 0xA66, 0xAE6, 0xB66] +
    [0xBE6, 0xC66, 0xCE6, 0xD66, 0xDE6, 0xE50, 0xED0, 0xF20] +
    [0x1040, 0x1090, 0x17E0, 0x1810, 0x1946, 0x19D0, 0x1A80, 0x1A90] +
    [0x1B50, 0x1BB0, 0x1C40, 0x1C50, 0xA620, 0xA8D0, 0xA900, 0xA9D0] +
    [0xA9F0, 0xAA50, 0xABF0, 0xFF10, 0x104A0, 0x10D30, 0x11066, 0x110F0] +
    [0x11136, 0x111D0, 0x112F0, 0x11450, 0x114D0, 0x11650, 0x116C0, 0x11730] +
    [0x118E0, 0x11950, 0x11C50, 0x11D50, 0x11DA0, 0x11F50, 0x16A60, 0x16AC0] +
    [0x16B50, 0x1D7CE, 0x1D7D8, 0x1D7E2, 0x1D7EC, 0x1D7F6, 0x1E140, 0x1E2F0] +
    [0x1E4F0, 0x1E950, 0x1FBF0]

  /** A Unicode decimal digit: an ASCII digit, or a character in one of the
      runs of ten that start at `NonAsciiZeros`. */
  predicate IsDecimalDigit(c: char) {
    var n := c as int;
    0x30 <= n <= 0x39 || (0x660 <= n && InRuns(n, NonAsciiZeros))
  }

  /** `n` lies in the run of ten that starts at one of the `zeros`. */
  predicate InRuns(n: int, zeros: seq<int>) {
    |zeros| > 0 && (zeros[0] <= n <= zeros[0] + 9 || InRuns(n, zeros[1..]))
  }

  /** The digit's value: its distance from the zero of its run. */
  function DecimalValue(c: char): (d: nat)
    ensures d < 10
    ensures '0' <= c <= '9' ==> d == c as int - '0' as int
  {
    (c as int - RunZero(c)) % 10
  }

  /** The code point of the zero of the run a digit belongs to. */
  function RunZero(c: char): int {
    var n := c as int;
    if n <= 0x39 then 0x30 else ZeroIn(n, NonAsciiZeros)
  }

  /** The first of the `zeros` whose run holds `n` (`n` itself when none does). */
  function ZeroIn(n: int, zeros: seq<int>): int {
    if |zeros| == 0 then n
    else if zeros[0] <= n <= zeros[0] + 9 then zeros[0]
    else ZeroIn(n, zeros[1..])
  }

  /** The zero `ZeroIn` finds for a number in one of the runs starts that
      number's run. */
  lemma {:induction false} ZeroInRun(n: int, zeros: seq<int>)
    requires InRuns(n, zeros)
    ensures ZeroIn(n, zeros) in zeros
    ensures ZeroIn(n, zeros) <= n <= ZeroIn(n, zeros) + 9
  {
    if !(zeros[0] <= n <= zeros[0] + 9) {
      ZeroInRun(n, zeros[1..]);
    }
  }

  /** Every decimal digit counts from the zero of its own run, so its value
      is its distance from that zero. */
  lemma DecimalValueOfDigit(c: char)
    requires IsDecimalDigit(c)
    ensures RunZero(c) == 0x30 || RunZero(c) in NonAsciiZeros
    ensures DecimalValue(c) == c as int - RunZero(c)
  {
    var n := c as int;
    if n > 0x39 {
      ZeroInRun(n, NonAsciiZeros);
      var z := ZeroIn(n, NonAsciiZeros);
      assert RunZero(c) == z;
      RemainderOfSmall(n - z);
    }
  }

  lemma RemainderOfSmall(k: int)
    requires 0 <= k < 10
    ensures k % 10 == k
  {
  }

  /** ARABIC-INDIC DIGIT FIVE is worth five. */
  lemma DecimalValueExample()
    ensures IsDecimalDigit('\U{0665}') && DecimalValue('\U{0665}') == 5
  {
    assert NonAsciiZeros[0] == 0x660;
  }

  predicate AllDecimal(s: string) {
    forall i :: 0 <= i < |s| ==> IsDecimalDigit(s[i])
  }
}
