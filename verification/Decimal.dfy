/** Base-10 text of unsigned 64-bit amounts, the form in which the keepers store
    every balance and bid (Go's `strconv.ParseUint(s, 10, 64)` and `%d`). */
module Decimal {
  import opened Wrappers

  const U64: nat := 0x1_0000_0000_0000_0000

  predicate IsDigit(c: char) {
    '0' <= c <= '9'
  }

  predicate AllDigits(s: string) {
    forall i :: 0 <= i < |s| ==> IsDigit(s[i])
  }

  function DigitValue(c: char): nat
    requires IsDigit(c)
  {
    (c - '0') as nat
  }

  /** The number a digit string denotes; leading zeros are allowed. */
  function Value(s: string): nat
    requires AllDigits(s)
  {
    if s == "" then 0 else 10 * Value(s[..|s| - 1]) + DigitValue(s[|s| - 1])
  }

  /** `strconv.ParseUint(s, 10, 64)`: no sign, no blanks, at least one digit, below 2^64. */
  function ParseUint(s: string): Option<nat> {
    if s != "" && AllDigits(s) && Value(s) < U64 then Some(Value(s)) else None
  }

  /** The amount a stored balance stands for: unreadable text counts as zero. */
  function AmountOf(s: string): nat {
    match ParseUint(s)
    case Some(n) => n
    case None => 0
  }

  function DigitChar(d: nat): char
    requires d < 10
  {
    '0' + d as char
  }

  /** `fmt.Sprintf("%d", n)` and `strconv.FormatUint(n, 10)`. */
  function FormatUint(n: nat): string {
    if n < 10 then [DigitChar(n)] else FormatUint(n / 10) + [DigitChar(n % 10)]
  }

  lemma {:induction false} FormatUintValue(n: nat)
    ensures FormatUint(n) != "" && AllDigits(FormatUint(n))
    ensures Value(FormatUint(n)) == n
  {
    if n < 10 {
      assert FormatUint(n)[..0] == "";
    } else {
      FormatUintValue(n / 10);
      assert FormatUint(n)[..|FormatUint(n)| - 1] == FormatUint(n / 10);
    }
  }

  /** Writing a 64-bit amount and reading it back is the identity. */
  lemma ParseFormat(n: nat)
    requires n < U64
    ensures ParseUint(FormatUint(n)) == Some(n)
    ensures AmountOf(FormatUint(n)) == n
  {
    FormatUintValue(n);
  }

  /** What ParseUint takes and refuses: exactly the numbers below 2^64 come back, the most significant digit
      is first, and neither signs nor fractions nor the empty text are numbers. */
  lemma ParseExactly(n: nat)
    ensures ParseUint(FormatUint(n)) == if n < 0x1_0000_0000_0000_0000 then Some(n) else None
    ensures ParseUint("120") == Some(120) && ParseUint("007") == Some(7) && FormatUint(120) == "120"
    ensures ParseUint("").None? && ParseUint("+5").None? && ParseUint("-5").None? && ParseUint("5.0").None?
  {
    FormatUintValue(n);
    DigitExamples();
    assert "+5"[0] == '+' && "-5"[0] == '-' && "5.0"[1] == '.';
  }

  lemma DigitExamples()
    ensures ParseUint("120") == Some(120) && ParseUint("007") == Some(7) && FormatUint(120) == "120"
  {
    assert Value("1") == 1 by { assert "1"[..0] == ""; }
    assert Value("12") == 12 by { assert "12"[..1] == "1"; }
    assert "120"[..2] == "12";
    assert Value("0") == 0 by { assert "0"[..0] == ""; }
    assert Value("00") == 0 by { assert "00"[..1] == "0"; }
    assert "007"[..2] == "00";
    assert FormatUint(12) == "12";
  }
}
