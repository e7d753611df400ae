/** Decimal numbers as Go's `strconv.ParseUint(s, 10, 64)` reads them and as
    `fmt`'s `%d` verb prints them. */
module GoStrconv {

  datatype Option<+T> = None | Some(value: T)

  /** Go's `uint64`. */
  type uint64 = x: int | 0 <= x < 0x1_0000_0000_0000_0000

  predicate IsDigit(c: char) {
    '0' <= c <= '9'
  }

  predicate AllDigits(s: string) {
    forall k :: 0 <= k < |s| ==> IsDigit(s[k])
  }

  function DigitValue(c: char): nat
    requires IsDigit(c)
  {
    c as int - '0' as int
  }

  function DigitChar(d: nat): (c: char)
    requires d < 10
    ensures IsDigit(c) && DigitValue(c) == d
  {
    ('0' as int + d) as char
  }

  /** The number a string of decimal digits denotes (the empty string denotes 0). */
  function DigitsValue(s: string): nat
    requires AllDigits(s)
  {
    if |s| == 0 then 0 else DigitsValue(s[..|s| - 1]) * 10 + DigitValue(s[|s| - 1])
  }

  /** `strconv.ParseUint(s, 10, 64)`: a non-empty string of ASCII digits (no sign,
      no base prefix, no underscores) whose value fits in 64 bits; anything else
      is a syntax or range error, here `None`. */
  function ParseUint(s: string): Option<uint64>
  {
    if |s| > 0 && AllDigits(s) && DigitsValue(s) < 0x1_0000_0000_0000_0000 then Some(DigitsValue(s))
    else None
  }

  /** `fmt.Sprintf("%d", n)` for an unsigned `n`: its decimal digits, most significant first. */
  function Decimal(n: nat): (s: string)
    ensures |s| >= 1 && AllDigits(s)
    ensures DigitsValue(s) == n
    ensures s[0] == '0' ==> n == 0
  {
    if n < 10 then [DigitChar(n)]
    else
      var d := Decimal(n / 10);
      var s := d + [DigitChar(n % 10)];
      assert s[..|s| - 1] == d;
      s
  }

  /** ParseUint reads back what `%d` prints, for every value of 64 bits. */
  lemma ParseDecimal(n: uint64)
    ensures ParseUint(Decimal(n)) == Some(n)
  {
  }

  /** Two digit strings without leading zeros that denote the same number are equal:
      `%d` is the only canonical spelling of a number. */
  lemma {:induction false} CanonicalDigitsUnique(s: string, n: nat)
    requires |s| >= 1 && AllDigits(s) && (s[0] == '0' ==> |s| == 1)
    requires DigitsValue(s) == n
    ensures s == Decimal(n)
    decreases |s|
  {
    if |s| > 1 {
      var init := s[..|s| - 1];
      assert init[0] == s[0];
      LeadingDigitBound(init);
      CanonicalDigitsUnique(init, n / 10);
      assert s == init + [s[|s| - 1]];
    }
  }

  /** A non-empty digit string that does not start with 0 denotes at least 1. */
  lemma {:induction false} LeadingDigitBound(s: string)
    requires |s| >= 1 && AllDigits(s) && s[0] != '0'
    ensures DigitsValue(s) >= 1
  {
    if |s| > 1 {
      var init := s[..|s| - 1];
      assert init[0] == s[0];
      LeadingDigitBound(init);
    }
  }
}
