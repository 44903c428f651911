/** Decimal numbers as `usize` prints and parses them. */
module Decimals {
  import opened Selection

  const USIZE_LIMIT: nat := 0x1_0000_0000_0000_0000

  const DIGITS := "0123456789"

  predicate IsDigit(c: char) {
    '0' <= c <= '9'
  }

  function DigitValue(c: char): nat
    requires IsDigit(c)
  {
    c as int - '0' as int
  }

  /** `usize::to_string`. */
  function Decimal(n: nat): (r: string)
    ensures r != [] && forall i :: 0 <= i < |r| ==> IsDigit(r[i])
  {
    (if n < 10 then "" else Decimal(n / 10)) + [DIGITS[n % 10]]
  }

  function DigitsValue(s: string): nat
    requires forall i :: 0 <= i < |s| ==> IsDigit(s[i])
  {
    if s == [] then 0 else 10 * DigitsValue(s[..|s| - 1]) + DigitValue(s[|s| - 1])
  }

  /** `str::parse::<usize>`: an optional plus sign, then digits, within 64 bits. */
  function ParseUsize(s: string): Option<nat> {
    var digits := if s != [] && s[0] == '+' then s[1..] else s;
    if digits != [] && (forall i :: 0 <= i < |digits| ==> IsDigit(digits[i])) && DigitsValue(digits) < USIZE_LIMIT
    then Some(DigitsValue(digits))
    else None
  }

  lemma {:induction false} DecimalRoundTrip(n: nat)
    ensures DigitsValue(Decimal(n)) == n
  {
    var s := Decimal(n);
    assert DigitValue(DIGITS[n % 10]) == n % 10;
    if n < 10 {
      assert s[..|s| - 1] == [];
    } else {
      DecimalRoundTrip(n / 10);
      assert s[..|s| - 1] == Decimal(n / 10);
    }
  }

  predicate IsPositionBelow(name: string, count: nat) {
    ParseUsize(name).Some? && ParseUsize(name).value < count && name == Decimal(ParseUsize(name).value)
  }

  /** The parse-and-print test keeps exactly the canonical names of the positions; a leading zero or a
      plus sign is refused. */
  lemma PositionNamesAreCanonical(name: string, count: nat)
    requires count <= USIZE_LIMIT
    ensures IsPositionBelow(name, count) <==> exists i: nat :: i < count && name == Decimal(i)
  {
    if i: nat :| i < count && name == Decimal(i) {
      DecimalParses(i);
    }
  }

  lemma DecimalParses(i: nat)
    requires i < USIZE_LIMIT
    ensures ParseUsize(Decimal(i)) == Some(i)
  {
    hide DigitsValue;
    assert IsDigit(Decimal(i)[0]);
    DecimalRoundTrip(i);
  }

  lemma PositionNameIsKept(i: nat, count: nat)
    requires i < count <= USIZE_LIMIT
    ensures IsPositionBelow(Decimal(i), count)
  {
    PositionNamesAreCanonical(Decimal(i), count);
  }

  lemma DecimalInjective(a: nat, b: nat)
    requires Decimal(a) == Decimal(b)
    ensures a == b
  {
    DecimalRoundTrip(a);
    DecimalRoundTrip(b);
  }

  function Power10(k: nat): nat {
    if k == 0 then 1 else 10 * Power10(k - 1)
  }

  lemma {:induction false} DecimalLength(n: nat, k: nat)
    requires 0 < k && n < Power10(k)
    ensures |Decimal(n)| <= k
  {
    if n >= 10 {
      DecimalLength(n / 10, k - 1);
    }
  }
}
