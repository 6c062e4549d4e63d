/** Decimal integers as Rust's `format!` prints them and `str::parse` reads them. */
module Decimal {

  datatype Option<+T> = None | Some(value: T)

  const U64_MAX: nat := 0xFFFF_FFFF_FFFF_FFFF
  const I32_MAX: nat := 0x7FFF_FFFF
  const U16_MAX: nat := 0xFFFF

  /** `u64::saturating_add`. */
  function SaturatingAdd(a: nat, b: nat): nat {
    if a + b > U64_MAX then U64_MAX else a + b
  }

  predicate IsDigit(c: char) {
    '0' <= c <= '9'
  }

  predicate AllDigits(s: string) {
    forall i :: 0 <= i < |s| ==> IsDigit(s[i])
  }

  function DigitChar(d: nat): char
    requires d < 10
  {
    (d + '0' as int) as char
  }

  /** `n` in decimal, without leading zeros. */
  function ToString(n: nat): (s: string)
    ensures s != "" && AllDigits(s)
    ensures s[0] == '0' ==> s == "0" && n == 0
  {
    if n < 10 then [DigitChar(n)] else ToString(n / 10) + [DigitChar(n % 10)]
  }

  /** The number a string of digits denotes. */
  function ValueOf(s: string): nat
    requires AllDigits(s)
  {
    if s == "" then 0 else 10 * ValueOf(s[..|s| - 1]) + (s[|s| - 1] as int - '0' as int)
  }

  /** `str::parse` for an unsigned type: one optional `+`, then digits, at most `max`. */
  function ParseUnsigned(s: string, max: nat): Option<nat> {
    var digits := if s != "" && s[0] == '+' then s[1..] else s;
    if digits == "" || !AllDigits(digits) || ValueOf(digits) > max then None
    else Some(ValueOf(digits))
  }

  /** `str::parse::<i32>`: one optional sign, then digits. */
  function ParseI32(s: string): Option<int> {
    if s != "" && s[0] == '-' then
      var digits := s[1..];
      if digits == "" || !AllDigits(digits) || ValueOf(digits) > I32_MAX + 1 then None
      else Some(-1 * ValueOf(digits))
    else
      match ParseUnsigned(s, I32_MAX)
      case Some(v) => Some(v)
      case None => None
  }

  lemma {:induction false} ValueOfToString(n: nat)
    ensures ValueOf(ToString(n)) == n
  {
    if n >= 10 {
      ValueOfToString(n / 10);
      assert ToString(n)[..|ToString(n)| - 1] == ToString(n / 10);
    }
  }

  /** Printing then parsing gives the number back, for every number that fits. */
  lemma ParsePrinted(n: nat, max: nat)
    ensures ParseUnsigned(ToString(n), max) == if n <= max then Some(n) else None
  {
    ValueOfToString(n);
    assert IsDigit(ToString(n)[0]);
  }

  lemma {:induction false} ValuePositive(s: string)
    requires AllDigits(s) && s != "" && s[0] != '0'
    ensures ValueOf(s) > 0
  {
    if |s| > 1 {
      assert s[..|s| - 1][0] == s[0];
      ValuePositive(s[..|s| - 1]);
    }
  }

  /** A digit string is what its number prints as exactly when it has no leading zero. */
  lemma {:induction false} PrintParsed(s: string)
    requires AllDigits(s) && s != ""
    ensures ToString(ValueOf(s)) == s <==> (s[0] == '0' ==> s == "0")
  {
    if s[0] != '0' {
      PrintCanonical(s);
    }
  }

  lemma {:induction false} PrintCanonical(s: string)
    requires AllDigits(s) && s != "" && s[0] != '0'
    ensures ToString(ValueOf(s)) == s
  {
    var front := s[..|s| - 1];
    var d := s[|s| - 1] as int - '0' as int;
    if |s| == 1 {
      assert ValueOf(front) == 0;
    } else {
      assert front[0] == s[0];
      PrintCanonical(front);
      ValuePositive(front);
      assert ValueOf(s) / 10 == ValueOf(front) && ValueOf(s) % 10 == d;
      assert s == front + [s[|s| - 1]];
    }
  }
}
