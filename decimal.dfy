/** Base-10 integer text, after Go's `strconv.Itoa` (and `strconv.FormatInt(_, 10)`)
    and `strconv.ParseInt(_, 10, 64)`. */
module Decimal {
  import opened Wrappers

  const MinInt64: int := -0x8000_0000_0000_0000
  const MaxInt64: int := 0x7FFF_FFFF_FFFF_FFFF

  predicate IsDigit(c: char) {
    '0' <= c <= '9'
  }

  predicate AllDigits(s: string) {
    forall i :: 0 <= i < |s| ==> IsDigit(s[i])
  }

  function DigitChar(d: nat): (c: char)
    requires d < 10
    ensures IsDigit(c) && c as int - '0' as int == d
  {
    ('0' as int + d) as char
  }

  /** The shortest base-10 digit string of `n` (no leading zeros). */
  function NatToDecimal(n: nat): (s: string)
    ensures |s| > 0 && AllDigits(s)
    ensures n >= 10 <==> |s| > 1
  {
    if n < 10 then [DigitChar(n)] else NatToDecimal(n / 10) + [DigitChar(n % 10)]
  }

  /** `strconv.Itoa`: the base-10 text of `n`, with a leading '-' when negative. */
  function Itoa(n: int): string {
    if n < 0 then "-" + NatToDecimal(-n) else NatToDecimal(n)
  }

  /** The number a string of decimal digits denotes. */
  function DigitsValue(s: string): nat
    requires AllDigits(s)
  {
    if s == [] then 0 else DigitsValue(s[..|s| - 1]) * 10 + (s[|s| - 1] as int - '0' as int)
  }

  /** `strconv.ParseInt(s, 10, 64)`: an optional '+' or '-' followed by at
      least one digit, whose value fits in 64 signed bits; anything else is
      an error (None).  Leading zeros are accepted. */
  function ParseInt(s: string): (r: Option<int>)
    ensures r.Some? ==> MinInt64 <= r.value <= MaxInt64
  {
    if s == "" then None
    else
      var negative := s[0] == '-';
      var digits := if s[0] == '+' || s[0] == '-' then s[1..] else s;
      if digits == "" || !AllDigits(digits) then None
      else
        var v: int := DigitsValue(digits);
        if negative then (if -v < MinInt64 then None else Some(-v))
        else (if v > MaxInt64 then None else Some(v))
  }

  /** The digits of `n` denote `n`. */
  lemma {:induction false} DigitsValueOfNat(n: nat)
    ensures DigitsValue(NatToDecimal(n)) == n
  {
    if n >= 10 {
      DigitsValueOfNat(n / 10);
      var s := NatToDecimal(n);
      assert s[..|s| - 1] == NatToDecimal(n / 10);
    }
  }

  /** Parsing what `Itoa` prints gives back the number, for every 64-bit value. */
  lemma ParseIntItoa(n: int)
    requires MinInt64 <= n <= MaxInt64
    ensures ParseInt(Itoa(n)) == Some(n)
  {
    var s := Itoa(n);
    if n < 0 {
      DigitsValueOfNat(-n);
      assert s[1..] == NatToDecimal(-n);
    } else {
      DigitsValueOfNat(n);
    }
  }

  /** `Itoa` is a character string of digits and at most a leading minus sign:
      its first character is a digit or '-', and the rest are digits. */
  lemma ItoaShape(n: int)
    ensures |Itoa(n)| > 0
    ensures IsDigit(Itoa(n)[0]) || Itoa(n)[0] == '-'
    ensures forall i :: 1 <= i < |Itoa(n)| ==> IsDigit(Itoa(n)[i])
  {
  }
}
