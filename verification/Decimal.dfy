/**
  Decimal text of unsigned integers, as Rust prints them with `{}` and reads them back with
  `str::parse`: an optional leading `+`, at least one digit, no overflow.
*/
module Decimal {
  import opened Results

  predicate IsDigit(c: char) {
    '0' <= c <= '9'
  }

  function DigitValue(c: char): (v: nat)
    requires IsDigit(c)
  {
    c as nat - '0' as nat
  }

  function DigitChar(v: nat): (c: char)
    requires v < 10
    ensures IsDigit(c) && DigitValue(c) == v
  {
    ('0' as nat + v) as char
  }

  function Print(n: nat): string {
    if n < 10 then [DigitChar(n)] else Print(n / 10) + [DigitChar(n % 10)]
  }

  lemma {:induction false} PrintsDigits(n: nat)
    ensures Print(n) != "" && AllDigits(Print(n))
  {
    if n >= 10 {
      PrintsDigits(n / 10);
    }
  }

  /** The number a digit string denotes, most significant digit first. */
  function Value(digits: string): (n: nat)
    requires AllDigits(digits)
  {
    if digits == "" then 0
    else 10 * Value(digits[..|digits| - 1]) + DigitValue(digits[|digits| - 1])
  }

  predicate AllDigits(text: string) {
    forall i | 0 <= i < |text| :: IsDigit(text[i])
  }

  /** `text.parse::<uN>()` for an unsigned type whose values are below `bound`. */
  function Parse(text: string, bound: nat): (r: Option<nat>)
    ensures r.Some? ==> r.value < bound
  {
    var digits := if |text| > 0 && text[0] == '+' then text[1..] else text;
    if digits != "" && AllDigits(digits) && Value(digits) < bound then Some(Value(digits)) else None
  }

  lemma {:induction false} ValueOfPrint(n: nat)
    ensures AllDigits(Print(n)) && Value(Print(n)) == n
  {
    PrintsDigits(n);
    if n >= 10 {
      ValueOfPrint(n / 10);
      var text := Print(n);
      assert text[..|text| - 1] == Print(n / 10);
    }
  }

  /** Every number in range survives being printed and read back. */
  lemma ParsePrint(n: nat, bound: nat)
    ensures Parse(Print(n), bound) == if n < bound then Some(n) else None
  {
    ValueOfPrint(n);
    PrintsDigits(n);
    assert Print(n)[0] != '+';
  }
}
