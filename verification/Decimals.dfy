/** Decimal printing, and parsing as Rust's `u32::from_str` does it. */
module Decimals {
  import opened Wrappers

  const U32_LIMIT := 0x1_0000_0000

  predicate IsDigit(c: char) { '0' <= c <= '9' }

  predicate AllDigits(s: string)
  {
    forall i :: 0 <= i < |s| ==> IsDigit(s[i])
  }

  function ToDecimal(n: nat): (s: string)
    ensures |s| >= 1 && AllDigits(s)
  {
    (if n < 10 then [] else ToDecimal(n / 10)) + ['0' + (n % 10) as char]
  }

  function DigitsValue(s: string): nat
    requires AllDigits(s)
  {
    if |s| == 0 then 0 else 10 * DigitsValue(s[..|s| - 1]) + (s[|s| - 1] as int - '0' as int)
  }

  function ParseU32(s: string): Option<nat>
  {
    var digits := if |s| > 1 && s[0] == '+' then s[1..] else s;
    if |digits| == 0 || !AllDigits(digits) then None
    else if DigitsValue(digits) >= U32_LIMIT then None
    else Some(DigitsValue(digits))
  }

  lemma ValueSnoc(s: string, d: nat)
    requires AllDigits(s) && d < 10
    ensures AllDigits(s + ['0' + d as char])
    ensures DigitsValue(s + ['0' + d as char]) == 10 * DigitsValue(s) + d
  {
    var t := s + ['0' + d as char];
    assert t[..|t| - 1] == s;
  }

  lemma {:induction false} ValueOfDecimal(n: nat)
    ensures DigitsValue(ToDecimal(n)) == n
  {
    hide DigitsValue;
    if n < 10 {
      ValueSnoc("", n);
      NoDigits();
      assert ToDecimal(n) == "" + ['0' + n as char];
    } else {
      ValueOfDecimal(n / 10);
      ValueSnoc(ToDecimal(n / 10), n % 10);
    }
  }

  lemma NoDigits()
    ensures DigitsValue("") == 0
  {
  }

  lemma U32RoundTrip(n: nat)
    ensures ParseU32(ToDecimal(n)) == if n < U32_LIMIT then Some(n) else None
  {
    ValueOfDecimal(n);
    assert ToDecimal(n)[0] != '+';
  }
}
