/** Numbers as decimal text. */
module Decimal {

  predicate IsDigit(c: char) { '0' <= c <= '9' }

  predicate Digits(s: string) { forall i :: 0 <= i < |s| ==> IsDigit(s[i]) }

  function Value(digits: string): nat {
    if digits == "" then 0
    else
      var c := digits[|digits| - 1];
      10 * Value(digits[..|digits| - 1]) + if IsDigit(c) then (c - '0') as nat else 0
  }

  /** `QString::number`. */
  function Number(n: nat): (s: string)
    ensures s != "" && Digits(s)
  {
    if n < 10 then [('0' as int + n) as char] else Number(n / 10) + [('0' as int + n % 10) as char]
  }

  lemma {:induction false} NumberRoundTrip(n: nat)
    ensures Value(Number(n)) == n
  {
    var c := ('0' as int + n % 10) as char;
    if n < 10 {
      assert [c][..0] == "";
    } else {
      NumberRoundTrip(n / 10);
      assert Number(n)[..|Number(n)| - 1] == Number(n / 10);
    }
  }
}
