/**
 Decimal rendering and parsing of natural numbers: the template literal
 `${n}` and `Number(value)` as the page selector uses them on the values
 it renders itself.
 */
module Decimal {
  import opened Wrappers

  predicate IsDigit(c: char) {
    '0' <= c <= '9'
  }

  predicate AllDigits(s: string) {
    forall k :: 0 <= k < |s| ==> IsDigit(s[k])
  }

  function DigitChar(d: nat): (c: char)
    requires d < 10
    ensures IsDigit(c) && DigitValue(c) == d
  {
    (48 + d) as char
  }

  function DigitValue(c: char): (d: nat)
    requires IsDigit(c)
    ensures d < 10
  {
    c as int - 48
  }

  /** `${n}`: the shortest decimal numeral of `n`. */
  function Render(n: nat): (r: string)
    ensures |r| > 0 && AllDigits(r)
    ensures r[0] == '0' ==> n == 0 && |r| == 1
  {
    if n < 10 then [DigitChar(n)] else Render(n / 10) + [DigitChar(n % 10)]
  }

  /** The value of a numeral, most significant digit first. */
  function DigitsValue(s: string): nat
    requires AllDigits(s)
  {
    if |s| == 0 then 0 else 10 * DigitsValue(s[..|s| - 1]) + DigitValue(s[|s| - 1])
  }

  /** `Number(s)` on a non-empty numeral; None for anything else. */
  function Parse(s: string): (r: Option<nat>)
    ensures r.Some? <==> |s| > 0 && AllDigits(s)
    ensures r.Some? && |s| == 1 ==> r.value == DigitValue(s[0])
  {
    if |s| > 0 && AllDigits(s) then
      assert |s| == 1 ==> s[..|s| - 1] == [] && DigitsValue(s) == DigitValue(s[0]);
      Some(DigitsValue(s))
    else None
  }

  /** Rendering then parsing gives the number back. */
  lemma {:induction false} ParseRender(n: nat)
    ensures Parse(Render(n)) == Some(n)
  {
    var r := Render(n);
    if n < 10 {
      assert r[..0] == [];
      assert DigitsValue(r) == DigitValue(r[0]);
    } else {
      ParseRender(n / 10);
      assert r[..|r| - 1] == Render(n / 10);
    }
  }

  /** Distinct numbers render differently. */
  lemma RenderInjective(m: nat, n: nat)
    ensures Render(m) == Render(n) ==> m == n
  {
    ParseRender(m);
    ParseRender(n);
  }
}
