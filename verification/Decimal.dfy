/** Decimal numerals as `to_string` prints them. */
module Decimal {

  predicate IsDigit(c: char) {
    '0' <= c <= '9'
  }

  function Digit(n: nat): (c: char)
    requires n < 10
    ensures IsDigit(c)
  {
    '0' + n as char
  }

  function ToString(n: nat): (s: string)
    ensures s != [] && forall i :: 0 <= i < |s| ==> IsDigit(s[i])
  {
    if n < 10 then [Digit(n)] else ToString(n / 10) + [Digit(n % 10)]
  }

  lemma {:induction false} ToStringInjective(m: nat, n: nat)
    requires ToString(m) == ToString(n)
    ensures m == n
  {
    var s, t := ToString(m), ToString(n);
    assert s[|s| - 1] == Digit(m % 10) && t[|t| - 1] == Digit(n % 10);
    assert m % 10 == n % 10;
    if m >= 10 {
      assert |s| >= 2 && n >= 10;
      assert s[..|s| - 1] == ToString(m / 10) && t[..|t| - 1] == ToString(n / 10);
      ToStringInjective(m / 10, n / 10);
    } else {
      assert |s| == 1;
      assert n >= 10 ==> |t| >= 2;
    }
  }

  /** The number at the end of a text is determined by the text when no digit precedes it. */
  lemma TrailingNumber(a: string, b: string, m: nat, n: nat)
    requires a != [] && b != [] && !IsDigit(a[|a| - 1]) && !IsDigit(b[|b| - 1])
    requires a + ToString(m) == b + ToString(n)
    ensures m == n
  {
    var s := a + ToString(m);
    assert !IsDigit(s[|a| - 1]) && !IsDigit(s[|b| - 1]);
    assert forall i :: |a| <= i < |s| ==> IsDigit(s[i]);
    assert forall i :: |b| <= i < |s| ==> IsDigit((b + ToString(n))[i]);
    assert |a| == |b|;
    assert s[|a|..] == ToString(m) && (b + ToString(n))[|b|..] == ToString(n);
    ToStringInjective(m, n);
  }
}
