/** Decimal numerals, and C's classes of characters. */
module Decimal {

  function Digit(d: nat): (c: char)
    requires d < 10
    ensures '0' <= c <= '9' && c as int == 48 + d
  {
    ('0' as int + d) as char
  }

  predicate IsDigit(c: char): (r: bool)
    ensures r <==> 48 <= c as int < 58
  {
    '0' <= c <= '9'
  }

  /** The numeral of n, with no leading zeros. */
  function Dec(n: nat): (s: string)
    ensures s != ""
  {
    if n < 10 then [Digit(n)] else Dec(n / 10) + [Digit(n % 10)]
  }

  lemma {:induction false} DecIsDigits(n: nat)
    ensures forall i :: 0 <= i < |Dec(n)| ==> IsDigit(Dec(n)[i])
  {
    if n < 10 {
    } else {
      DecIsDigits(n / 10);
    }
  }

  /** `isspace` in the C locale: the blank, and the codes 9 to 13. */
  predicate Space(c: char): (r: bool)
    ensures r <==> c as int == 32 || 9 <= c as int <= 13
  {
    c in " \t\n\r\U{0B}\U{0C}"
  }

  predicate AllSpace(s: string) { forall i :: 0 <= i < |s| ==> Space(s[i]) }

  predicate Suffix(s: string, t: string) { |s| <= |t| && t[|t| - |s|..] == s }

  lemma SuffixSnoc(s: string, c: char, t: string, d: char)
    ensures Suffix(s + [c], t + [d]) <==> c == d && Suffix(s, t)
  {
    if |s| <= |t| {
      var u := t[|t| - |s|..];
      assert (t + [d])[|t| - |s|..] == u + [d];
      assert (s + [c])[..|s|] == s && (u + [d])[..|u|] == u;
      assert (s + [c])[|s|] == c && (u + [d])[|u|] == d;
    }
  }

  lemma {:induction false} DecSnoc(n: nat)
    ensures Dec(n) == (if n < 10 then "" else Dec(n / 10)) + [Digit(n % 10)]
  {}

  /** Digit by digit from the right, the digits of k are those of n. */
  predicate EndsWith(n: nat, k: nat) {
    n % 10 == k % 10 && (k < 10 || (n >= 10 && EndsWith(n / 10, k / 10)))
  }

  /** One numeral is a suffix of another exactly when the divisions say so. */
  lemma {:induction false} SuffixIsEndsWith(n: nat, k: nat)
    ensures Suffix(Dec(k), Dec(n)) <==> EndsWith(n, k)
  {
    var s := if k < 10 then "" else Dec(k / 10);
    var t := if n < 10 then "" else Dec(n / 10);
    DecSnoc(k);
    DecSnoc(n);
    SuffixSnoc(s, Digit(k % 10), t, Digit(n % 10));
    if k < 10 {
      assert t[|t|..] == "";
    } else if n >= 10 {
      SuffixIsEndsWith(n / 10, k / 10);
    }
  }

  lemma {:induction false} EndsWithStep(n: nat, k: nat, h: nat)
    requires k >= 10 && h == k / 10
    ensures EndsWith(n, k) <==> n % 10 == k % 10 && n >= 10 && EndsWith(n / 10, h)
  {}

  lemma LastTwo(n: nat, q: nat, r: nat)
    requires n == 10 * q + r && r < 10
    ensures n % 100 == 10 * (q % 10) + r
  {}

  lemma LastThree(n: nat, q: nat, r: nat)
    requires n == 10 * q + r && r < 10
    ensures n % 1000 == 10 * (q % 100) + r
  {}

  lemma LastFour(n: nat, q: nat, r: nat)
    requires n == 10 * q + r && r < 10
    ensures n % 10000 == 10 * (q % 1000) + r
  {}

  lemma {:induction false} EndsWith10(n: nat, k: nat)
    requires k == 10
    ensures EndsWith(n, k) <==> n % 100 == 10
  {
    var one := k / 10;
    EndsWithStep(n, k, one);
    assert EndsWith(n / 10, one) <==> n / 10 % 10 == 1;
    LastTwo(n, n / 10, n % 10);
  }

  lemma {:induction false} EndsWith100(n: nat, k: nat)
    requires k == 100
    ensures EndsWith(n, k) <==> n % 1000 == 100
  {
    EndsWithStep(n, k, k / 10);
    EndsWith10(n / 10, k / 10);
    LastThree(n, n / 10, n % 10);
  }

  lemma {:induction false} EndsWith1000(n: nat, k: nat)
    requires k == 1000
    ensures EndsWith(n, k) <==> n % 10000 == 1000
  {
    EndsWithStep(n, k, k / 10);
    EndsWith100(n / 10, k / 10);
    LastFour(n, n / 10, n % 10);
  }
}
