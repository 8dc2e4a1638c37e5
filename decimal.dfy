/**
 Decimal rendering of an unsigned integer, as Rust's `Display` for `usize`
 produces it (most significant digit first, no sign, no leading zeros, "0"
 for zero), together with the reading back of such a rendering.
 */
module Decimal {

  predicate IsDigit(c: char) {
    '0' <= c <= '9'
  }

  predicate AllDigits(s: string) {
    forall i :: 0 <= i < |s| ==> IsDigit(s[i])
  }

  /** A rendering as `Display` writes it: non-empty, digits only, and no
      leading zero unless the number is zero itself. */
  predicate Canonical(s: string) {
    |s| >= 1 && AllDigits(s) && (s[0] == '0' ==> |s| == 1)
  }

  function DigitValue(c: char): (d: nat)
    requires IsDigit(c)
    ensures d < 10
  {
    c as int - '0' as int
  }

  function DigitChar(d: nat): (c: char)
    requires d < 10
    ensures IsDigit(c) && DigitValue(c) == d
    ensures c == '0' <==> d == 0
  {
    ('0' as int + d) as char
  }

  lemma DigitCharOfValue(c: char)
    requires IsDigit(c)
    ensures DigitChar(DigitValue(c)) == c
  {
  }

  /** The decimal rendering of `n`. */
  function FromNat(n: nat): (s: string)
    ensures Canonical(s)
    ensures s[0] == '0' <==> n == 0
    decreases n
  {
    if n < 10 then [DigitChar(n)] else FromNat(n / 10) + [DigitChar(n % 10)]
  }

  /** The number a string of digits denotes. */
  function ToNat(s: string): nat
    requires AllDigits(s)
    decreases |s|
  {
    if |s| == 0 then 0 else 10 * ToNat(s[..|s| - 1]) + DigitValue(s[|s| - 1])
  }

  /** Reading a rendering back gives the number that was rendered. */
  lemma {:induction false} ToNatFromNat(n: nat)
    ensures ToNat(FromNat(n)) == n
    decreases n
  {
    var s := FromNat(n);
    if n < 10 {
      assert s[..|s| - 1] == [];
    } else {
      var prefix := FromNat(n / 10);
      assert s[..|s| - 1] == prefix;
      ToNatFromNat(n / 10);
      assert ToNat(s) == 10 * (n / 10) + n % 10;
    }
  }

  /** A string of digits that does not start with '0' denotes a positive
      number, and one of at least two digits once it has two digits. */
  lemma {:induction false} ToNatLowerBound(s: string)
    requires |s| >= 1 && AllDigits(s) && s[0] != '0'
    ensures ToNat(s) >= 1
    ensures |s| >= 2 ==> ToNat(s) >= 10
    decreases |s|
  {
    if |s| >= 2 {
      var prefix := s[..|s| - 1];
      assert prefix[0] == s[0];
      ToNatLowerBound(prefix);
    }
  }

  /** Rendering the number a canonical string denotes gives that string:
      `FromNat` is onto the canonical strings, so it is a bijection. */
  lemma {:induction false} FromNatToNat(s: string)
    requires Canonical(s)
    ensures FromNat(ToNat(s)) == s
    decreases |s|
  {
    var last := s[|s| - 1];
    if |s| == 1 {
      DigitCharOfValue(last);
      assert s == [last];
    } else {
      var prefix := s[..|s| - 1];
      assert prefix[0] == s[0];
      var p := ToNat(prefix);
      var d := DigitValue(last);
      var n := ToNat(s);
      assert n == 10 * p + d;
      ToNatLowerBound(prefix);
      assert n / 10 == p && n % 10 == d;
      FromNatToNat(prefix);
      DigitCharOfValue(last);
      assert s == prefix + [last];
    }
  }
}
