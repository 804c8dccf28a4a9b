/** Numbers written most significant digit first in any base. */
module Positional {
  import opened Words

  function Pow(base: nat, n: nat): (p: nat)
    requires 0 < base
    ensures 0 < p
  {
    if n == 0 then 1 else
      PositiveProduct(base, Pow(base, n - 1));
      base * Pow(base, n - 1)
  }

  lemma PositiveProduct(a: nat, b: nat)
    requires 0 < a && 0 < b
    ensures 0 < a * b
  {
  }

  function Value(base: nat, s: Bytes): nat
  {
    if |s| == 0 then 0 else Value(base, s[..|s| - 1]) * base + s[|s| - 1]
  }

  predicate IsDigits(base: nat, s: Bytes)
  {
    forall i :: 0 <= i < |s| ==> s[i] < base
  }

  /** The digits of a number without leading zeros. */
  function Digits(base: nat, v: nat): (s: Bytes)
    requires 2 <= base <= 256
    ensures IsDigits(base, s)
  {
    if v == 0 then [] else Digits(base, v / base) + [v % base]
  }

  lemma {:induction false} DigitsValue(base: nat, v: nat)
    requires 2 <= base <= 256
    ensures Value(base, Digits(base, v)) == v
    ensures Digits(base, v) != [] ==> Digits(base, v)[0] != 0
  {
    if v != 0 {
      DigitsValue(base, v / base);
      ValueSnoc(base, Digits(base, v / base), v % base);
      DivMod(v, base);
    }
  }

  lemma ValueSnoc(base: nat, s: Bytes, d: u8)
    ensures Value(base, s + [d]) == Value(base, s) * base + d
  {
    assert (s + [d])[..|s|] == s;
  }

  lemma DivMod(v: nat, base: nat)
    requires 0 < base
    ensures v == v / base * base + v % base && 0 <= v / base
  {
  }

  /** The number of leading zeros. */
  function Leading(s: Bytes): (n: nat)
    ensures n <= |s| && (forall i :: 0 <= i < n ==> s[i] == 0) && (n < |s| ==> s[n] != 0)
  {
    if |s| == 0 || s[0] != 0 then 0
    else
      var n := 1 + Leading(s[1..]);
      assert forall i :: 1 <= i < n ==> s[i] == s[1..][i - 1];
      n
  }

  lemma {:induction false} ValueZero(base: nat, s: Bytes)
    requires 0 < base
    ensures Value(base, s) == 0 <==> Leading(s) == |s|
  {
    if |s| != 0 {
      var t := s[..|s| - 1];
      ValueZero(base, t);
      if Value(base, t) != 0 { PositiveProduct(Value(base, t), base); }
    }
  }

  /** A number's digits are determined by its value, up to leading zeros. */
  lemma {:induction false} Canonical(base: nat, s: Bytes)
    requires 2 <= base <= 256 && IsDigits(base, s)
    ensures Digits(base, Value(base, s)) == s[Leading(s)..]
  {
    ValueZero(base, s);
    if Value(base, s) != 0 {
      var n := |s| - 1;
      var t := s[..n];
      Canonical(base, t);
      Remainder(Value(base, s), base, Value(base, t), s[n]);
      LeadingPrefix(s);
    }
  }

  lemma LeadingPrefix(s: Bytes)
    requires Leading(s) < |s|
    ensures var t := s[..|s| - 1]; Leading(s) == Leading(t) && s[Leading(s)..] == t[Leading(t)..] + [s[|s| - 1]]
  {
    var t := s[..|s| - 1];
    var n := Leading(t);
    assert n < |t| ==> t[n] == s[n];
  }

  lemma {:induction false} ValueBelow(base: nat, s: Bytes)
    requires 0 < base && IsDigits(base, s)
    ensures Value(base, s) < Pow(base, |s|)
  {
    if |s| != 0 {
      var t := s[..|s| - 1];
      ValueBelow(base, t);
      OneDigitMore(base, Value(base, t), s[|s| - 1], Pow(base, |t|));
    }
  }

  lemma OneDigitMore(base: nat, v: nat, d: nat, p: nat)
    requires v < p && d < base
    ensures v * base + d < base * p
  {
    AtLeast(base, v + 1, p);
  }

  lemma {:induction false} PowAdd(base: nat, a: nat, b: nat)
    requires 0 < base
    ensures Pow(base, a + b) == Pow(base, a) * Pow(base, b)
  {
    if a != 0 {
      PowAdd(base, a - 1, b);
      Regroup(base, Pow(base, a - 1), Pow(base, b));
    }
  }

  lemma Regroup(x: int, y: int, z: int)
    ensures x * (y * z) == x * y * z
  {
  }

  lemma PowMonotone(base: nat, a: nat, b: nat)
    requires 0 < base && a <= b
    ensures Pow(base, a) <= Pow(base, b)
  {
    hide Pow;
    PowAdd(base, a, b - a);
    AtLeast(Pow(base, a), 1, Pow(base, b - a));
  }

  /** Leading zeros do not count. */
  lemma {:induction false} ValueSkips(base: nat, s: Bytes, n: nat)
    requires n <= |s| && forall i :: 0 <= i < n ==> s[i] == 0
    ensures Value(base, s) == Value(base, s[n..])
  {
    if |s| == n {
      if n != 0 { ValueSkips(base, s[..n - 1], n - 1); }
    } else {
      ValueSkips(base, s[..|s| - 1], n);
      assert s[n..][..|s| - n - 1] == s[..|s| - 1][n..];
    }
  }
}
