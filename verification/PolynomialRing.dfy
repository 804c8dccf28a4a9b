/** The ring Z[X] / (X^256 + 1) and its reduction modulo q. */
module PolynomialRing {
  import W = Words

  type Poly = p: seq<int> | |p| == 256 witness seq(256, _ => 0)

  /** Coefficient `n` of `p` for any integer n: going once around changes the sign, because X^256 = -1. */
  function Ext(p: Poly, n: int): int
  {
    if n / 256 % 2 == 0 then p[n % 256] else -p[n % 256]
  }

  /** f(lo) + ... + f(lo + n - 1). */
  function Sum(f: int -> int, lo: int, n: nat): int
  {
    if n == 0 then 0 else Sum(f, lo, n - 1) + f(lo + n - 1)
  }

  /** The first `n` contributions to coefficient `k` of a product. */
  function Partial(a: Poly, b: Poly, k: int, n: nat): int
  {
    Sum(i => Ext(a, i) * Ext(b, k - i), 0, n)
  }

  function Conv(a: Poly, b: Poly, k: int): int
  {
    Partial(a, b, k, 256)
  }

  function Zero(): Poly
  {
    seq(256, _ => 0)
  }

  function Plus(a: Poly, b: Poly): Poly
  {
    seq(256, i requires 0 <= i < 256 => a[i] + b[i])
  }

  function Minus(a: Poly, b: Poly): Poly
  {
    seq(256, i requires 0 <= i < 256 => a[i] - b[i])
  }

  function Scale(c: int, a: Poly): Poly
  {
    seq(256, i requires 0 <= i < 256 => c * a[i])
  }

  function Times(a: Poly, b: Poly): Poly
  {
    seq(256, k => Conv(a, b, k))
  }

  /** Equal coefficient by coefficient modulo `q`. */
  predicate Equiv(a: Poly, b: Poly, q: int)
    requires 0 < q
  {
    forall k :: 0 <= k < 256 ==> a[k] % q == b[k] % q
  }

  // --- Finite sums ---

  lemma {:induction false} SumEq(f: int -> int, g: int -> int, lo: int, n: nat)
    requires forall i :: lo <= i < lo + n ==> f(i) == g(i)
    ensures Sum(f, lo, n) == Sum(g, lo, n)
  {
    if n != 0 { SumEq(f, g, lo, n - 1); }
  }

  lemma {:induction false} SumShift(f: int -> int, g: int -> int, lo: int, n: nat, d: int)
    requires forall i :: g(i) == f(i + d)
    ensures Sum(g, lo, n) == Sum(f, lo + d, n)
  {
    if n != 0 { SumShift(f, g, lo, n - 1, d); }
  }

  lemma {:induction false} SumFirst(f: int -> int, lo: int, n: nat)
    requires 0 < n
    ensures Sum(f, lo, n) == f(lo) + Sum(f, lo + 1, n - 1)
  {
    if n != 1 { SumFirst(f, lo, n - 1); }
  }

  lemma {:induction false} SumReverse(f: int -> int, g: int -> int, lo: int, n: nat, k: int)
    requires forall i :: g(i) == f(k - i)
    ensures Sum(g, lo, n) == Sum(f, k - lo - n + 1, n)
  {
    if n != 0 {
      SumReverse(f, g, lo, n - 1, k);
      SumFirst(f, k - lo - n + 1, n);
    }
  }

  /** A function of period 256 has the same sum over every full period. */
  lemma {:induction false} SumPeriodic(f: int -> int, lo: int)
    requires forall i :: f(i) == f(i + 256)
    ensures Sum(f, lo, 256) == Sum(f, 0, 256)
    decreases if lo < 0 then -lo else lo
  {
    if lo < 0 {
      SumPeriodic(f, lo + 1);
      SumSlides(f, lo);
    } else if 0 < lo {
      SumPeriodic(f, lo - 1);
      SumSlides(f, lo - 1);
    }
  }

  lemma SumSlides(f: int -> int, lo: int)
    requires f(lo) == f(lo + 256)
    ensures Sum(f, lo, 256) == Sum(f, lo + 1, 256)
  {
    SumFirst(f, lo, 256);
    assert Sum(f, lo + 1, 256) == Sum(f, lo + 1, 255) + f(lo + 256);
  }

  lemma {:induction false} SumAdd(f: int -> int, g: int -> int, h: int -> int, lo: int, n: nat)
    requires forall i :: h(i) == f(i) + g(i)
    ensures Sum(h, lo, n) == Sum(f, lo, n) + Sum(g, lo, n)
  {
    if n != 0 { SumAdd(f, g, h, lo, n - 1); }
  }

  lemma {:induction false} SumScale(f: int -> int, h: int -> int, c: int, lo: int, n: nat)
    requires forall i :: h(i) == c * f(i)
    ensures Sum(h, lo, n) == c * Sum(f, lo, n)
  {
    if n != 0 {
      SumScale(f, h, c, lo, n - 1);
      Distribute(c, Sum(f, lo, n - 1), f(lo + n - 1));
    }
  }

  lemma Distribute(c: int, x: int, y: int)
    ensures c * (x + y) == c * x + c * y
  {
  }

  function RowSum(rows: (int, int) -> int, i: int, m: nat): int
  {
    Sum(j => rows(i, j), 0, m)
  }

  function DoubleSum(rows: (int, int) -> int, n: nat, m: nat): int
  {
    Sum(i => RowSum(rows, i, m), 0, n)
  }

  /** A double sum can be taken in either order. */
  lemma {:induction false} SumSwap(rows: (int, int) -> int, flip: (int, int) -> int, n: nat, m: nat)
    requires forall i, j :: rows(i, j) == flip(j, i)
    ensures DoubleSum(rows, n, m) == DoubleSum(flip, m, n)
  {
    if n == 0 {
      SumZero(j => RowSum(flip, j, 0), m);
    } else {
      SumSwap(rows, flip, n - 1, m);
      var f, g, h := j => RowSum(flip, j, n - 1), j => rows(n - 1, j), j => RowSum(flip, j, n);
      forall j ensures h(j) == f(j) + g(j) { RowUnfolds(flip, j, n); }
      SumAdd(f, g, h, 0, m);
      assert DoubleSum(rows, n, m) == DoubleSum(rows, n - 1, m) + RowSum(rows, n - 1, m);
    }
  }

  lemma RowUnfolds(rows: (int, int) -> int, i: int, m: nat)
    requires 0 < m
    ensures RowSum(rows, i, m) == RowSum(rows, i, m - 1) + rows(i, m - 1)
  {
  }

  lemma {:induction false} SumZero(f: int -> int, n: nat)
    requires forall i :: f(i) == 0
    ensures Sum(f, 0, n) == 0
  {
    if n != 0 { SumZero(f, n - 1); }
  }

  // --- The product ---

  lemma ExtShift(p: Poly, n: int, c: int)
    ensures Ext(p, n + 256 * c) == if c % 2 == 0 then Ext(p, n) else -Ext(p, n)
  {
    assert (n + 256 * c) / 256 == n / 256 + c && (n + 256 * c) % 256 == n % 256;
  }

  /** The summand of a product, which has period 256 in `i`. */
  function Term(a: Poly, b: Poly, k: int): int -> int
  {
    i => Ext(a, i) * Ext(b, k - i)
  }

  lemma TermPeriodic(a: Poly, b: Poly, k: int)
    ensures forall i :: Term(a, b, k)(i) == Term(a, b, k)(i + 256)
  {
    hide Ext;
    forall i ensures Term(a, b, k)(i) == Term(a, b, k)(i + 256) {
      ExtShift(a, i, 1);
      ExtShift(b, k - i, -1);
      Signs(Ext(a, i), Ext(b, k - i));
    }
  }

  lemma Signs(x: int, y: int)
    ensures x * y == (-x) * (-y)
  {
  }

  lemma ConvIsSum(a: Poly, b: Poly, k: int)
    ensures Conv(a, b, k) == Sum(Term(a, b, k), 0, 256)
  {
    SumEq(i => Ext(a, i) * Ext(b, k - i), Term(a, b, k), 0, 256);
  }

  lemma ConvCommutes(a: Poly, b: Poly, k: int)
    ensures Conv(a, b, k) == Conv(b, a, k)
  {
    hide Ext, Sum, Conv;
    ConvIsSum(a, b, k);
    ConvIsSum(b, a, k);
    var f, g := Term(a, b, k), Term(b, a, k);
    SumReverse(f, g, 0, 256, k);
    TermPeriodic(a, b, k);
    SumPeriodic(f, k - 255);
  }

  /** Multiplication commutes. */
  lemma TimesCommutes(a: Poly, b: Poly)
    ensures Times(a, b) == Times(b, a)
  {
    hide Conv;
    forall k ensures Conv(a, b, k) == Conv(b, a, k) { ConvCommutes(a, b, k); }
  }

  /** The extended coefficients of a product are the product's sums at every integer. */
  lemma ExtTimes(a: Poly, b: Poly, n: int)
    ensures Ext(Times(a, b), n) == Conv(a, b, n)
  {
    hide Conv;
    ConvShift(a, b, n % 256, n / 256);
  }

  lemma ConvShift(a: Poly, b: Poly, n: int, c: int)
    ensures Conv(a, b, n + 256 * c) == if c % 2 == 0 then Conv(a, b, n) else -Conv(a, b, n)
  {
    hide Ext, Sum, Conv;
    ConvIsSum(a, b, n);
    ConvIsSum(a, b, n + 256 * c);
    var f, g := Term(a, b, n), Term(a, b, n + 256 * c);
    var sign := if c % 2 == 0 then 1 else -1;
    forall i ensures g(i) == sign * f(i) {
      ExtShift(b, n - i, c);
      assert n + 256 * c - i == n - i + 256 * c;
      Signed(Ext(a, i), Ext(b, n - i), sign);
    }
    SumScale(f, g, sign, 0, 256);
  }

  lemma Signed(x: int, y: int, s: int)
    ensures x * (s * y) == s * (x * y)
  {
  }

  function Triple(a: Poly, b: Poly, c: Poly, k: int): (int, int) -> int
  {
    (j, i) => Ext(a, i) * Ext(b, j - i) * Ext(c, k - j)
  }

  /** Column `j` of the double sum behind (ab)c. */
  lemma InnerLeft(a: Poly, b: Poly, c: Poly, k: int, j: int)
    ensures RowSum(Triple(a, b, c, k), j, 256) == Ext(Times(a, b), j) * Ext(c, k - j)
  {
    hide Ext, Sum, Times;
    var f := Term(a, b, j);
    var rows := Triple(a, b, c, k);
    ExtTimes(a, b, j);
    ConvIsSum(a, b, j);
    SumScale(f, i => rows(j, i), Ext(c, k - j), 0, 256);
  }

  /** Row `i` of the double sum behind a(bc). */
  lemma InnerRight(a: Poly, b: Poly, c: Poly, k: int, i: int, flip: (int, int) -> int)
    requires forall j :: flip(i, j) == Triple(a, b, c, k)(j, i)
    ensures RowSum(flip, i, 256) == Ext(a, i) * Ext(Times(b, c), k - i)
  {
    hide Ext, Sum, Times;
    var f := Term(b, c, k - i);
    var g := j => f(j - i);
    ExtTimes(b, c, k - i);
    ConvIsSum(b, c, k - i);
    TermPeriodic(b, c, k - i);
    SumPeriodic(f, -i);
    SumShift(f, g, 0, 256, -i);
    forall j ensures flip(i, j) == Ext(a, i) * g(j) {
      assert k - i - (j - i) == k - j;
      Regroup(Ext(a, i), Ext(b, j - i), Ext(c, k - j));
    }
    SumScale(g, j => flip(i, j), Ext(a, i), 0, 256);
  }

  lemma Regroup(x: int, y: int, z: int)
    ensures x * y * z == x * (y * z)
  {
  }

  lemma ConvAssociates(a: Poly, b: Poly, c: Poly, k: int)
    ensures Conv(Times(a, b), c, k) == Conv(a, Times(b, c), k)
  {
    hide Ext, Sum, Conv, Times;
    var rows := Triple(a, b, c, k);
    var flip := (i, j) => rows(j, i);
    SumSwap(rows, flip, 256, 256);
    var left, right := Term(Times(a, b), c, k), Term(a, Times(b, c), k);
    ConvIsSum(Times(a, b), c, k);
    ConvIsSum(a, Times(b, c), k);
    forall j ensures RowSum(rows, j, 256) == left(j) { InnerLeft(a, b, c, k, j); }
    forall i ensures RowSum(flip, i, 256) == right(i) { InnerRight(a, b, c, k, i, flip); }
    DoubleSumIs(rows, left);
    DoubleSumIs(flip, right);
  }

  lemma DoubleSumIs(rows: (int, int) -> int, f: int -> int)
    requires forall i :: RowSum(rows, i, 256) == f(i)
    ensures DoubleSum(rows, 256, 256) == Sum(f, 0, 256)
  {
    hide Sum, RowSum;
    SumEq(i => RowSum(rows, i, 256), f, 0, 256);
  }

  /** Multiplication associates. */
  lemma TimesAssociates(a: Poly, b: Poly, c: Poly)
    ensures Times(Times(a, b), c) == Times(a, Times(b, c))
  {
    hide Conv;
    var ab, bc := Times(a, b), Times(b, c);
    forall k ensures Conv(ab, c, k) == Conv(a, bc, k) { ConvAssociates(a, b, c, k); }
  }

  /** Multiplication distributes over addition. */
  lemma TimesPlus(a: Poly, b: Poly, c: Poly)
    ensures Times(a, Plus(b, c)) == Plus(Times(a, b), Times(a, c))
  {
    hide Conv;
    forall k ensures Conv(a, Plus(b, c), k) == Conv(a, b, k) + Conv(a, c, k) { ConvPlus(a, b, c, k); }
  }

  lemma ConvPlus(a: Poly, b: Poly, c: Poly, k: int)
    ensures Conv(a, Plus(b, c), k) == Conv(a, b, k) + Conv(a, c, k)
  {
    hide Ext, Sum, Conv, Plus;
    ConvIsSum(a, b, k);
    ConvIsSum(a, c, k);
    ConvIsSum(a, Plus(b, c), k);
    var f, g, h := Term(a, b, k), Term(a, c, k), Term(a, Plus(b, c), k);
    forall i ensures h(i) == f(i) + g(i) {
      ExtPlus(b, c, k - i);
      Distribute(Ext(a, i), Ext(b, k - i), Ext(c, k - i));
    }
    SumAdd(f, g, h, 0, 256);
  }

  lemma ExtPlus(b: Poly, c: Poly, n: int)
    ensures Ext(Plus(b, c), n) == Ext(b, n) + Ext(c, n)
  {
  }

  lemma TimesScale(a: Poly, c: int, b: Poly)
    ensures Times(a, Scale(c, b)) == Scale(c, Times(a, b))
  {
    hide Conv;
    forall k ensures Conv(a, Scale(c, b), k) == c * Conv(a, b, k) { ConvScale(a, c, b, k); }
  }

  lemma ConvScale(a: Poly, c: int, b: Poly, k: int)
    ensures Conv(a, Scale(c, b), k) == c * Conv(a, b, k)
  {
    hide Ext, Sum, Conv, Scale;
    ConvIsSum(a, b, k);
    ConvIsSum(a, Scale(c, b), k);
    var f, h := Term(a, b, k), Term(a, Scale(c, b), k);
    forall i ensures h(i) == c * f(i) {
      ExtScale(c, b, k - i);
      Signed(Ext(a, i), Ext(b, k - i), c);
    }
    SumScale(f, h, c, 0, 256);
  }

  lemma ExtScale(c: int, b: Poly, n: int)
    ensures Ext(Scale(c, b), n) == c * Ext(b, n)
  {
    var x := b[n % 256];
    assert c * (-x) == -(c * x);
  }

  // --- Reduction modulo q ---

  function Mod(p: Poly, q: int): Poly
    requires 0 < q
  {
    seq(256, i requires 0 <= i < 256 => p[i] % q)
  }

  lemma Twice(x: int, q: int)
    requires 0 < q
    ensures x % q % q == x % q
  {
    W.Remainder(x % q, q, 0, x % q);
  }

  lemma ModEquiv(p: Poly, q: int)
    requires 0 < q
    ensures Equiv(Mod(p, q), p, q)
  {
    forall k | 0 <= k < 256 ensures p[k] % q % q == p[k] % q { Twice(p[k], q); }
  }

  lemma SameMod(x: int, y: int, q: int, d: int)
    requires 0 < q && x == y + q * d
    ensures x % q == y % q
  {
    var c, r := y / q, y % q;
    assert y == q * c + r;
    assert x == q * (c + d) + r;
    W.Remainder(x, q, c + d, r);
  }

  lemma Quotient(x: int, y: int, q: int)
    requires 0 < q && x % q == y % q
    ensures x == y + q * (x / q - y / q)
  {
    assert x == q * (x / q) + x % q && y == q * (y / q) + y % q;
    assert q * (x / q - y / q) == q * (x / q) - q * (y / q);
  }

  lemma EquivMod(a: Poly, b: Poly, q: int)
    requires 0 < q && Equiv(a, b, q)
    ensures Mod(a, q) == Mod(b, q)
  {
    assert forall k :: 0 <= k < 256 ==> Mod(a, q)[k] == Mod(b, q)[k];
  }

  lemma AddMod(x: int, y: int, u: int, v: int, q: int)
    requires 0 < q && x % q == y % q && u % q == v % q
    ensures (x + u) % q == (y + v) % q && (x - u) % q == (y - v) % q
  {
    var c, d := x / q - y / q, u / q - v / q;
    Quotient(x, y, q);
    Quotient(u, v, q);
    Distribute(q, c, d);
    Distribute(q, c, -d);
    assert q * (-d) == -(q * d);
    SameMod(x + u, y + v, q, c + d);
    SameMod(x - u, y - v, q, c - d);
  }

  /** Sums and differences may be reduced at any time. */
  lemma PlusEquiv(a: Poly, b: Poly, c: Poly, d: Poly, q: int)
    requires 0 < q && Equiv(a, b, q) && Equiv(c, d, q)
    ensures Equiv(Plus(a, c), Plus(b, d), q) && Equiv(Minus(a, c), Minus(b, d), q)
  {
    forall k | 0 <= k < 256
      ensures (a[k] + c[k]) % q == (b[k] + d[k]) % q && (a[k] - c[k]) % q == (b[k] - d[k]) % q
    {
      AddMod(a[k], b[k], c[k], d[k], q);
    }
  }

  /** A factor may be reduced before multiplying. */
  lemma TimesEquiv(a: Poly, b: Poly, c: Poly, q: int)
    requires 0 < q && Equiv(b, c, q)
    ensures Equiv(Times(a, b), Times(a, c), q)
  {
    hide Times;
    var d := seq(256, i requires 0 <= i < 256 => b[i] / q - c[i] / q);
    forall i | 0 <= i < 256 ensures b[i] == c[i] + q * d[i] { Quotient(b[i], c[i], q); }
    assert b == Plus(c, Scale(q, d));
    TimesPlus(a, c, Scale(q, d));
    TimesScale(a, q, d);
    var x, y, z := Times(a, b), Times(a, c), Times(a, d);
    forall k | 0 <= k < 256 ensures x[k] % q == y[k] % q { SameMod(x[k], y[k], q, z[k]); }
  }

  /** The reduced product associates. */
  lemma ReducedAssociates(a: Poly, b: Poly, c: Poly, q: int)
    requires 0 < q
    ensures Mod(Times(Mod(Times(a, b), q), c), q) == Mod(Times(a, Mod(Times(b, c), q)), q)
  {
    hide Times, Mod, Equiv;
    var ab, bc := Times(a, b), Times(b, c);
    ModEquiv(ab, q);
    ModEquiv(bc, q);
    TimesEquiv(c, Mod(ab, q), ab, q);
    TimesCommutes(c, Mod(ab, q));
    TimesCommutes(c, ab);
    TimesEquiv(a, Mod(bc, q), bc, q);
    EquivMod(Times(Mod(ab, q), c), Times(ab, c), q);
    EquivMod(Times(a, Mod(bc, q)), Times(a, bc), q);
    TimesAssociates(a, b, c);
  }

  /** And distributes over the reduced sum. */
  lemma ReducedDistributes(a: Poly, b: Poly, c: Poly, q: int)
    requires 0 < q
    ensures Mod(Times(a, Mod(Plus(b, c), q)), q) == Mod(Plus(Mod(Times(a, b), q), Mod(Times(a, c), q)), q)
  {
    hide Times, Plus, Mod, Equiv;
    var ab, ac := Times(a, b), Times(a, c);
    ModEquiv(Plus(b, c), q);
    TimesEquiv(a, Mod(Plus(b, c), q), Plus(b, c), q);
    EquivMod(Times(a, Mod(Plus(b, c), q)), Times(a, Plus(b, c)), q);
    TimesPlus(a, b, c);
    ModEquiv(ab, q);
    ModEquiv(ac, q);
    PlusEquiv(Mod(ab, q), ab, Mod(ac, q), ac, q);
    EquivMod(Plus(Mod(ab, q), Mod(ac, q)), Plus(ab, ac), q);
  }
}
