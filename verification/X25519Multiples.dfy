/** The ladder computes multiples of a point on the curve y^2 = x^3 + 486662 x^2 + x, by their x-coordinates. */
module X25519Multiples {
  import opened Words
  import opened Curve25519Field
  import opened X25519

  /** A fraction x / z modulo p. */
  datatype Point = Point(x: int, z: int)

  /** The x-coordinate of twice a point. */
  function Doubled(p: Point): Point
  {
    var xx, xz, zz := p.x * p.x, p.x * p.z, p.z * p.z;
    Point((xx - zz) * (xx - zz), 4 * xz * (xx + 486662 * xz + zz))
  }

  /** The x-coordinate of the sum of two points whose difference has x-coordinate `u`. */
  function Added(u: int, p: Point, q: Point): Point
  {
    var n, d := p.x * q.x - p.z * q.z, p.x * q.z - p.z * q.x;
    Point(4 * (n * n), 4 * u * (d * d))
  }

  /** The x-coordinate of n times a point with x-coordinate `u`; zero times it has none. */
  function Multiple(n: nat, u: int): Point
  {
    if n == 0 then Point(1, 0)
    else if n == 1 then Point(u, 1)
    else if n % 2 == 0 then Doubled(Multiple(n / 2, u))
    else Added(u, Multiple(n / 2, u), Multiple(n / 2 + 1, u))
  }

  // --- Both operations respect congruence and common factors ---

  function Scaled(c: int, p: Point): Point
  {
    Point(c * p.x, c * p.z)
  }

  predicate Same(p: Point, q: Point)
  {
    Cong(p.x, q.x) && Cong(p.z, q.z)
  }

  lemma SameTrans(p: Point, q: Point, r: Point)
    requires Same(p, q) && Same(q, r)
    ensures Same(p, r)
  {
    hide Cong;
    CongTrans(p.x, q.x, r.x);
    CongTrans(p.z, q.z, r.z);
  }

  lemma CongSelf(x: int)
    ensures Cong(x, x)
  {
    CongBy(x, x, 0);
  }

  lemma DoubledSame(p: Point, q: Point)
    requires Same(p, q)
    ensures Same(Doubled(p), Doubled(q))
  {
    hide Cong;
    var a, b, c := p.x * p.x, p.x * p.z, p.z * p.z;
    var a', b', c' := q.x * q.x, q.x * q.z, q.z * q.z;
    CongProduct(p.x, p.x, q.x, q.x);
    CongProduct(p.x, p.z, q.x, q.z);
    CongProduct(p.z, p.z, q.z, q.z);
    CongSum(a, c, a', c');
    CongProduct(a - c, a - c, a' - c', a' - c');
    CongSelf(486662);
    CongProduct(486662, b, 486662, b');
    CongSum(a, 486662 * b, a', 486662 * b');
    CongSum(a + 486662 * b, c, a' + 486662 * b', c');
    CongSelf(4);
    CongProduct(4, b, 4, b');
    CongProduct(4 * b, a + 486662 * b + c, 4 * b', a' + 486662 * b' + c');
  }

  lemma AddedSame(u: int, p: Point, q: Point, p': Point, q': Point)
    requires Same(p, p') && Same(q, q')
    ensures Same(Added(u, p, q), Added(u, p', q'))
  {
    hide Cong;
    CongProduct(p.x, q.x, p'.x, q'.x);
    CongProduct(p.z, q.z, p'.z, q'.z);
    CongProduct(p.x, q.z, p'.x, q'.z);
    CongProduct(p.z, q.x, p'.z, q'.x);
    CongSum(p.x * q.x, p.z * q.z, p'.x * q'.x, p'.z * q'.z);
    CongSum(p.x * q.z, p.z * q.x, p'.x * q'.z, p'.z * q'.x);
    var n, d := p.x * q.x - p.z * q.z, p.x * q.z - p.z * q.x;
    var n', d' := p'.x * q'.x - p'.z * q'.z, p'.x * q'.z - p'.z * q'.x;
    CongProduct(n, n, n', n');
    CongProduct(d, d, d', d');
    CongSelf(4);
    CongSelf(4 * u);
    CongProduct(4, n * n, 4, n' * n');
    CongProduct(4 * u, d * d, 4 * u, d' * d');
  }

  lemma Squared(c: int, a: int)
    ensures (c * a) * (c * a) == (c * c) * (a * a)
  {
    Regrouped(c, a, c, a);
  }

  lemma Regrouped(c: int, a: int, d: int, b: int)
    ensures (c * a) * (d * b) == (c * d) * (a * b)
  {
    assert (c * a) * (d * b) == c * (a * (d * b)) == c * (d * (a * b));
  }

  lemma Distributes(c: int, a: int, b: int)
    ensures c * a + c * b == c * (a + b) && c * a - c * b == c * (a - b)
  {
  }

  lemma Moved(k: int, c: int, a: int)
    ensures k * (c * a) == c * (k * a)
  {
  }

  lemma DoubledScaled(c: int, p: Point)
    ensures Doubled(Scaled(c, p)) == Scaled((c * c) * (c * c), Doubled(p))
  {
    var s := c * c;
    var a, b, d := p.x * p.x, p.x * p.z, p.z * p.z;
    Squared(c, p.x);
    Squared(c, p.z);
    Regrouped(c, p.x, c, p.z);
    Distributes(s, a, d);
    Squared(s, a - d);
    Moved(486662, s, b);
    Distributes(s, a, 486662 * b);
    Distributes(s, a + 486662 * b, d);
    Moved(4, s, b);
    Regrouped(s, 4 * b, s, a + 486662 * b + d);
  }

  lemma AddedScaled(u: int, c: int, p: Point, d: int, q: Point)
    ensures Added(u, Scaled(c, p), Scaled(d, q)) == Scaled((c * d) * (c * d), Added(u, p, q))
  {
    var s := c * d;
    Regrouped(c, p.x, d, q.x);
    Regrouped(c, p.z, d, q.z);
    Regrouped(c, p.x, d, q.z);
    Regrouped(c, p.z, d, q.x);
    var a, b := p.x * q.x - p.z * q.z, p.x * q.z - p.z * q.x;
    Distributes(s, p.x * q.x, p.z * q.z);
    Distributes(s, p.x * q.z, p.z * q.x);
    Squared(s, a);
    Squared(s, b);
    Moved(4, s * s, a * a);
    Moved(4 * u, s * s, b * b);
  }

  lemma AddedSwaps(u: int, p: Point, q: Point)
    ensures Added(u, p, q) == Added(u, q, p)
  {
    var d, e := p.x * q.z - p.z * q.x, q.x * p.z - q.z * p.x;
    assert e == -d;
    assert d * d == e * e;
  }

  // --- A rung doubles one point and adds the other ---

  /** The formulas of a rung are those of doubling and of adding, multiplied out. */
  lemma RungIsCurve(u: int, s: Points)
    ensures Same(Point(Rung(u, s).x2, Rung(u, s).z2), Doubled(Point(s.x2, s.z2)))
    ensures Same(Point(Rung(u, s).x3, Rung(u, s).z3), Added(u, Point(s.x2, s.z2), Point(s.x3, s.z3)))
  {
    var a, b, c, d := s.x2 + s.z2, s.x2 - s.z2, s.x3 + s.z3, s.x3 - s.z3;
    var aa, bb, da, cb := a * a, b * b, d * a, c * b;
    var e := aa - bb;
    DoublingFormula(s.x2, s.z2);
    AddingFormula(u, s.x2, s.z2, s.x3, s.z3);
    CongResidue(aa * bb);
    CongResidue(e * (aa + 121665 * e));
    CongResidue((da + cb) * (da + cb));
    CongResidue(u * ((da - cb) * (da - cb)));
  }

  lemma CongResidue(v: int)
    ensures Cong(v % P, v)
  {
    CongBy(v % P, v, -(v / P));
  }

  lemma DoublingFormula(x: int, z: int)
    ensures var aa, bb := (x + z) * (x + z), (x - z) * (x - z);
      var e := aa - bb;
      Doubled(Point(x, z)) == Point(aa * bb, e * (aa + 121665 * e))
  {
    var xx, xz, zz := x * x, x * z, z * z;
    var aa, bb := (x + z) * (x + z), (x - z) * (x - z);
    assert aa == xx + 2 * xz + zz && bb == xx - 2 * xz + zz;
    Regrouped(x + z, x + z, x - z, x - z);
    assert (x + z) * (x - z) == xx - zz;
  }

  lemma AddingFormula(u: int, x2: int, z2: int, x3: int, z3: int)
    ensures var da, cb := (x3 - z3) * (x2 + z2), (x3 + z3) * (x2 - z2);
      Added(u, Point(x2, z2), Point(x3, z3)) == Point((da + cb) * (da + cb), u * ((da - cb) * (da - cb)))
  {
    var da, cb := (x3 - z3) * (x2 + z2), (x3 + z3) * (x2 - z2);
    var n, d := x2 * x3 - z2 * z3, x2 * z3 - z2 * x3;
    assert da == x3 * x2 + x3 * z2 - z3 * x2 - z3 * z2;
    assert cb == x3 * x2 - x3 * z2 + z3 * x2 - z3 * z2;
    assert da + cb == 2 * n && da - cb == -2 * d;
    Squared(2, n);
    Squared(-2, d);
    Moved(u, 4, d * d);
  }

  // --- The ladder ---

  /** `p` is `q` up to a power of 4u, which adding the first multiple to the zeroth brings in. */
  predicate Near(p: Point, u: int, e: nat, q: Point)
  {
    Same(p, Scaled(Power(4 * u, e), q))
  }

  function First(s: Points): Point
  {
    Point(s.x2, s.z2)
  }

  function Second(s: Points): Point
  {
    Point(s.x3, s.z3)
  }

  lemma PowerFour(w: int, e: nat)
    ensures (Power(w, e) * Power(w, e)) * (Power(w, e) * Power(w, e)) == Power(w, 4 * e)
  {
    hide Power;
    PowerAdd(w, e, e);
    PowerAdd(w, 2 * e, 2 * e);
  }

  lemma PowerPair(w: int, e: nat, f: nat)
    ensures (Power(w, e) * Power(w, f)) * (Power(w, e) * Power(w, f)) == Power(w, 2 * (e + f))
  {
    hide Power;
    PowerAdd(w, e, f);
    PowerAdd(w, e + f, e + f);
  }

  lemma DoubledNear(p: Point, u: int, e: nat, q: Point)
    requires Near(p, u, e, q)
    ensures Near(Doubled(p), u, 4 * e, Doubled(q))
  {
    hide Same, Doubled, Scaled, Power;
    var c := Power(4 * u, e);
    DoubledSame(p, Scaled(c, q));
    DoubledScaled(c, q);
    PowerFour(4 * u, e);
  }

  lemma AddedNear(u: int, p: Point, e: nat, p': Point, q: Point, f: nat, q': Point)
    requires Near(p, u, e, p') && Near(q, u, f, q')
    ensures Near(Added(u, p, q), u, 2 * (e + f), Added(u, p', q'))
  {
    hide Same, Added, Scaled, Power;
    var c, d := Power(4 * u, e), Power(4 * u, f);
    AddedSame(u, p, q, Scaled(c, p'), Scaled(d, q'));
    AddedScaled(u, c, p', d, q');
    PowerPair(4 * u, e, f);
  }

  lemma NearSame(p: Point, q: Point, u: int, e: nat, r: Point)
    requires Same(p, q) && Near(q, u, e, r)
    ensures Near(p, u, e, r)
  {
    SameTrans(p, q, Scaled(Power(4 * u, e), r));
  }

  /** Adding the n-th and the next multiple gives the multiple 2n + 1, up to 4u if n is zero. */
  lemma SumIsMultiple(u: int, p: Point, e: nat, n: nat) returns (f: nat)
    requires Near(p, u, e, Added(u, Multiple(n, u), Multiple(n + 1, u)))
    ensures Near(p, u, f, Multiple(2 * n + 1, u)) && e <= f && (n == 0 ==> e < f)
  {
    hide Same;
    if n == 0 {
      f := e + 1;
      PowerAdd(4 * u, e, 1);
      assert Power(4 * u, 1) == 4 * u * Power(4 * u, 0) == 4 * u;
      var c := Power(4 * u, e);
      var q := Added(u, Multiple(0, u), Multiple(1, u));
      assert q == Point(4 * (u * u), 4 * u);
      OneFactor(c, u);
    } else {
      f := e;
      assert (2 * n + 1) / 2 == n && (2 * n + 1) % 2 == 1;
    }
  }

  lemma OneFactor(c: int, u: int)
    ensures c * (4 * (u * u)) == (c * (4 * u)) * u && c * (4 * u) == (c * (4 * u)) * 1
  {
    assert 4 * (u * u) == (4 * u) * u;
    assert c * ((4 * u) * u) == (c * (4 * u)) * u;
  }

  lemma TwiceIsMultiple(u: int, n: nat)
    ensures Doubled(Multiple(n, u)) == Multiple(2 * n, u)
  {
    if n == 0 {
      assert Doubled(Point(1, 0)) == Point(1, 0);
    } else {
      assert (2 * n) / 2 == n && (2 * n) % 2 == 0;
    }
  }

  /** The two points are the n-th and the next multiple; `e` is positive once n is. */
  predicate At(s: Points, u: int, n: nat, e: nat, f: nat)
  {
    Near(First(s), u, e, Multiple(n, u)) && Near(Second(s), u, f, Multiple(n + 1, u)) && (0 < n ==> 0 < e)
  }

  /** A rung without exchange takes n to 2n. */
  lemma RungEven(u: int, s: Points, n: nat, e: nat, f: nat) returns (e': nat, f': nat)
    requires At(s, u, n, e, f)
    ensures At(Rung(u, s), u, 2 * n, e', f')
  {
    hide Same, Near, Rung, Multiple, Doubled, Added;
    RungIsCurve(u, s);
    e' := 4 * e;
    DoubledNear(First(s), u, e, Multiple(n, u));
    TwiceIsMultiple(u, n);
    NearSame(First(Rung(u, s)), Doubled(First(s)), u, e', Multiple(2 * n, u));
    AddedNear(u, First(s), e, Multiple(n, u), Second(s), f, Multiple(n + 1, u));
    f' := SumIsMultiple(u, Added(u, First(s), Second(s)), 2 * (e + f), n);
    NearSame(Second(Rung(u, s)), Added(u, First(s), Second(s)), u, f', Multiple(2 * n + 1, u));
  }

  /** A rung between two exchanges takes n to 2n + 1. */
  lemma RungOdd(u: int, s: Points, n: nat, e: nat, f: nat) returns (e': nat, f': nat)
    requires At(s, u, n, e, f)
    ensures At(Swapped(Rung(u, Swapped(s))), u, 2 * n + 1, e', f')
  {
    hide Same, Near, Rung, Multiple, Doubled, Added;
    var t := Swapped(s);
    RungIsCurve(u, t);
    f' := 4 * f;
    DoubledNear(Second(s), u, f, Multiple(n + 1, u));
    TwiceIsMultiple(u, n + 1);
    NearSame(First(Rung(u, t)), Doubled(Second(s)), u, f', Multiple(2 * n + 2, u));
    AddedNear(u, First(s), e, Multiple(n, u), Second(s), f, Multiple(n + 1, u));
    AddedSwaps(u, First(s), Second(s));
    e' := SumIsMultiple(u, Added(u, First(s), Second(s)), 2 * (e + f), n);
    NearSame(Second(Rung(u, t)), Added(u, First(s), Second(s)), u, e', Multiple(2 * n + 1, u));
  }

  lemma NextPrefix(k: nat, t: nat)
    requires 0 < t
    ensures k / Pow2(t - 1) == 2 * (k / Pow2(t)) + Bit(k, t - 1) && 0 <= k / Pow2(t)
  {
    var m := Pow2(t - 1);
    DivDiv(k, m, 2);
  }

  lemma {:induction false} LadderAt(k: nat, u: int, s: Points, t: nat, e: nat, f: nat) returns (e': nat, f': nat)
    requires 0 <= k / Pow2(t) && At(s, u, k / Pow2(t), e, f)
    ensures At(Ladder(k, u, s, t), u, k, e', f')
    decreases t
  {
    hide At, Rung, Bit, Multiple;
    if t == 0 {
      e', f' := e, f;
      assert Pow2(0) == 1;
    } else {
      hide Pow2;
      NextPrefix(k, t);
      var n := k / Pow2(t);
      if Bit(k, t - 1) == 1 {
        e', f' := RungOdd(u, s, n, e, f);
        e', f' := LadderAt(k, u, Swapped(Rung(u, Swapped(s))), t - 1, e', f');
      } else {
        BitIsZero(k, t - 1);
        e', f' := RungEven(u, s, n, e, f);
        e', f' := LadderAt(k, u, Rung(u, s), t - 1, e', f');
      }
    }
  }

  lemma BitIsZero(k: nat, t: nat)
    requires Bit(k, t) != 1
    ensures Bit(k, t) == 0
  {
  }

  /**
   * For every scalar below 2^255, which every clamped one is, the ladder ends with the x-coordinate of that multiple of
   * the point: numerator and denominator are those of `Multiple`, up to a common power of 4u.
   */
  lemma LadderIsMultiple(k: nat, u: int) returns (e: nat)
    requires k < Pow2(255)
    ensures Near(First(LadderEnd(k, u)), u, e, Multiple(k, u)) && (0 < k ==> 0 < e)
    ensures Cong(LadderEnd(k, u).x2 * Multiple(k, u).z, Multiple(k, u).x * LadderEnd(k, u).z2)
  {
    hide At, Ladder, Pow2, Multiple, Same, Scaled, Power, Cong;
    AtStart(u);
    Remainder(k, Pow2(255), 0, k);
    var f;
    e, f := LadderAt(k, u, Points(1, 0, u, 1), 255, 0, 0);
    AtFirst(LadderEnd(k, u), u, k, e, f);
    CrossProduct(First(LadderEnd(k, u)), Power(4 * u, e), Multiple(k, u));
  }

  lemma AtStart(u: int)
    ensures At(Points(1, 0, u, 1), u, 0, 0, 0)
  {
    assert Power(4 * u, 0) == 1;
    CongSelf(1);
    CongSelf(0);
    CongSelf(u);
  }

  lemma AtFirst(s: Points, u: int, n: nat, e: nat, f: nat)
    requires At(s, u, n, e, f)
    ensures Near(First(s), u, e, Multiple(n, u)) && (0 < n ==> 0 < e)
  {
  }

  lemma CrossProduct(p: Point, c: int, q: Point)
    requires Same(p, Scaled(c, q))
    ensures Cong(p.x * q.z, q.x * p.z)
  {
    hide Cong;
    CongSelf(q.z);
    CongSelf(q.x);
    CongProduct(p.x, q.z, c * q.x, q.z);
    CongProduct(q.x, p.z, q.x, c * q.z);
    assert (c * q.x) * q.z == q.x * (c * q.z);
    CongSwap(q.x * p.z, q.x * (c * q.z));
    CongTrans(p.x * q.z, (c * q.x) * q.z, q.x * p.z);
  }

  lemma CongSwap(x: int, y: int)
    requires Cong(x, y)
    ensures Cong(y, x)
  {
    var k := CongQuotient(x, y);
    CongBy(y, x, -k);
  }

  // --- Division, given that p is prime ---

  /** Fermat's little theorem for p, which its primality gives. */
  ghost predicate Fermat()
  {
    forall a: int :: Cong(a, 0) || Cong(Power(a, P - 1), 1)
  }

  lemma NotBoth(x: int)
    ensures !(Cong(x, 0) && Cong(x, 1))
  {
  }

  lemma ZeroTimes(a: int, b: int)
    requires Cong(a, 0)
    ensures Cong(a * b, 0) && Cong(b * a, 0)
  {
    hide Cong;
    CongSelf(b);
    CongProduct(a, b, 0, b);
    CongProduct(b, a, b, 0);
  }

  lemma {:induction false} PowerProduct(a: int, b: int, n: nat)
    ensures Power(a * b, n) == Power(a, n) * Power(b, n)
  {
    if n != 0 {
      PowerProduct(a, b, n - 1);
      Regrouped(a, Power(a, n - 1), b, Power(b, n - 1));
      assert Power(a * b, n) == (a * b) * (Power(a, n - 1) * Power(b, n - 1));
    }
  }

  lemma ZeroPower(a: int, n: nat)
    requires Cong(a, 0) && 0 < n
    ensures Cong(Power(a, n), 0)
  {
    ZeroTimes(a, Power(a, n - 1));
  }

  /** A product is zero only if a factor is. */
  lemma NoZeroDivisors(a: int, b: int)
    requires Fermat() && Cong(a * b, 0)
    ensures Cong(a, 0) || Cong(b, 0)
  {
    hide Cong, Power;
    if !Cong(a, 0) && !Cong(b, 0) {
      PowerProduct(a, b, P - 1);
      CongProduct(Power(a, P - 1), Power(b, P - 1), 1, 1);
      ZeroPower(a * b, P - 1);
      NotBoth(Power(a * b, P - 1));
    }
  }

  lemma {:induction false} PowerNonZero(a: int, n: nat)
    requires Fermat() && !Cong(a, 0)
    ensures !Cong(Power(a, n), 0)
  {
    hide Fermat, Cong;
    if n == 0 {
      CongSelf(1);
      NotBoth(1);
    } else {
      PowerNonZero(a, n - 1);
      if Cong(Power(a, n), 0) { NoZeroDivisors(a, Power(a, n - 1)); }
    }
  }

  lemma FourIsNot()
    ensures !Cong(4, 0)
  {
  }

  /** Raising to the power p - 2 inverts. */
  lemma Inverts(z: int)
    requires Fermat() && !Cong(z, 0)
    ensures Cong(z * Power(z, P - 2), 1)
  {
    hide Cong;
    assert Power(z, P - 1) == z * Power(z, P - 2);
  }

  /**
   * What X25519 returns: numerator over denominator of the multiple, and zero where the denominator is zero or the
   * point is the one with x-coordinate zero.
   */
  lemma ScalarMultIs(k: nat, u: int)
    requires Fermat() && k < Pow2(255)
    ensures Cong(u, 0) || Cong(Multiple(k, u).z, 0) ==> ScalarMult(k, u) == 0
    ensures !Cong(u, 0) && !Cong(Multiple(k, u).z, 0) ==> Cong(ScalarMult(k, u) * Multiple(k, u).z, Multiple(k, u).x)
  {
    hide Fermat, Cong, Power, Multiple, LadderEnd, ScalarMult, Pow2;
    var e := LadderIsMultiple(k, u);
    var s, m := LadderEnd(k, u), Multiple(k, u);
    var w := 4 * u;
    if Cong(u, 0) || Cong(m.z, 0) {
      ZeroDenominator(k, u, e);
      ZeroQuotient(s.x2, s.z2, ScalarMult(k, u), k, u);
    } else {
      assert !Cong(w, 0) by { if Cong(w, 0) { FourIsNot(); NoZeroDivisors(4, u); } }
      PowerNonZero(w, e);
      Divides(k, u, s.x2, s.z2, Power(w, e), m);
    }
  }

  lemma ZeroDenominator(k: nat, u: int, e: nat)
    requires k < Pow2(255) && Near(First(LadderEnd(k, u)), u, e, Multiple(k, u)) && (0 < k ==> 0 < e)
    requires Cong(u, 0) || Cong(Multiple(k, u).z, 0)
    ensures Cong(LadderEnd(k, u).z2, 0)
  {
    hide Cong, Power, LadderEnd, Pow2;
    var m := Multiple(k, u);
    if !Cong(m.z, 0) {
      ZeroTimes(u, 4);
      if k == 0 {
        CongSelf(0);
      } else {
        ZeroPower(4 * u, e);
        ZeroTimes(Power(4 * u, e), m.z);
      }
    } else {
      ZeroTimes(m.z, Power(4 * u, e));
    }
    CongTrans(LadderEnd(k, u).z2, Power(4 * u, e) * m.z, 0);
  }

  lemma ScalarMultUnfolds(k: nat, u: int)
    ensures ScalarMult(k, u) == LadderEnd(k, u).x2 * Power(LadderEnd(k, u).z2, P - 2) % P
  {
  }

  lemma ZeroQuotient(x: int, z: int, r: int, k: nat, u: int)
    requires Cong(z, 0) && x == LadderEnd(k, u).x2 && z == LadderEnd(k, u).z2 && r == ScalarMult(k, u)
    ensures r == 0
  {
    hide Power, LadderEnd;
    ScalarMultUnfolds(k, u);
    ZeroPower(z, P - 2);
    ZeroTimes(Power(z, P - 2), x);
    SameResidue(x * Power(z, P - 2), 0);
  }

  lemma Divides(k: nat, u: int, x: int, z: int, c: int, m: Point)
    requires Fermat() && x == LadderEnd(k, u).x2 && z == LadderEnd(k, u).z2
    requires Same(Point(x, z), Scaled(c, m)) && !Cong(c, 0) && !Cong(m.z, 0)
    ensures Cong(ScalarMult(k, u) * m.z, m.x)
  {
    hide Cong, Power, LadderEnd, Fermat, ScalarMult;
    var r, i := ScalarMult(k, u), Power(z, P - 2);
    if Cong(z, 0) {
      CongSwap(z, c * m.z);
      CongTrans(c * m.z, z, 0);
      NoZeroDivisors(c, m.z);
    }
    Inverts(z);
    ScalarMultUnfolds(k, u);
    CongResidue(x * i);
    CongSelf(z);
    CongProduct(r, z, x * i, z);
    CongSelf(x);
    CongProduct(x, z * i, x, 1);
    assert (x * i) * z == x * (z * i);
    CongTrans(r * z, x * (z * i), x);
    Cancels(r, x, z, c, m);
  }

  lemma Cancels(r: int, x: int, z: int, c: int, m: Point)
    requires Fermat() && Cong(r * z, x) && Same(Point(x, z), Scaled(c, m)) && !Cong(c, 0)
    ensures Cong(r * m.z, m.x)
  {
    hide Cong, Fermat;
    CongSelf(r);
    CongProduct(r, z, r, c * m.z);
    CongSwap(r * z, r * (c * m.z));
    CongTrans(r * (c * m.z), r * z, x);
    CongTrans(r * (c * m.z), x, c * m.x);
    CongSelf(c * m.x);
    CongSum(r * (c * m.z), c * m.x, c * m.x, c * m.x);
    assert r * (c * m.z) - c * m.x == c * (r * m.z - m.x) by {
      Moved(r, c, m.z);
      Distributes(c, r * m.z, m.x);
    }
    NoZeroDivisors(c, r * m.z - m.x);
    CongSelf(m.x);
    CongSum(r * m.z - m.x, m.x, 0, m.x);
  }
}
