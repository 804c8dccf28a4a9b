/** The field GF(2^8) modulo x^8 + x^4 + x^3 + x^2 + 1, by logarithm tables and by carry-less multiplication. */
module Gf256 {
  import opened Words

  // --- Addition ---

  function GfAdd(a: u8, b: u8): (r: u8)
  {
    SmallPowers();
    XorBelow(a, b, 8);
    Xor(a, b)
  }

  lemma XorParts(x: nat, y: nat)
    ensures Xor(x, y) % 2 == (x + y) % 2 && Xor(x, y) / 2 == Xor(x / 2, y / 2)
  {
    hide Xor;
    XorUnfolds(x, y);
  }

  lemma Parity(x: nat, y: nat, z: nat, p: nat, q: nat)
    requires p % 2 == (x + y) % 2 && q % 2 == (y + z) % 2
    ensures (p + z) % 2 == (x + q) % 2
  {
  }

  lemma {:induction false} XorAssociates(x: nat, y: nat, z: nat)
    ensures Xor(Xor(x, y), z) == Xor(x, Xor(y, z))
    decreases x + y + z
  {
    if x != 0 || y != 0 || z != 0 {
      hide Xor;
      var p, q := Xor(x, y), Xor(y, z);
      XorParts(x, y);
      XorParts(y, z);
      XorParts(p, z);
      XorParts(x, q);
      Parity(x, y, z, p, q);
      XorAssociates(x / 2, y / 2, z / 2);
    }
  }

  lemma AddCommutes(a: u8, b: u8)
    ensures GfAdd(a, b) == GfAdd(b, a)
  {
    hide Xor;
    XorCommutes(a, b);
  }

  lemma AddAssociates(a: u8, b: u8, c: u8)
    ensures GfAdd(GfAdd(a, b), c) == GfAdd(a, GfAdd(b, c))
  {
    hide Xor;
    XorAssociates(a, b, c);
  }

  lemma AddZero(a: u8)
    ensures GfAdd(a, 0) == a && GfAdd(0, a) == a
  {
    hide Xor;
    XorZero(0, a);
    XorCommutes(a, 0);
  }

  lemma {:induction false} XorSelf(x: nat)
    ensures Xor(x, x) == 0
  {
    if x != 0 { XorSelf(x / 2); }
  }

  /** Every element is its own negative. */
  lemma AddSelf(a: u8)
    ensures GfAdd(a, a) == 0
  {
    hide Xor;
    XorSelf(a);
  }

  lemma AddCancels(a: u8, b: u8)
    ensures GfAdd(a, GfAdd(a, b)) == b && (GfAdd(a, b) == 0 <==> a == b)
  {
    hide GfAdd;
    AddAssociates(a, a, b);
    AddSelf(a);
    AddZero(a);
    AddZero(b);
  }

  lemma AddSwap(a: u8, b: u8, c: u8, d: u8)
    ensures GfAdd(GfAdd(a, b), GfAdd(c, d)) == GfAdd(GfAdd(a, c), GfAdd(b, d))
  {
    hide GfAdd;
    AddAssociates(a, b, GfAdd(c, d));
    AddAssociates(b, c, d);
    AddCommutes(b, c);
    AddAssociates(c, b, d);
    AddAssociates(a, c, GfAdd(b, d));
  }

  // --- Multiplication by x ---

  function Xtime(a: u8): (r: u8)
  {
    if a < 128 then 2 * a else GfAdd(2 * (a - 128), 0x1d)
  }

  lemma {:induction false} XorTop(x: nat, y: nat, k: nat)
    requires x < Pow2(k) && y < Pow2(k)
    ensures Xor(x + Pow2(k), y) == Xor(x, y) + Pow2(k) && Xor(x + Pow2(k), y + Pow2(k)) == Xor(x, y)
  {
    hide Xor, Pow2;
    if k == 0 {
      TopBase();
    } else {
      DoubledPower(k);
      XorTop(x / 2, y / 2, k - 1);
      TopStep(x, y, Pow2(k - 1));
    }
  }

  lemma TopBase()
    ensures Pow2(0) == 1 && Xor(0, 0) == 0 && Xor(1, 0) == 1 && Xor(1, 1) == 0
  {
    assert Xor(1, 0) == 1 + 2 * Xor(0, 0) && Xor(1, 1) == 2 * Xor(0, 0);
  }

  lemma TopStep(x: nat, y: nat, m: nat)
    requires Xor(x / 2 + m, y / 2) == Xor(x / 2, y / 2) + m && Xor(x / 2 + m, y / 2 + m) == Xor(x / 2, y / 2)
    ensures Xor(x + 2 * m, y) == Xor(x, y) + 2 * m && Xor(x + 2 * m, y + 2 * m) == Xor(x, y)
  {
    hide Xor;
    XorParts(x, y);
    TopParts(x, y, m);
  }

  lemma TopParts(x: nat, y: nat, m: nat)
    ensures Xor(x + 2 * m, y) % 2 == Xor(x, y) % 2 && Xor(x + 2 * m, y) / 2 == Xor(x / 2 + m, y / 2)
    ensures Xor(x + 2 * m, y + 2 * m) % 2 == Xor(x, y) % 2
    ensures Xor(x + 2 * m, y + 2 * m) / 2 == Xor(x / 2 + m, y / 2 + m)
  {
    hide Xor;
    XorParts(x, y);
    Lifted(x, y, m);
    XorParts(x + 2 * m, y);
    XorParts(x + 2 * m, y + 2 * m);
  }

  lemma Lifted(x: nat, y: nat, m: nat)
    ensures (x + 2 * m) / 2 == x / 2 + m && (y + 2 * m) / 2 == y / 2 + m
    ensures (x + 2 * m + y) % 2 == (x + y) % 2 && (x + 2 * m + (y + 2 * m)) % 2 == (x + y) % 2
  {
  }

  lemma DoubledPower(k: nat)
    requires 0 < k
    ensures Pow2(k) == 2 * Pow2(k - 1)
  {
  }

  lemma XorDoubles(x: nat, y: nat)
    ensures Xor(2 * x, 2 * y) == 2 * Xor(x, y)
  {
    hide Xor;
    XorParts(2 * x, 2 * y);
  }

  lemma Tops(a: nat, b: nat)
    requires a < 128 && b < 128
    ensures GfAdd(a, b) < 128 && GfAdd(a + 128, b) == GfAdd(a, b) + 128 && GfAdd(a + 128, b + 128) == GfAdd(a, b)
    ensures GfAdd(2 * a, 2 * b) == 2 * GfAdd(a, b)
  {
    hide Xor, Pow2;
    SmallPowers();
    XorBelow(a, b, 7);
    XorTop(a, b, 7);
    XorDoubles(a, b);
  }

  lemma XtimeAddsLow(a: u8, b: u8)
    requires b < 128
    ensures Xtime(GfAdd(a, b)) == GfAdd(Xtime(a), Xtime(b))
  {
    hide GfAdd;
    if a < 128 {
      Tops(a, b);
    } else {
      var a0 := a - 128;
      Tops(a0, b);
      var x, y := 2 * a0, 2 * b;
      AddAssociates(x, 0x1d, y);
      AddCommutes(0x1d, y);
      AddAssociates(x, y, 0x1d);
    }
  }

  /** Multiplication by x is linear. */
  lemma XtimeAdds(a: u8, b: u8)
    ensures Xtime(GfAdd(a, b)) == GfAdd(Xtime(a), Xtime(b))
  {
    hide GfAdd;
    if b < 128 {
      XtimeAddsLow(a, b);
    } else if a < 128 {
      XtimeAddsLow(b, a);
      AddCommutes(a, b);
      AddCommutes(Xtime(a), Xtime(b));
    } else {
      var x, y := a - 128, b - 128;
      Tops(x, y);
      AddSwap(2 * x, 0x1d, 2 * y, 0x1d);
      AddSelf(0x1d);
      AddZero(GfAdd(2 * x, 2 * y));
    }
  }

  lemma XtimeZero(a: u8)
    ensures Xtime(a) == 0 <==> a == 0
  {
    hide GfAdd;
    if 128 <= a { AddCancels(2 * (a - 128), 0x1d); }
  }

  // --- Powers of x ---

  /** a times x^n. */
  function Iter(n: nat, a: u8): (r: u8)
  {
    if n == 0 then a else Xtime(Iter(n - 1, a))
  }

  /** x^n. */
  function Power(n: nat): (r: u8)
  {
    Iter(n, 1)
  }

  lemma {:induction false} IterAdds(n: nat, a: u8, b: u8)
    ensures Iter(n, GfAdd(a, b)) == GfAdd(Iter(n, a), Iter(n, b))
  {
    hide Xtime, GfAdd;
    if n != 0 {
      IterAdds(n - 1, a, b);
      XtimeAdds(Iter(n - 1, a), Iter(n - 1, b));
    }
  }

  lemma {:induction false} IterIter(m: nat, n: nat, a: u8)
    ensures Iter(m + n, a) == Iter(m, Iter(n, a))
  {
    hide Xtime;
    if m != 0 { IterIter(m - 1, n, a); }
  }

  lemma {:induction false} IterZero(n: nat, a: u8)
    ensures Iter(n, a) == 0 <==> a == 0
  {
    hide Xtime;
    if n != 0 {
      IterZero(n - 1, a);
      XtimeZero(Iter(n - 1, a));
    }
  }

  lemma IterInjective(n: nat, a: u8, b: u8)
    requires Iter(n, a) == Iter(n, b)
    ensures a == b
  {
    hide Iter, GfAdd;
    IterAdds(n, a, b);
    AddSelf(Iter(n, a));
    IterZero(n, GfAdd(a, b));
    AddCancels(a, b);
  }

  // --- Carry-less multiplication ---

  /** The sum of b x^i over the bits i of `a`: the product as polynomials over GF(2). */
  function Product(a: u8, b: u8): (r: u8)
  {
    if a == 0 then 0 else GfAdd(if a % 2 == 1 then b else 0, Product(a / 2, Xtime(b)))
  }

  lemma {:induction false} ProductXtime(a: u8, b: u8)
    ensures Product(a, Xtime(b)) == Xtime(Product(a, b))
  {
    hide Xtime, GfAdd;
    XtimeZero(0);
    if a != 0 {
      ProductXtime(a / 2, Xtime(b));
      XtimeAdds(if a % 2 == 1 then b else 0, Product(a / 2, Xtime(b)));
    }
  }

  lemma {:induction false} XorScales(n: nat, x: nat, y: nat)
    ensures Xor(Pow2(n) * x, Pow2(n) * y) == Pow2(n) * Xor(x, y)
  {
    hide Xor;
    if n != 0 {
      var m := Pow2(n - 1);
      XorScales(n - 1, x, y);
      XorDoubles(m * x, m * y);
      assert Pow2(n) * x == 2 * (m * x) && Pow2(n) * y == 2 * (m * y);
      assert Pow2(n) * Xor(x, y) == 2 * (m * Xor(x, y));
    }
  }

  lemma LowBitPlus(b: nat, c: nat)
    requires b <= 1
    ensures Xor(b, 2 * c) == b + 2 * c
  {
    hide Xor;
    XorParts(b, 2 * c);
    XorZero(0, c);
  }

  /** The bits of `a` placed from x^n on. */
  lemma {:induction false} ProductPlace(a: u8, n: nat, w: u8)
    requires w == Pow2(n) && a * w < 256
    ensures Product(a, w) == a * w
  {
    hide Pow2, Xor, Xtime;
    if a == 0 {
    } else if a == 1 {
      AddZero(w);
    } else {
      Doubling(a, w);
      DoubledPower(n + 1);
      ProductPlace(a / 2, n + 1, 2 * w);
      PlaceStep(a, n, w);
    }
  }

  lemma PlaceStep(a: nat, n: nat, w: nat)
    requires w == Pow2(n)
    ensures Xor(if a % 2 == 1 then w else 0, a / 2 * (2 * w)) == a * w
  {
    hide Pow2, Xor;
    var b, c := a % 2, a / 2;
    XorScales(n, b, 2 * c);
    LowBitPlus(b, c);
    assert w * b == if b == 1 then w else 0;
    assert c * (2 * w) == w * (2 * c);
    assert a * w == w * (b + 2 * c);
  }

  lemma Doubling(a: nat, w: nat)
    requires 2 <= a && 0 < w && a * w < 256
    ensures w < 128 && Xtime(w) == 2 * w && a / 2 * (2 * w) < 256
  {
    assert 2 * w <= a * w by { AtLeast(w, 2, a); }
    assert a / 2 * 2 <= a;
    AtLeast(w, a / 2 * 2, a);
  }

  lemma ProductOne(a: u8)
    ensures Product(a, 1) == a && Product(1, a) == a && Product(0, a) == 0
  {
    hide GfAdd;
    SmallPowers();
    ProductPlace(a, 0, 1);
    AddZero(a);
  }

  /** Multiplying by x^n is multiplying by x, n times. */
  lemma {:induction false} ProductPower(a: u8, n: nat)
    ensures Product(a, Power(n)) == Iter(n, a)
  {
    hide Product, Xtime;
    if n == 0 {
      ProductOne(a);
    } else {
      ProductPower(a, n - 1);
      ProductXtime(a, Power(n - 1));
    }
  }

  lemma PowerAdd(m: nat, n: nat)
    ensures Power(m + n) == Product(Power(n), Power(m)) == Iter(m, Power(n))
  {
    hide Product;
    IterIter(m, n, 1);
    ProductPower(Power(n), m);
  }

  // --- Bytes as bits, least significant first ---

  datatype Bits = Bits(b0: bool, b1: bool, b2: bool, b3: bool, b4: bool, b5: bool, b6: bool, b7: bool)

  function Odd(n: nat): bool
  {
    n % 2 == 1
  }

  function ToBits(a: u8): Bits
  {
    Bits(Odd(ShiftRight(a, 0)), Odd(ShiftRight(a, 1)), Odd(ShiftRight(a, 2)), Odd(ShiftRight(a, 3)),
         Odd(ShiftRight(a, 4)), Odd(ShiftRight(a, 5)), Odd(ShiftRight(a, 6)), Odd(ShiftRight(a, 7)))
  }

  function XtimeBits(a: Bits): Bits
  {
    Bits(a.b7, a.b0, a.b1 != a.b7, a.b2 != a.b7, a.b3 != a.b7, a.b4, a.b5, a.b6)
  }

  function IterBits(n: nat, a: Bits): Bits
  {
    if n == 0 then a else XtimeBits(IterBits(n - 1, a))
  }

  function X4(a: Bits): Bits
  {
    XtimeBits(XtimeBits(XtimeBits(XtimeBits(a))))
  }

  function X17(a: Bits): Bits
  {
    XtimeBits(X4(X4(X4(X4(a)))))
  }

  // x^0, x^17, ..., x^170.
  const P0 := Bits(true, false, false, false, false, false, false, false)
  const P17 := Bits(false, false, false, true, true, false, false, true)
  const P34 := Bits(false, true, true, true, false, false, true, false)
  const P51 := Bits(false, true, false, true, false, false, false, false)
  const P68 := Bits(true, false, false, true, true, false, false, true)
  const P85 := Bits(false, true, true, false, true, false, true, true)
  const P102 := Bits(false, false, true, false, false, false, true, false)
  const P119 := Bits(true, true, false, false, true, false, false, true)
  const P136 := Bits(true, true, true, true, false, false, true, false)
  const P153 := Bits(false, true, false, false, true, false, false, true)
  const P170 := Bits(true, true, true, false, true, false, true, true)

  lemma From0()
    ensures X17(P0) == P17
  {
  }

  lemma From17()
    ensures X17(P17) == P34
  {
  }

  lemma From34()
    ensures X17(P34) == P51
  {
  }

  lemma From51()
    ensures X17(P51) == P68
  {
  }

  lemma From68()
    ensures X17(P68) == P85
  {
  }

  lemma From85()
    ensures X17(P85) == P102
  {
  }

  lemma From102()
    ensures X17(P102) == P119
  {
  }

  lemma From119()
    ensures X17(P119) == P136
  {
  }

  lemma From136()
    ensures X17(P136) == P153
  {
  }

  lemma From153()
    ensures X17(P153) == P170
  {
  }


  lemma IterBits17(n: nat, a: Bits)
    ensures IterBits(n + 17, a) == X17(IterBits(n, a))
  {
    hide XtimeBits;
    IterBits4(n, a);
    IterBits4(n + 4, a);
    IterBits4(n + 8, a);
    IterBits4(n + 12, a);
  }

  lemma IterBits4(n: nat, a: Bits)
    ensures IterBits(n + 4, a) == X4(IterBits(n, a))
  {
    hide XtimeBits;
    assert IterBits(n + 2, a) == XtimeBits(XtimeBits(IterBits(n, a)));
  }

  lemma Reached()
    ensures IterBits(51, P0) == P51 && IterBits(85, P0) == P85 && IterBits(170, P0) == P170
  {
    hide IterBits, X17;
    Starts();
    From0(); IterBits17(0, P0);
    From17(); IterBits17(17, P0);
    From34(); IterBits17(34, P0);
    From51(); IterBits17(51, P0);
    From68(); IterBits17(68, P0);
    From85(); IterBits17(85, P0);
    From102(); IterBits17(102, P0);
    From119(); IterBits17(119, P0);
    From136(); IterBits17(136, P0);
    From153(); IterBits17(153, P0);
  }

  lemma Starts()
    ensures IterBits(0, P0) == P0
  {
  }

  function AddBits(a: Bits, b: Bits): Bits
  {
    Bits(a.b0 != b.b0, a.b1 != b.b1, a.b2 != b.b2, a.b3 != b.b3,
         a.b4 != b.b4, a.b5 != b.b5, a.b6 != b.b6, a.b7 != b.b7)
  }

  lemma OddXor(x: nat, y: nat)
    ensures Odd(Xor(x, y)) == (Odd(x) != Odd(y))
  {
    hide Xor;
    XorParts(x, y);
  }

  lemma {:induction false} XorShr(x: nat, y: nat, k: nat)
    ensures ShiftRight(Xor(x, y), k) == Xor(ShiftRight(x, k), ShiftRight(y, k))
  {
    hide Xor;
    if k != 0 {
      XorParts(x, y);
      XorShr(x / 2, y / 2, k - 1);
    }
  }

  lemma BitOfXor(x: nat, y: nat, k: nat)
    ensures Odd(ShiftRight(Xor(x, y), k)) == (Odd(ShiftRight(x, k)) != Odd(ShiftRight(y, k)))
  {
    hide Xor, Odd;
    XorShr(x, y, k);
    OddXor(ShiftRight(x, k), ShiftRight(y, k));
  }

  /** Addition is bit by bit. */
  lemma AddIsBitwise(a: u8, b: u8)
    ensures ToBits(GfAdd(a, b)) == AddBits(ToBits(a), ToBits(b))
  {
    hide Xor, ShiftRight, Odd;
    BitOfXor(a, b, 0);
    BitOfXor(a, b, 1);
    BitOfXor(a, b, 2);
    BitOfXor(a, b, 3);
    BitOfXor(a, b, 4);
    BitOfXor(a, b, 5);
    BitOfXor(a, b, 6);
    BitOfXor(a, b, 7);
  }

  lemma ShrStep(a: nat, k: nat)
    ensures ShiftRight(2 * a, k + 1) == ShiftRight(a, k) && !Odd(ShiftRight(2 * a, 0))
  {
  }

  lemma {:induction false} ShrTop(a: nat, k: nat)
    requires a < Pow2(k)
    ensures ShiftRight(a, k) == 0 && ShiftRight(a + Pow2(k), k) == 1
  {
    if k != 0 {
      assert (a + Pow2(k)) / 2 == a / 2 + Pow2(k - 1);
      ShrTop(a / 2, k - 1);
    }
  }

  lemma {:induction false} ShrLow(a: nat, j: nat, k: nat)
    requires j < k
    ensures Odd(ShiftRight(a + Pow2(k), j)) == Odd(ShiftRight(a, j))
  {
    assert Pow2(k) == 2 * Pow2(k - 1);
    if j != 0 {
      assert (a + Pow2(k)) / 2 == a / 2 + Pow2(k - 1);
      ShrLow(a / 2, j - 1, k - 1);
    }
  }

  lemma DoubleBits(a: u8)
    requires a < 128
    ensures var b := ToBits(a); !b.b7 && ToBits(2 * a) == Bits(false, b.b0, b.b1, b.b2, b.b3, b.b4, b.b5, b.b6)
  {
    hide ShiftRight, Pow2;
    SmallPowers();
    ShrTop(a, 7);
    ShrStep(a, 0);
    ShrStep(a, 1);
    ShrStep(a, 2);
    ShrStep(a, 3);
    ShrStep(a, 4);
    ShrStep(a, 5);
    ShrStep(a, 6);
  }

  lemma TopBits(a: u8)
    requires a < 128
    ensures ToBits(a + 128) == ToBits(a).(b7 := true)
  {
    hide ShiftRight, Pow2;
    SmallPowers();
    ShrTop(a, 7);
    ShrLow(a, 0, 7);
    ShrLow(a, 1, 7);
    ShrLow(a, 2, 7);
    ShrLow(a, 3, 7);
    ShrLow(a, 4, 7);
    ShrLow(a, 5, 7);
    ShrLow(a, 6, 7);
  }

  /** Multiplication by x on bits. */
  lemma XtimeIsBits(a: u8)
    ensures ToBits(Xtime(a)) == XtimeBits(ToBits(a))
  {
    hide ToBits, GfAdd;
    if a < 128 {
      DoubleBits(a);
    } else {
      DoubleBits(a - 128);
      TopBits(a - 128);
      AddIsBitwise(2 * (a - 128), 0x1d);
      Modulus();
    }
  }

  lemma Modulus()
    ensures ToBits(0x1d) == Bits(true, false, true, true, true, false, false, false)
    ensures ToBits(1) == P0 && ToBits(4) == Bits(false, false, true, false, false, false, false, false)
  {
    assert ShiftRight(29, 1) == 14 && ShiftRight(29, 2) == 7 && ShiftRight(29, 3) == 3 && ShiftRight(29, 4) == 1;
    assert ShiftRight(29, 5) == 0 && ShiftRight(29, 6) == 0 && ShiftRight(29, 7) == 0;
    assert ShiftRight(1, 1) == 0 && ShiftRight(1, 2) == 0 && ShiftRight(1, 3) == 0 && ShiftRight(1, 4) == 0;
    assert ShiftRight(1, 5) == 0 && ShiftRight(1, 6) == 0 && ShiftRight(1, 7) == 0;
    assert ShiftRight(4, 1) == 2 && ShiftRight(4, 2) == 1 && ShiftRight(4, 3) == 0 && ShiftRight(4, 4) == 0;
    assert ShiftRight(4, 5) == 0 && ShiftRight(4, 6) == 0 && ShiftRight(4, 7) == 0;
  }

  lemma {:induction false} IterIsBits(n: nat, a: u8)
    ensures ToBits(Iter(n, a)) == IterBits(n, ToBits(a))
  {
    hide ToBits, Xtime, XtimeBits;
    if n != 0 {
      IterIsBits(n - 1, a);
      XtimeIsBits(Iter(n - 1, a));
    }
  }

  /** Bytes with the same bits are equal. */
  lemma BitsInjective(a: u8, b: u8)
    requires ToBits(a) == ToBits(b)
    ensures a == b
  {
    hide ShiftRight, Odd;
    ShrEnds(a);
    ShrEnds(b);
    OddDigit(a, b, 7);
    OddDigit(a, b, 6);
    OddDigit(a, b, 5);
    OddDigit(a, b, 4);
    OddDigit(a, b, 3);
    OddDigit(a, b, 2);
    OddDigit(a, b, 1);
    OddDigit(a, b, 0);
  }

  lemma ShrEnds(a: u8)
    ensures ShiftRight(a, 8) == 0 && ShiftRight(a, 0) == a
  {
    hide Pow2;
    SmallPowers();
    ShrTop(a, 8);
  }

  lemma OddDigit(a: nat, b: nat, k: nat)
    requires Odd(ShiftRight(a, k)) == Odd(ShiftRight(b, k)) && ShiftRight(a, k + 1) == ShiftRight(b, k + 1)
    ensures ShiftRight(a, k) == ShiftRight(b, k)
  {
    hide ShiftRight;
    ShiftRightHalves(a, k);
    ShiftRightHalves(b, k);
  }
}
