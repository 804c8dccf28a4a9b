/** x generates the non-zero bytes, so the logarithm tables define a field. */
module Gf256Field {
  import opened FiniteSets
  import opened Words
  import opened Gf256

  // --- The order of x is 255 ---

  lemma KnownPowers()
    ensures Power(15) != 1 && Power(51) != 1 && Power(85) != 1 && Power(170) == GfAdd(Power(85), 1)
  {
    hide ToBits, Iter, IterBits, GfAdd;
    Modulus();
    Reached();
    IterIsBits(51, 1);
    IterIsBits(85, 1);
    IterIsBits(170, 1);
    AddIsBitwise(Power(85), 1);
    assert P170 == AddBits(P85, P0);
    BitsInjective(Power(170), GfAdd(Power(85), 1));
    Fifteen();
  }

  lemma Fifteen()
    ensures Power(15) != 1
  {
    hide ToBits, Iter, IterBits, XtimeBits, X17, Power;
    Modulus();
    IterIsBits(17, 1);
    Starts();
    IterBits17(0, P0);
    From0();
    PowerAdd(2, 15);
    Two();
    assert P17 != ToBits(4);
  }

  lemma Two()
    ensures Iter(2, 1) == 4 && Power(17) == Iter(17, 1)
  {
    assert Iter(1, 1) == 2;
  }

  /** x^255 = 1. */
  lemma PowerFull()
    ensures Power(255) == 1
  {
    hide Iter, GfAdd;
    KnownPowers();
    PowerAdd(85, 170);
    IterAdds(85, Power(85), 1);
    PowerAdd(85, 85);
    AddCommutes(Power(170), Power(85));
    AddCancels(Power(85), 1);
  }

  lemma CycleMinus(a: nat, b: nat)
    requires Power(a) == 1 && Power(b) == 1 && b <= a
    ensures Power(a - b) == 1
  {
    hide Iter;
    PowerAdd(b, a - b);
    IterInjective(b, Power(a - b), 1);
  }

  lemma {:induction false} CycleTimes(a: nat, k: nat)
    requires Power(a) == 1
    ensures Power(k * a) == 1
  {
    hide Iter;
    if k == 0 {
      PowerOne();
    } else {
      CycleTimes(a, k - 1);
      assert k * a == a + (k - 1) * a;
      PowerAdd(a, (k - 1) * a);
    }
  }

  lemma PowerOne()
    ensures Power(0) == 1
  {
  }

  /** Two cycles have a common divisor that is a cycle. */
  lemma Euclid(a: nat, b: nat) returns (g: nat)
    requires 0 < a && Power(a) == 1 && Power(b) == 1
    ensures 0 < g && Power(g) == 1 && a % g == 0 && b % g == 0
    decreases a + b
  {
    hide Power;
    if b == 0 {
      g := a;
    } else if a < b {
      CycleMinus(b, a);
      g := Euclid(a, b - a);
      DividesPlus(b - a, a, g);
    } else {
      CycleMinus(a, b);
      if a == b {
        g := a;
      } else {
        g := Euclid(a - b, b);
        DividesPlus(a - b, b, g);
      }
    }
  }

  lemma DividesPlus(x: nat, y: nat, g: nat)
    requires 0 < g && x % g == 0 && y % g == 0
    ensures (x + y) % g == 0
  {
    assert x == g * (x / g) && y == g * (y / g);
    assert x + y == g * (x / g + y / g);
    Remainder(x + y, g, x / g + y / g, 0);
  }

  lemma SmallFactor(g: nat, h: nat)
    requires g * h == 255 && 0 < h <= 17
    ensures h == 1 || h == 3 || h == 5 || h == 15 || h == 17
  {
    assert h == 1 || h == 2 || h == 3 || h == 4 || h == 5 || h == 6 || h == 7 || h == 8 || h == 9 || h == 10
      || h == 11 || h == 12 || h == 13 || h == 14 || h == 15 || h == 16 || h == 17;
  }

  /** Every proper divisor of 255 divides 85, 51 or 15. */
  lemma ProperDivisor(g: nat)
    requires 0 < g < 255 && 255 % g == 0
    ensures 85 % g == 0 || 51 % g == 0 || 15 % g == 0
  {
    var h := 255 / g;
    assert g * h == 255;
    if h <= 0 { AtLeast(g, h, 0); }
    if h <= 17 {
      SmallFactor(g, h);
    } else {
      if 17 < g { AtLeast(g, 18, h); }
      SmallFactor(h, g);
    }
  }

  /** No smaller power of x is 1. */
  lemma OrderIs255(d: nat)
    requires 0 < d < 255
    ensures Power(d) != 1
  {
    hide Power;
    KnownPowers();
    if Power(d) == 1 {
      PowerFull();
      var g := Euclid(255, d);
      AtMost(d, g);
      ProperDivisor(g);
      if 85 % g == 0 {
        Multiple(85, g);
      } else if 51 % g == 0 {
        Multiple(51, g);
      } else {
        Multiple(15, g);
      }
    }
  }

  lemma AtMost(d: nat, g: nat)
    requires 0 < d && 0 < g && d % g == 0
    ensures g <= d
  {
  }

  lemma Multiple(n: nat, g: nat)
    requires 0 < g && n % g == 0 && Power(g) == 1
    ensures Power(n) == 1
  {
    hide Power;
    assert n == n / g * g;
    CycleTimes(g, n / g);
  }

  // --- x generates every non-zero byte ---

  lemma PowerNonZero(n: nat)
    ensures Power(n) != 0
  {
    hide Iter;
    IterZero(n, 1);
  }

  lemma PowerInjective(i: nat, j: nat)
    requires i <= j < 255 && Power(i) == Power(j)
    ensures i == j
  {
    hide Iter;
    if i < j {
      PowerAdd(i, j - i);
      IterInjective(i, Power(j - i), 1);
      OrderIs255(j - i);
    }
  }

  ghost function FirstPowers(n: nat): set<int>
  {
    if n == 0 then {} else FirstPowers(n - 1) + {Power(n - 1)}
  }

  lemma {:induction false} FirstPowersAre(n: nat, b: int)
    requires b in FirstPowers(n)
    ensures exists i: nat :: i < n && Power(i) == b
  {
    hide Power;
    if b == Power(n - 1) {
    } else {
      FirstPowersAre(n - 1, b);
    }
  }

  lemma {:induction false} CountPowers(n: nat)
    requires n <= 255
    ensures |FirstPowers(n)| == n && FirstPowers(n) <= Below(255)
  {
    hide Power, Below;
    if n != 0 {
      CountPowers(n - 1);
      PowerNonZero(n - 1);
      InBelow(255, Power(n - 1));
      if Power(n - 1) in FirstPowers(n - 1) {
        FirstPowersAre(n - 1, Power(n - 1));
        var i: nat :| i < n - 1 && Power(i) == Power(n - 1);
        PowerInjective(i, n - 1);
      }
    }
  }

  /** The numbers from 1 to `n`. */
  ghost function Below(n: nat): set<int>
  {
    if n == 0 then {} else Below(n - 1) + {n}
  }

  lemma {:induction false} InBelow(n: nat, b: int)
    ensures b in Below(n) <==> 0 < b <= n
  {
    if n != 0 { InBelow(n - 1, b); }
  }

  lemma {:induction false} CountBelow(n: nat)
    ensures |Below(n)| == n
  {
    if n != 0 {
      CountBelow(n - 1);
      InBelow(n - 1, n);
    }
  }

  lemma HasLog(b: u8)
    requires b != 0
    ensures exists i: nat :: i < 255 && Power(i) == b
  {
    hide Power, Below, FirstPowers;
    var powers := FirstPowers(255);
    CountPowers(255);
    CountBelow(255);
    InBelow(255, b);
    if b !in powers {
      Larger(powers + {b as int}, Below(255));
    }
    FirstPowersAre(255, b);
  }

  function LogFrom(b: u8, i: nat): (n: nat)
    requires i <= 255 && exists j: nat :: i <= j < 255 && Power(j) == b
    ensures n < 255 && Power(n) == b
    decreases 255 - i
  {
    if Power(i) == b then i else LogFrom(b, i + 1)
  }

  /** The discrete logarithm. */
  function Log(b: u8): (n: nat)
    requires b != 0
    ensures n < 255 && Power(n) == b
  {
    HasLog(b);
    LogFrom(b, 0)
  }

  lemma LogPower(n: nat)
    requires n < 255
    ensures Power(n) != 0 && Log(Power(n)) == n
  {
    hide Power, Log;
    PowerNonZero(n);
    var m := Log(Power(n));
    if m <= n { PowerInjective(m, n); } else { PowerInjective(n, m); }
  }

  // --- Field laws ---

  lemma {:induction false} ProductZero(a: u8)
    ensures Product(a, 0) == 0 && Product(0, a) == 0
  {
    hide GfAdd, Xtime;
    XtimeZero(0);
    AddZero(0);
    if a != 0 { ProductZero(a / 2); }
  }

  lemma ProductCommutes(a: u8, b: u8)
    ensures Product(a, b) == Product(b, a)
  {
    hide Product, Power, Iter, Log;
    ProductZero(a);
    ProductZero(b);
    if a != 0 && b != 0 {
      PowerAdd(Log(a), Log(b));
      PowerAdd(Log(b), Log(a));
    }
  }

  lemma ProductAssociates(a: u8, b: u8, c: u8)
    ensures Product(Product(a, b), c) == Product(a, Product(b, c))
  {
    hide Product, Power, Iter, Log;
    ProductZero(a);
    ProductZero(b);
    ProductZero(c);
    ProductZero(Product(a, b));
    ProductZero(Product(b, c));
    if a != 0 && b != 0 && c != 0 {
      ProductOfThree(Log(a), Log(b), Log(c));
    }
  }

  lemma ProductOfThree(i: nat, j: nat, k: nat)
    ensures Product(Product(Power(i), Power(j)), Power(k)) == Product(Power(i), Product(Power(j), Power(k)))
  {
    hide Product, Power, Iter;
    PowersMultiply(i, j, i + j);
    PowersMultiply(j, k, j + k);
    PowersMultiply(i + j, k, i + j + k);
    PowersMultiply(i, j + k, i + j + k);
  }

  lemma PowersMultiply(i: nat, j: nat, n: nat)
    requires n == i + j
    ensures Product(Power(i), Power(j)) == Power(n)
  {
    hide Product, Power, Iter;
    PowerAdd(j, i);
  }

  lemma ProductAdds(a: u8, b: u8, c: u8)
    ensures Product(GfAdd(a, b), c) == GfAdd(Product(a, c), Product(b, c))
  {
    hide Product, Power, Iter, Log, GfAdd;
    if c == 0 {
      ProductZero(GfAdd(a, b));
      ProductZero(a);
      ProductZero(b);
      AddZero(0);
    } else {
      var n := Log(c);
      ProductPower(GfAdd(a, b), n);
      ProductPower(a, n);
      ProductPower(b, n);
      IterAdds(n, a, b);
    }
  }

  lemma ProductNonZero(a: u8, b: u8)
    ensures Product(a, b) == 0 <==> a == 0 || b == 0
  {
    hide Product, Power, Iter, Log;
    ProductZero(a);
    ProductZero(b);
    if a != 0 && b != 0 {
      PowerAdd(Log(b), Log(a));
      PowerNonZero(Log(b) + Log(a));
    }
  }

  /** The multiplicative inverse. */
  function GfInv(a: u8): (r: u8)
    requires a != 0
    ensures r != 0
  {
    PowerNonZero(255 - Log(a));
    Power(255 - Log(a))
  }

  lemma InverseIs(a: u8)
    requires a != 0
    ensures Product(a, GfInv(a)) == 1 && Product(GfInv(a), a) == 1
  {
    hide Product, Power, Iter, Log;
    PowerAdd(255 - Log(a), Log(a));
    PowerFull();
    ProductCommutes(a, GfInv(a));
  }

  // --- The tables ---

  datatype Tables = Tables(exp: seq<u8>, log: seq<u8>)

  predicate Built(t: Tables)
  {
    && |t.exp| == 512 && |t.log| == 256
    && (forall i :: 0 <= i < 512 ==> t.exp[i] == Power(i))
    && (forall b :: 0 < b < 256 ==> t.log[b] == Log(b))
  }

  function TableMul(t: Tables, a: u8, b: u8): u8
    requires Built(t)
  {
    if a == 0 || b == 0 then 0 else t.exp[t.log[a] as nat + t.log[b]]
  }

  function TableDiv(t: Tables, a: u8, b: u8): u8
    requires Built(t) && b != 0
  {
    if a == 0 then 0 else t.exp[t.log[a] as nat + 255 - t.log[b]]
  }

  /** The table product is the carry-less product. */
  lemma TableMulIsProduct(t: Tables, a: u8, b: u8)
    requires Built(t)
    ensures TableMul(t, a, b) == Product(a, b)
  {
    hide Product, Power, Iter, Log;
    ProductZero(a);
    ProductZero(b);
    if a != 0 && b != 0 {
      PowerAdd(Log(b), Log(a));
      assert Log(b) + Log(a) == t.log[a] as nat + t.log[b];
    }
  }

  /** The table quotient times the divisor is the dividend. */
  lemma TableDivUndoes(t: Tables, a: u8, b: u8)
    requires Built(t) && b != 0
    ensures Product(TableDiv(t, a, b), b) == a && TableDiv(t, 1, b) == GfInv(b)
  {
    hide Product, Power, Iter, Log;
    ProductZero(b);
    LogPower(0);
    PowerOne();
    PowerFull();
    if a != 0 {
      var n := Log(a) + 255 - Log(b);
      PowerAdd(Log(b), n);
      PowerAdd(255, Log(a));
      PowerAdd(Log(a), 255);
      ProductOne(a);
    }
  }

  lemma {:induction false} AndBit(v: nat, k: nat)
    ensures And(v, Pow2(k)) != 0 <==> Odd(ShiftRight(v, k))
  {
    if k != 0 && v != 0 {
      assert Pow2(k) == 2 * Pow2(k - 1);
      AndBit(v / 2, k - 1);
    } else if v == 0 {
      ShrOfZero(k);
    }
  }

  lemma {:induction false} ShrOfZero(k: nat)
    ensures ShiftRight(0, k) == 0
  {
    if k != 0 { ShrOfZero(k - 1); }
  }

  /** Doubling and conditionally taking the modulus off is multiplying by x. */
  lemma XtimeBySteps(a: u8)
    ensures Xtime(a) == if And(2 * a, 0x100) != 0 then Xor(2 * a, 0x11d) else 2 * a
  {
    hide And, Xor, Pow2, ShiftRight;
    SmallPowers();
    AndBit(2 * a, 8);
    if a < 128 {
      ShrTop(2 * a, 8);
    } else {
      ShrTop(2 * a - 256, 8);
      XorTop(2 * a - 256, 0x1d, 8);
    }
  }

  /** Multiplying by x doubles, and takes off x^8 + x^4 + x^3 + x^2 + 1 where the result has nine bits. */
  lemma TimesTwo(a: u8)
    ensures Product(2, a) == if a < 128 then 2 * a else Xor(2 * a, 0x11d)
  {
    hide And, Xor, Pow2;
    SmallPowers();
    XtimeBySteps(a);
    AndBit(2 * a, 8);
    if a < 128 { ShrTop(2 * a, 8); } else { ShrTop(2 * a - 256, 8); }
    assert Product(1, Xtime(a)) == GfAdd(Xtime(a), Product(0, Xtime(Xtime(a))));
    AddZero(Xtime(a));
    AddZero(Product(1, Xtime(a)));
  }

  /** Fills both tables in one pass over the powers of x. */
  method InitTables() returns (t: Tables)
    ensures Built(t)
  {
    hide Power, Log, And, Xor, Xtime;
    var exp := new u8[512](_ => 0);
    var log := new u8[256](_ => 0);
    var val: u8 := 1;
    PowerOne();
    for i := 0 to 255
      invariant val == Power(i)
      invariant forall n :: 0 <= n < i ==> exp[n] == Power(n) && exp[n + 255] == Power(n)
      invariant forall b :: 0 < b < 256 && Log(b) < i ==> log[b] == Log(b)
    {
      exp[i] := val;
      exp[i + 255] := val;
      LogPower(i);
      log[val] := i;
      XtimeBySteps(val);
      PowerStep(i);
      var twice: nat := 2 * val;
      val := if And(twice, 0x100) != 0 then Xor(twice, 0x11d) else twice;
    }
    exp[510] := exp[0];
    exp[511] := exp[1];
    forall n | 0 <= n < 512 ensures exp[n] == Power(n) { Wraps(n); }
    t := Tables(exp[..], log[..]);
  }

  lemma PowerStep(n: nat)
    ensures Power(n + 1) == Xtime(Power(n))
  {
  }

  lemma Wraps(n: nat)
    ensures n >= 255 ==> Power(n) == Power(n - 255)
    ensures n >= 510 ==> Power(n) == Power(n - 510)
  {
    hide Power, Iter, Product;
    PowerFull();
    if n >= 255 { PowerPeriod(n - 255); }
    if n >= 510 { PowerPeriod(n - 510); }
  }

  lemma PowerPeriod(n: nat)
    ensures Power(n + 255) == Power(n)
  {
    hide Product, Iter;
    PowerFull();
    PowerAdd(n, 255);
    ProductPower(1, n);
    ProductOne(Power(n));
  }
}
