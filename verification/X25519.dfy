/** X25519 scalar multiplication, against the ladder of section 5 of RFC 7748. */
module X25519 {
  import opened Words
  import opened Curve25519Field
  import opened Curve25519Codec

  // --- Powers ---

  function Power(x: int, n: nat): int
  {
    if n == 0 then 1 else x * Power(x, n - 1)
  }

  lemma {:induction false} PowerAdd(x: int, a: nat, b: nat)
    ensures Power(x, a + b) == Power(x, a) * Power(x, b)
  {
    if a != 0 {
      PowerAdd(x, a - 1, b);
      assert Power(x, a + b) == x * (Power(x, a - 1) * Power(x, b)) == Power(x, a) * Power(x, b);
    }
  }

  lemma {:induction false} PowerCong(x: int, y: int, n: nat)
    requires Cong(x, y)
    ensures Cong(Power(x, n), Power(y, n))
  {
    if n != 0 {
      PowerCong(x, y, n - 1);
      CongProduct(x, Power(x, n - 1), y, Power(y, n - 1));
    }
  }

  /** A reduced limb vector congruent to the e-th power of z. */
  predicate IsPower(x: Fe, z: int, e: nat)
  {
    Tight(x) && Cong(Val(x), Power(z, e))
  }

  method MulPowers(x: Fe, y: Fe, ghost z: int, ghost a: nat, ghost b: nat) returns (r: Fe)
    requires IsPower(x, z, a) && IsPower(y, z, b)
    ensures IsPower(r, z, a + b)
  {
    r := FeMul(x, y);
    CongProduct(Val(x), Val(y), Power(z, a), Power(z, b));
    PowerAdd(z, a, b);
    CongTrans(Val(r), Val(x) * Val(y), Power(z, a + b));
  }

  /** e * 2^n: the exponent after n squarings. */
  function Shifted(e: nat, n: nat): nat
  {
    e * Pow2(n)
  }

  /** Squares once and then n - 1 times more. */
  method SquareRun(x: Fe, n: nat, ghost z: int, ghost e: nat) returns (r: Fe)
    requires 1 <= n && IsPower(x, z, e)
    ensures IsPower(r, z, Shifted(e, n))
  {
    hide IsPower, Shifted;
    r := MulPowers(x, x, z, e, e);
    ShiftedDoubles(e, 0);
    for i := 1 to n
      invariant IsPower(r, z, Shifted(e, i))
    {
      r := MulPowers(r, r, z, Shifted(e, i), Shifted(e, i));
      ShiftedDoubles(e, i);
    }
  }

  lemma ShiftedDoubles(e: nat, i: nat)
    ensures Shifted(e, i) + Shifted(e, i) == Shifted(e, i + 1) && (i == 0 ==> Shifted(e, i) == e)
  {
    var m := Pow2(i);
    assert Pow2(i + 1) == 2 * m;
    assert e * (2 * m) == e * m + e * m;
  }

  /** (2^a - 1) shifted up by b, plus 2^b - 1. */
  lemma OnesJoin(a: nat, b: nat)
    ensures Shifted(Pow2(a) - 1, b) + (Pow2(b) - 1) == Pow2(a + b) - 1
  {
    Pow2Add(a, b);
  }

  lemma LastExponent()
    ensures Shifted(Pow2(250) - 1, 5) + 11 == P - 2
  {
    hide Pow2;
    Pow2Values();
    Pow2Add(250, 5); Pow2Add(192, 51); Pow2Add(243, 12);
    Pow2Five();
  }

  lemma Pow2Five()
    ensures Pow2(5) == 32 && Pow2(12) == 4096
  {
  }

  /** Raises to the power p - 2, by the addition chain for 2^255 - 21. */
  method FeInv(z: Fe) returns (r: Fe)
    requires Tight(z)
    ensures Tight(r) && Cong(Val(r), Power(Val(z), P - 2))
  {
    ghost var x := Val(z);
    assert IsPower(z, x, 1) by { assert Power(x, 1) == x * Power(x, 0) == x; }
    r := FeInvChain(z, x);
    LastExponent();
    hide Power, Pow2, Shifted;
  }

  method FeInvChain(z: Fe, ghost x: int) returns (r: Fe)
    requires IsPower(z, x, 1)
    ensures IsPower(r, x, Shifted(Pow2(250) - 1, 5) + 11)
  {
    hide IsPower, Pow2, Shifted;
    Pow2Five();
    var z2 := MulPowers(z, z, x, 1, 1);
    var z9 := MulPowers(z2, z2, x, 2, 2);
    z9 := MulPowers(z9, z9, x, 4, 4);
    z9 := MulPowers(z9, z, x, 8, 1);
    var z11 := MulPowers(z9, z2, x, 9, 2);
    var z5 := MulPowers(z11, z11, x, 11, 11);
    z5 := MulPowers(z5, z9, x, 22, 9);
    var z10 := Extend(z5, z5, x, 5, 5);
    var z20 := Extend(z10, z10, x, 10, 10);
    var z40 := Extend(z20, z20, x, 20, 20);
    var z50 := Extend(z40, z10, x, 40, 10);
    var z100 := Extend(z50, z50, x, 50, 50);
    var z200 := Extend(z100, z100, x, 100, 100);
    var z250 := Extend(z200, z50, x, 200, 50);
    var t := SquareRun(z250, 5, x, Pow2(250) - 1);
    r := MulPowers(t, z11, x, Shifted(Pow2(250) - 1, 5), 11);
  }

  /** From z^(2^a - 1) and z^(2^b - 1): b squarings and a product give z^(2^(a+b) - 1). */
  method Extend(u: Fe, v: Fe, ghost x: int, ghost a: nat, b: nat) returns (r: Fe)
    requires 1 <= b && IsPower(u, x, Pow2(a) - 1) && IsPower(v, x, Pow2(b) - 1)
    ensures IsPower(r, x, Pow2(a + b) - 1)
  {
    hide IsPower, Pow2, Shifted;
    r := SquareRun(u, b, x, Pow2(a) - 1);
    r := MulPowers(r, v, x, Shifted(Pow2(a) - 1, b), Pow2(b) - 1);
    OnesJoin(a, b);
  }

  // --- Conditional swap ---

  /** Without branching on `swap`: xor with the difference, masked by all zeros or all ones. */
  method FeCswap(swap: u64, a: Fe, b: Fe) returns (c: Fe, d: Fe)
    requires swap <= 1
    ensures (c, d) == if swap == 1 then (b, a) else (a, b)
  {
    hide Xor, And;
    var mask: u64 := (0x1_0000_0000_0000_0000 - swap) % 0x1_0000_0000_0000_0000;
    c, d := a, b;
    for i := 0 to 5
      invariant forall k :: 0 <= k < 5 ==> c[k] == if swap == 1 && k < i then b[k] else a[k]
      invariant forall k :: 0 <= k < 5 ==> d[k] == if swap == 1 && k < i then a[k] else b[k]
    {
      CswapWord(c[i], d[i], swap, mask);
      var x := And(Xor(c[i], d[i]), mask);
      c, d := c[i := Xor(c[i], x)], d[i := Xor(d[i], x)];
    }
    assert swap == 1 ==> c == b && d == a;
    assert swap == 0 ==> c == a && d == b;
  }

  lemma CswapWord(x: u64, y: u64, swap: u64, mask: u64)
    requires swap <= 1 && mask == (0x1_0000_0000_0000_0000 - swap) % 0x1_0000_0000_0000_0000
    ensures var d := And(Xor(x, y), mask);
      Xor(x, d) == (if swap == 1 then y else x) && Xor(y, d) == if swap == 1 then x else y
  {
    hide Pow2, Xor;
    if swap == 1 {
      Pow2Values();
      XorBelow(x, y, 64);
      AndMask(Xor(x, y), 64);
      XorCancels(x, y);
      XorCommutes(x, y);
      XorCancels(y, x);
    } else {
      XorNothing(x);
      XorNothing(y);
    }
  }

  lemma XorNothing(x: nat)
    ensures Xor(x, 0) == x
  {
    XorCommutes(x, 0);
    XorZero(0, x);
  }

  // --- The ladder of section 5 of RFC 7748, over the integers modulo p ---

  datatype Points = Points(x2: int, z2: int, x3: int, z3: int)

  function Swapped(s: Points): Points
  {
    Points(s.x3, s.z3, s.x2, s.z2)
  }

  /** Doubles (x2 : z2) and adds (x3 : z3) to it, their difference being x1. */
  function Rung(x1: int, s: Points): Points
  {
    var a, b, c, d := s.x2 + s.z2, s.x2 - s.z2, s.x3 + s.z3, s.x3 - s.z3;
    var aa, bb, da, cb := a * a, b * b, d * a, c * b;
    var e := aa - bb;
    Points(aa * bb % P, e * (aa + 121665 * e) % P, (da + cb) * (da + cb) % P, x1 * ((da - cb) * (da - cb)) % P)
  }

  function Bit(k: nat, t: nat): nat
  {
    k / Pow2(t) % 2
  }

  /** A rung for each of the bits t-1, ..., 0 of k, with the two points exchanged for a bit that is set. */
  function Ladder(k: nat, u: int, s: Points, t: nat): Points
    decreases t
  {
    if t == 0 then s
    else Ladder(k, u, if Bit(k, t - 1) == 1 then Swapped(Rung(u, Swapped(s))) else Rung(u, s), t - 1)
  }

  /** The points the ladder ends with. */
  function LadderEnd(k: nat, u: int): Points
  {
    Ladder(k, u, Points(1, 0, u, 1), 255)
  }

  function ScalarMult(k: nat, u: int): int
  {
    LadderEnd(k, u).x2 * Power(LadderEnd(k, u).z2, P - 2) % P
  }

  // --- The same on limbs ---

  /** A reduced limb vector that stands for v modulo p. */
  predicate Rep(f: Fe, v: int)
  {
    Tight(f) && Cong(Val(f), v)
  }

  /** One that is not yet carried. */
  predicate Loose(f: Fe, v: int)
  {
    Below(f, 0x40_0000_0000_0000) && Cong(Val(f), v)
  }

  function Times(u: int, v: int): int
  {
    u * v
  }

  method Mul(x: Fe, y: Fe, ghost u: int, ghost v: int) returns (r: Fe)
    requires Loose(x, u) && Loose(y, v)
    ensures Rep(r, Times(u, v)) && Loose(r, Times(u, v))
  {
    r := FeMul(x, y);
    CongProduct(Val(x), Val(y), u, v);
    CongTrans(Val(r), Val(x) * Val(y), u * v);
  }

  lemma SumCong(x: int, y: int, u: int, v: int, sum: int, difference: int)
    requires Cong(x, u) && Cong(y, v) && sum == x + y && Cong(difference, x - y)
    ensures Cong(sum, u + v) && Cong(difference, u - v)
  {
    hide Cong;
    CongSum(x, y, u, v);
    CongTrans(difference, x - y, u - v);
  }

  lemma AddLoose(x: Fe, y: Fe)
    requires Tight(x) && Tight(y)
    ensures Below(FeAdd(x, y), 0x40_0000_0000_0000) && Below(FeSub(x, y), 0x40_0000_0000_0000)
  {
    hide Val;
  }

  function Add(x: Fe, y: Fe, ghost u: int, ghost v: int): (r: Fe)
    requires Rep(x, u) && Rep(y, v)
    ensures Loose(r, u + v)
  {
    AddIs(x, y, u, v);
    FeAdd(x, y)
  }

  lemma AddIs(x: Fe, y: Fe, u: int, v: int)
    requires Rep(x, u) && Rep(y, v)
    ensures Tight(x) && Tight(y) && Loose(FeAdd(x, y), u + v) && Loose(FeSub(x, y), u - v)
  {
    hide Val, Cong, FeAdd, FeSub;
    AddLoose(x, y);
    SumCong(Val(x), Val(y), u, v, Val(FeAdd(x, y)), Val(FeSub(x, y)));
  }

  function Sub(x: Fe, y: Fe, ghost u: int, ghost v: int): (r: Fe)
    requires Rep(x, u) && Rep(y, v)
    ensures Loose(r, u - v)
  {
    AddIs(x, y, u, v);
    FeSub(x, y)
  }

  predicate Represents(x2: Fe, z2: Fe, x3: Fe, z3: Fe, s: Points)
  {
    Rep(x2, s.x2) && Rep(z2, s.z2) && Rep(x3, s.x3) && Rep(z3, s.z3)
  }

  lemma Residue(f: Fe, v: int)
    requires Rep(f, v)
    ensures Rep(f, v % P)
  {
    CongBy(v, v % P, v / P);
    CongTrans(Val(f), v, v % P);
  }

  method LadderStep(x1: Fe, x2: Fe, z2: Fe, x3: Fe, z3: Fe, ghost u: int, ghost s: Points)
    returns (nx2: Fe, nz2: Fe, nx3: Fe, nz3: Fe)
    requires Loose(x1, u) && Represents(x2, z2, x3, z3, s)
    ensures Represents(nx2, nz2, nx3, nz3, Rung(u, s))
  {
    hide Rep, Loose, Times, Rung;
    ghost var ga, gb := s.x2 + s.z2, s.x2 - s.z2;
    ghost var aa, bb := Times(ga, ga), Times(gb, gb);
    ghost var da, cb := Times(s.x3 - s.z3, ga), Times(s.x3 + s.z3, gb);
    var a := Add(x2, z2, s.x2, s.z2);
    var b := Sub(x2, z2, s.x2, s.z2);
    nx2, nz2 := Double(a, b, ga, gb);
    nx3, nz3 := DifferentialAdd(x1, x3, z3, a, b, u, s.x3, s.z3, ga, gb);
    RungIs(nx2, nz2, nx3, nz3, u, s, aa, bb, da, cb, aa - bb);
  }

  /** The doubling half of a rung: the new first point from `a = x2 + z2` and `b = x2 - z2`. */
  method Double(a: Fe, b: Fe, ghost u: int, ghost v: int) returns (x: Fe, z: Fe)
    requires Loose(a, u) && Loose(b, v)
    ensures Rep(x, Times(Times(u, u), Times(v, v)))
    ensures Rep(z, Twisted(Times(u, u), Times(u, u) - Times(v, v)))
  {
    hide Rep, Loose, Times;
    var a24: Fe := [121665, 0, 0, 0, 0];
    A24(a24);
    ghost var uu, vv := Times(u, u), Times(v, v);
    var aa := Mul(a, a, u, u);
    var bb := Mul(b, b, v, v);
    var e := Sub(aa, bb, uu, vv);
    x := Mul(aa, bb, uu, vv);
    z := Mul(a24, e, 121665, uu - vv);
    var s := Add(aa, z, uu, Times(121665, uu - vv));
    z := Mul(e, s, uu - vv, uu + Times(121665, uu - vv));
  }

  function Twisted(aa: int, e: int): int
  {
    Times(e, aa + Times(121665, e))
  }

  /** The adding half: the new second point, whose difference from the first is the base point. */
  method DifferentialAdd(x1: Fe, x3: Fe, z3: Fe, a: Fe, b: Fe,
                         ghost u: int, ghost v: int, ghost w: int, ghost ga: int, ghost gb: int)
    returns (x: Fe, z: Fe)
    requires Loose(x1, u) && Rep(x3, v) && Rep(z3, w) && Loose(a, ga) && Loose(b, gb)
    ensures var da, cb := Times(v - w, ga), Times(v + w, gb);
      Rep(x, Times(da + cb, da + cb)) && Rep(z, Times(u, Times(da - cb, da - cb)))
  {
    hide Rep, Loose, Times;
    ghost var gda, gcb := Times(v - w, ga), Times(v + w, gb);
    var c := Add(x3, z3, v, w);
    var d := Sub(x3, z3, v, w);
    var da := Mul(d, a, v - w, ga);
    var cb := Mul(c, b, v + w, gb);
    var sum := Add(da, cb, gda, gcb);
    var difference := Sub(da, cb, gda, gcb);
    x := Mul(sum, sum, gda + gcb, gda + gcb);
    z := Mul(difference, difference, gda - gcb, gda - gcb);
    z := Mul(x1, z, u, Times(gda - gcb, gda - gcb));
  }

  lemma RungIs(x2: Fe, z2: Fe, x3: Fe, z3: Fe, u: int, s: Points, aa: int, bb: int, da: int, cb: int, e: int)
    requires aa == Times(s.x2 + s.z2, s.x2 + s.z2) && bb == Times(s.x2 - s.z2, s.x2 - s.z2)
    requires da == Times(s.x3 - s.z3, s.x2 + s.z2) && cb == Times(s.x3 + s.z3, s.x2 - s.z2) && e == aa - bb
    requires Rep(x2, Times(aa, bb)) && Rep(z2, Times(e, aa + Times(121665, e)))
    requires Rep(x3, Times(da + cb, da + cb)) && Rep(z3, Times(u, Times(da - cb, da - cb)))
    ensures Represents(x2, z2, x3, z3, Rung(u, s))
  {
    hide Rep;
    Residue(x2, Times(aa, bb));
    Residue(z2, Times(e, aa + Times(121665, e)));
    Residue(x3, Times(da + cb, da + cb));
    Residue(z3, Times(u, Times(da - cb, da - cb)));
  }

  lemma A24(f: Fe)
    requires f == [121665, 0, 0, 0, 0]
    ensures Loose(f, 121665)
  {
  }

  // --- Scalars and bits ---

  /** Clears the three low bits and the top one, and sets the one below it. */
  function Clamp(s: Bytes32): Bytes32
  {
    ClampBytes(s[0], s[31]);
    s[0 := And(s[0], 248)][31 := Or(And(s[31], 127), 64)]
  }

  /** A clamped scalar is a multiple of 8 between 2^254 and 2^255. */
  lemma ClampRange(s: Bytes32)
    ensures Le(Clamp(s)) % 8 == 0
    ensures 0x4000_0000_0000_0000_0000_0000_0000_0000_0000_0000_0000_0000_0000_0000_0000_0000 <= Le(Clamp(s))
    ensures Le(Clamp(s)) < 0x8000_0000_0000_0000_0000_0000_0000_0000_0000_0000_0000_0000_0000_0000_0000_0000
  {
    hide Le, And, Or, Pow2;
    var c := Clamp(s);
    ClampBytes(s[0], s[31]);
    LeHead(c);
    assert c == c[..31] + [c[31]];
    LeConcat(c[..31], [c[31]]);
    LeHead([c[31]]);
    assert [c[31]][1..] == [];
    LeEmpty();
    LeBelow(c[..31]);
    Pow2Values();
    Pow2Add(192, 56); Pow2Add(48, 8);
    Pow2Byte();
  }

  /** Clamping keeps the bits 3 to 253, clears the three below, and leaves bit 254 as the highest. */
  lemma ClampKeeps(s: Bytes32)
    ensures Le(Clamp(s)) == Pow2(254) + Le(s) % Pow2(254) - Le(s) % 8
  {
    hide Le, And, Or, Pow2;
    var c := Clamp(s);
    ClampBytes(s[0], s[31]);
    Ends(s);
    Ends(c);
    assert s[1..31] == c[1..31];
    LeBelow(s[1..31]);
    TopBit();
    ClampSum(s[0], Le(s[1..31]), s[31], Pow2(240));
  }

  lemma TopBit()
    ensures Pow2(254) == 256 * Pow2(240) * 64
  {
    hide Pow2;
    Pow2Add(14, 240);
    Pow2Add(8, 6);
    Pow2Byte();
    Pow2Values();
  }

  lemma ClampSum(a: u8, m: nat, b: u8, w: nat)
    requires m < w
    ensures (a + 256 * m + 256 * w * b) % (256 * w * 64) == a + 256 * m + 256 * w * (b % 64)
    ensures (a + 256 * m + 256 * w * b) % 8 == a % 8
    ensures (a - a % 8) + 256 * m + 256 * w * (b % 64 + 64) ==
      256 * w * 64 + (a + 256 * m + 256 * w * (b % 64)) - a % 8
  {
    var v := 256 * w;
    var x := a + 256 * m + v * b;
    assert b == 64 * (b / 64) + b % 64;
    assert v * b == (v * 64) * (b / 64) + v * (b % 64);
    AtLeast(v, b % 64, 63);
    assert a + 256 * m < v;
    Remainder(x, v * 64, b / 64, a + 256 * m + v * (b % 64));
    var n := 32 * (m + w * b) + a / 8;
    assert v * b == 256 * (w * b);
    Remainder(x, 8, n, a % 8);
    assert v * (b % 64 + 64) == v * (b % 64) + v * 64;
  }

  /** The first byte, the middle and the last. */
  lemma Ends(s: Bytes32)
    ensures Le(s) == s[0] + 256 * Le(s[1..31]) + 256 * Pow2(240) * s[31]
  {
    hide Le, Pow2;
    LeHead(s);
    var rest := s[1..];
    assert rest == rest[..30] + [s[31]] && rest[..30] == s[1..31];
    LeConcat(rest[..30], [s[31]]);
    LeHead([s[31]]);
    assert [s[31]][1..] == [];
    LeEmpty();
    assert 256 * (Pow2(240) * s[31]) == 256 * Pow2(240) * s[31];
  }

  lemma ClampBytes(x: u8, y: u8)
    ensures And(x, 248) == x - x % 8 && Or(And(y, 127), 64) == y % 64 + 64
  {
    hide Or, And;
    ClampLow(x);
    assert Pow2(7) == 128 && Pow2(6) == 64;
    AndMask(y, 7);
    ClampHigh(y % 128);
  }

  lemma ClampLow(x: u8)
    ensures And(x, 248) == x - x % 8
  {
    assert Pow2(5) == 32;
    AndMask(x / 8, 5);
    AndEven(x, 124);
    AndEven(x / 2, 62);
    AndEven(x / 4, 31);
  }

  lemma AndEven(x: nat, y: nat)
    ensures And(x, 2 * y) == 2 * And(x / 2, y)
  {
    assert (2 * y) / 2 == y && (2 * y) % 2 == 0;
  }

  lemma ClampHigh(y: u8)
    requires y < 128
    ensures Or(y, 64) == y % 64 + 64
  {
    hide Or;
    assert Pow2(6) == 64;
    if y < 64 {
      OrDisjoint(y, 1, 6);
    } else {
      OrTop(y - 64, 6);
    }
  }

  lemma {:induction false} OrTop(x: nat, k: nat)
    requires x < Pow2(k)
    ensures Or(x + Pow2(k), Pow2(k)) == x + Pow2(k)
  {
    if k != 0 {
      var m := Pow2(k - 1);
      assert (x + 2 * m) / 2 == x / 2 + m && (x + 2 * m) % 2 == x % 2 && (2 * m) / 2 == m && (2 * m) % 2 == 0;
      OrTop(x / 2, k - 1);
    }
  }

  /** For every scalar and point, the result is the canonical encoding of what the ladder gives modulo p. */
  method ScalarMultBytes(scalar: Bytes32, point: Bytes32) returns (out: Bytes32)
    ensures Le(out) == ScalarMult(Le(Clamp(scalar)),
      Le(point) % 0x8000_0000_0000_0000_0000_0000_0000_0000_0000_0000_0000_0000_0000_0000_0000_0000)
  {
    hide Le, Clamp, Rep, Loose, Rung, Ladder, Power, Bit, Pow2, And, Xor, Val5;
    var clamped := Clamp(scalar);
    var x1 := FeFromBytes(point);
    ghost var u := Val(x1);
    ghost var k := Le(clamped);
    FeFromBytesValue(point);
    var x2: Fe, z2: Fe, x3: Fe, z3: Fe := [1, 0, 0, 0, 0], [0, 0, 0, 0, 0], x1, [1, 0, 0, 0, 0];
    ghost var s := Points(1, 0, u, 1);
    Starts(x2, z2, x3);
    var swap: u64 := 0;
    var i := 255;
    while i > 0
      invariant 0 <= i <= 255 && swap <= 1 && Loose(x1, u)
      invariant Represents(x2, z2, x3, z3, if swap == 1 then Swapped(s) else s)
      invariant Ladder(k, u, s, i) == Ladder(k, u, Points(1, 0, u, 1), 255)
    {
      i := i - 1;
      var bit := And(ShiftRight(clamped[i / 8], i % 8), 1);
      BitIs(clamped, i, bit);
      XorBits(swap, bit);
      swap := Xor(swap, bit);
      x2, x3 := FeCswap(swap, x2, x3);
      z2, z3 := FeCswap(swap, z2, z3);
      swap := bit;
      ghost var s1 := if bit == 1 then Swapped(s) else s;
      x2, z2, x3, z3 := LadderStep(x1, x2, z2, x3, z3, u, s1);
      LadderUnfolds(k, u, s, i + 1);
      s := if bit == 1 then Swapped(Rung(u, s1)) else Rung(u, s1);
    }
    x2, x3 := FeCswap(swap, x2, x3);
    z2, z3 := FeCswap(swap, z2, z3);
    LadderEnds(k, u, s);
    out := Quotient(x2, z2, s.x2, s.z2);
  }

  /** x2 times the (p-2)-th power of z2, encoded. */
  method Quotient(x2: Fe, z2: Fe, ghost x: int, ghost z: int) returns (out: Bytes32)
    requires Rep(x2, x) && Rep(z2, z)
    ensures Le(out) == x * Power(z, P - 2) % P
  {
    hide Power, Le;
    var inv := FeInv(z2);
    PowerCong(Val(z2), z, P - 2);
    CongTrans(Val(inv), Power(Val(z2), P - 2), Power(z, P - 2));
    var res := Mul(x2, inv, x, Power(z, P - 2));
    out := FeToBytes(res);
    SameResidue(Val(res), x * Power(z, P - 2));
  }

  lemma SameResidue(x: int, y: int)
    requires Cong(x, y)
    ensures x % P == y % P
  {
  }

  lemma Starts(one: Fe, zero: Fe, x1: Fe)
    requires one == [1, 0, 0, 0, 0] && zero == [0, 0, 0, 0, 0] && Below(x1, 0x8_0000_0000_0000)
    ensures Rep(one, 1) && Rep(zero, 0) && Rep(x1, Val(x1)) && Loose(x1, Val(x1))
  {
    hide Val5, Cong;
    SmallValue(1);
    SmallValue(0);
    CongBy(Val(x1), Val(x1), 0);
  }

  lemma SmallValue(n: u64)
    ensures Val([n, 0, 0, 0, 0]) == n && Cong(n, n)
  {
  }

  lemma BitIs(s: Bytes32, i: nat, bit: nat)
    requires i < 256 && bit == And(ShiftRight(s[i / 8], i % 8), 1)
    ensures bit == Bit(Le(s), i) && bit <= 1
  {
    hide Le, And, Pow2, ShiftRight;
    BitOfByte(s, i);
    LowBit(ShiftRight(s[i / 8], i % 8));
  }

  lemma XorBits(x: u64, y: u64)
    requires x <= 1 && y <= 1
    ensures Xor(x, y) == if x == y then 0 else 1
  {
  }

  lemma LadderUnfolds(k: nat, u: int, s: Points, t: nat)
    requires 0 < t
    ensures Ladder(k, u, s, t) ==
      Ladder(k, u, if Bit(k, t - 1) == 1 then Swapped(Rung(u, Swapped(s))) else Rung(u, s), t - 1)
  {
  }

  lemma LadderEnds(k: nat, u: int, s: Points)
    ensures Ladder(k, u, s, 0) == s
  {
  }
}
