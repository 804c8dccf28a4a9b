/**
 * The field of integers modulo p = 2^255 - 19, in five 51-bit limbs held in 64-bit words.
 *
 * Words are natural numbers with their width in the type, so every operation below is also proved
 * free of overflow and underflow. A right shift by k is a division by 2^k and a mask of k ones a
 * remainder modulo 2^k.
 */
module Curve25519Field {
  import opened Words

  /** Five limbs, least significant first. */
  type Fe = l: seq<u64> | |l| == 5 witness [0, 0, 0, 0, 0]

  /** p = 2^255 - 19. */
  const P: nat := 0x7fff_ffff_ffff_ffff_ffff_ffff_ffff_ffff_ffff_ffff_ffff_ffff_ffff_ffff_ffff_ffed

  /** The integer that five limbs stand for: the sum of l_i * 2^(51 i). */
  function Val5(l0: int, l1: int, l2: int, l3: int, l4: int): int
  {
    l0 + l1 * 0x8_0000_0000_0000
       + l2 * 0x40_0000_0000_0000_0000_0000_0000
       + l3 * 0x200_0000_0000_0000_0000_0000_0000_0000_0000_0000
       + l4 * 0x1000_0000_0000_0000_0000_0000_0000_0000_0000_0000_0000_0000_0000
  }

  function Val(a: Fe): nat
  {
    Val5(a[0], a[1], a[2], a[3], a[4])
  }

  /** Equal modulo p. */
  predicate Cong(x: int, y: int)
  {
    (x - y) % 0x7fff_ffff_ffff_ffff_ffff_ffff_ffff_ffff_ffff_ffff_ffff_ffff_ffff_ffff_ffff_ffed == 0
  }

  predicate Below(a: Fe, bound: nat)
  {
    a[0] < bound && a[1] < bound && a[2] < bound && a[3] < bound && a[4] < bound
  }

  /** What every product leaves: limbs under 2^51 + 2^14. */
  predicate Tight(a: Fe)
  {
    Below(a, 0x8_0000_0000_4000)
  }

  // --- Congruence ---

  lemma CongBy(x: int, y: int, k: int)
    requires x == y + k * 0x7fff_ffff_ffff_ffff_ffff_ffff_ffff_ffff_ffff_ffff_ffff_ffff_ffff_ffff_ffff_ffed
    ensures Cong(x, y)
  {
  }

  lemma CongTrans(x: int, y: int, z: int)
    requires Cong(x, y) && Cong(y, z)
    ensures Cong(x, z)
  {
  }

  lemma CongSum(x: int, y: int, x': int, y': int)
    requires Cong(x, x') && Cong(y, y')
    ensures Cong(x + y, x' + y') && Cong(x - y, x' - y')
  {
  }

  lemma CongQuotient(x: int, y: int) returns (k: int)
    requires Cong(x, y)
    ensures x == y + k * P
  {
    k := (x - y) / P;
  }

  lemma CongProduct(x: int, y: int, x': int, y': int)
    requires Cong(x, x') && Cong(y, y')
    ensures Cong(x * y, x' * y')
  {
    var j := CongQuotient(x, x');
    var k := CongQuotient(y, y');
    var m := x' * k + y' * j + j * k * P;
    assert x * y == x' * y' + m * P by {
      assert x * y == (x' + j * P) * (y' + k * P);
      assert (x' + j * P) * (y' + k * P) == x' * y' + x' * (k * P) + (j * P) * y' + (j * P) * (k * P);
      assert x' * (k * P) == (x' * k) * P && (j * P) * y' == (y' * j) * P && (j * P) * (k * P) == (j * k * P) * P;
    }
    CongBy(x * y, x' * y', m);
  }

  // --- Addition and subtraction ---

  function FeAdd(a: Fe, b: Fe): (r: Fe)
    requires Below(a, 0x8000_0000_0000_0000) && Below(b, 0x8000_0000_0000_0000)
    ensures Val(r) == Val(a) + Val(b)
  {
    [a[0] + b[0], a[1] + b[1], a[2] + b[2], a[3] + b[3], a[4] + b[4]]
  }

  /** Adds 2p limb by limb before subtracting, so that no limb goes below zero. */
  function FeSub(a: Fe, b: Fe): (r: Fe)
    requires Below(a, 0x8000_0000_0000_0000) && Tight(b)
    ensures Cong(Val(r), Val(a) - Val(b))
  {
    var p0, p1 := 0x0007_ffff_ffff_ffed, 0x0007_ffff_ffff_ffff;
    [a[0] + 2 * p0 - b[0], a[1] + 2 * p1 - b[1], a[2] + 2 * p1 - b[2], a[3] + 2 * p1 - b[3], a[4] + 2 * p1 - b[4]]
  }

  // --- Multiplication ---

  lemma AtMost(a: nat, b: nat, c: nat)
    requires b <= c
    ensures a * b <= a * c
  {
  }

  lemma ProductBelow(a: nat, b: nat)
    requires a < 0x40_0000_0000_0000 && b < 0x40_0000_0000_0000
    ensures 0 <= a * b < 0x1000_0000_0000_0000_0000_0000_0000
  {
    ProductLess(a, b, 0x40_0000_0000_0000);
  }

  lemma ProductLess(a: nat, b: nat, m: nat)
    requires a < m && b < m
    ensures 0 <= a * b < m * m
  {
    AtMost(a, b, m);
    AtMost(m, a + 1, m);
  }

  lemma Scale(x: int, b0: int, b1: int, b2: int, b3: int, b4: int)
    ensures x * Val5(b0, b1, b2, b3, b4) == Val5(x * b0, x * b1, x * b2, x * b3, x * b4)
  {
  }

  lemma ScaleSum(a0: int, a1: int, a2: int, a3: int, a4: int, v: int)
    ensures Val5(a0, a1, a2, a3, a4) * v == Val5(a0 * v, a1 * v, a2 * v, a3 * v, a4 * v)
  {
  }

  /** The schoolbook product, its upper part set apart as a multiple of 2^255. */
  lemma Schoolbook(a0: int, a1: int, a2: int, a3: int, a4: int, b0: int, b1: int, b2: int, b3: int, b4: int)
    ensures Val5(a0, a1, a2, a3, a4) * Val5(b0, b1, b2, b3, b4) ==
      Val5(a0 * b0, a1 * b0 + a0 * b1, a2 * b0 + a1 * b1 + a0 * b2, a3 * b0 + a2 * b1 + a1 * b2 + a0 * b3,
           a4 * b0 + a3 * b1 + a2 * b2 + a1 * b3 + a0 * b4)
      + Val5(a4 * b1 + a3 * b2 + a2 * b3 + a1 * b4, a4 * b2 + a3 * b3 + a2 * b4, a4 * b3 + a3 * b4, a4 * b4, 0)
        * 0x8000_0000_0000_0000_0000_0000_0000_0000_0000_0000_0000_0000_0000_0000_0000_0000
  {
    ScaleSum(a0, a1, a2, a3, a4, Val5(b0, b1, b2, b3, b4));
    Scale(a0, b0, b1, b2, b3, b4);
    Scale(a1, b0, b1, b2, b3, b4);
    Scale(a2, b0, b1, b2, b3, b4);
    Scale(a3, b0, b1, b2, b3, b4);
    Scale(a4, b0, b1, b2, b3, b4);
  }

  /** Folded back as 19 times itself, the upper part leaves the product unchanged modulo p. */
  lemma ProductFolds(a0: int, a1: int, a2: int, a3: int, a4: int, b0: int, b1: int, b2: int, b3: int, b4: int)
    ensures Cong(
      Val5(a0 * b0 + a4 * (b1 * 19) + a3 * (b2 * 19) + a2 * (b3 * 19) + a1 * (b4 * 19),
           a1 * b0 + a0 * b1 + a4 * (b2 * 19) + a3 * (b3 * 19) + a2 * (b4 * 19),
           a2 * b0 + a1 * b1 + a0 * b2 + a4 * (b3 * 19) + a3 * (b4 * 19),
           a3 * b0 + a2 * b1 + a1 * b2 + a0 * b3 + a4 * (b4 * 19),
           a4 * b0 + a3 * b1 + a2 * b2 + a1 * b3 + a0 * b4),
      Val5(a0, a1, a2, a3, a4) * Val5(b0, b1, b2, b3, b4))
  {
    hide Val5, Cong;
    Times19(a1, b4); Times19(a2, b4); Times19(a3, b4); Times19(a4, b4);
    Times19(a2, b3); Times19(a3, b3); Times19(a4, b3);
    Times19(a3, b2); Times19(a4, b2);
    Times19(a4, b1);
    Schoolbook(a0, a1, a2, a3, a4, b0, b1, b2, b3, b4);
    Fold(a0 * b0, a1 * b0 + a0 * b1, a2 * b0 + a1 * b1 + a0 * b2, a3 * b0 + a2 * b1 + a1 * b2 + a0 * b3,
         a4 * b0 + a3 * b1 + a2 * b2 + a1 * b3 + a0 * b4, a4 * b1 + a3 * b2 + a2 * b3 + a1 * b4,
         a4 * b2 + a3 * b3 + a2 * b4, a4 * b3 + a3 * b4, a4 * b4);
  }

  lemma Times19(a: int, b: int)
    ensures a * (b * 19) == 19 * (a * b)
  {
  }

  lemma Fold(c0: int, c1: int, c2: int, c3: int, c4: int, c5: int, c6: int, c7: int, c8: int)
    ensures Cong(Val5(c0 + 19 * c5, c1 + 19 * c6, c2 + 19 * c7, c3 + 19 * c8, c4),
                 Val5(c0, c1, c2, c3, c4)
                 + Val5(c5, c6, c7, c8, 0) *
                   0x8000_0000_0000_0000_0000_0000_0000_0000_0000_0000_0000_0000_0000_0000_0000_0000)
  {
    CongBy(Val5(c0 + 19 * c5, c1 + 19 * c6, c2 + 19 * c7, c3 + 19 * c8, c4),
           Val5(c0, c1, c2, c3, c4)
           + Val5(c5, c6, c7, c8, 0) *
             0x8000_0000_0000_0000_0000_0000_0000_0000_0000_0000_0000_0000_0000_0000_0000_0000,
           -Val5(c5, c6, c7, c8, 0));
  }

  /** One pass of carries over wide limbs, the last one folded back, and one more from the first limb. */
  method Carry(s0: u128, s1: u128, s2: u128, s3: u128, s4: u128) returns (r: Fe)
    requires s0 < 0x10_0000_0000_0000_0000_0000_0000_0000 && s1 < 0x10_0000_0000_0000_0000_0000_0000_0000
    requires s2 < 0x10_0000_0000_0000_0000_0000_0000_0000 && s3 < 0x10_0000_0000_0000_0000_0000_0000_0000
    requires s4 < 0x8000_0000_0000_0000_0000_0000_0000
    ensures Tight(r) && Cong(Val(r), Val5(s0, s1, s2, s3, s4))
  {
    var r0, r1, r2, r3, r4 := s0, s1, s2, s3, s4;
    var c: u128 := r0 / 0x8_0000_0000_0000;
    r0 := r0 % 0x8_0000_0000_0000;
    r1 := r1 + c;
    c := r1 / 0x8_0000_0000_0000;
    r1 := r1 % 0x8_0000_0000_0000;
    r2 := r2 + c;
    c := r2 / 0x8_0000_0000_0000;
    r2 := r2 % 0x8_0000_0000_0000;
    r3 := r3 + c;
    c := r3 / 0x8_0000_0000_0000;
    r3 := r3 % 0x8_0000_0000_0000;
    r4 := r4 + c;
    c := r4 / 0x8_0000_0000_0000;
    r4 := r4 % 0x8_0000_0000_0000;
    assert Val5(r0, r1, r2, r3, r4) +
      c * 0x8000_0000_0000_0000_0000_0000_0000_0000_0000_0000_0000_0000_0000_0000_0000_0000
        == Val5(s0, s1, s2, s3, s4);
    ghost var k: int := c;
    CongBy(Val5(r0 + c * 19, r1, r2, r3, r4), Val5(s0, s1, s2, s3, s4), -k);
    r0 := r0 + c * 19;
    c := r0 / 0x8_0000_0000_0000;
    r0 := r0 % 0x8_0000_0000_0000;
    r1 := r1 + c;
    r := [r0, r1, r2, r3, r4];
  }

  method FeMul(a: Fe, b: Fe) returns (r: Fe)
    requires Below(a, 0x40_0000_0000_0000) && Below(b, 0x40_0000_0000_0000)
    ensures Tight(r) && Cong(Val(r), Val(a) * Val(b))
  {
    var a0: u128, a1: u128, a2: u128, a3: u128, a4: u128 := a[0], a[1], a[2], a[3], a[4];
    var b0: u128, b1: u128, b2: u128, b3: u128, b4: u128 := b[0], b[1], b[2], b[3], b[4];
    ProductsBelow(a0, b0, b1, b2, b3, b4);
    ProductsBelow(a1, b0, b1, b2, b3, b4);
    ProductsBelow(a2, b0, b1, b2, b3, b4);
    ProductsBelow(a3, b0, b1, b2, b3, b4);
    ProductsBelow(a4, b0, b1, b2, b3, b4);
    var b1_19: u128, b2_19: u128, b3_19: u128, b4_19: u128 := b1 * 19, b2 * 19, b3 * 19, b4 * 19;
    var r0: u128 := a0 * b0 + a4 * b1_19 + a3 * b2_19 + a2 * b3_19 + a1 * b4_19;
    var r1: u128 := a1 * b0 + a0 * b1 + a4 * b2_19 + a3 * b3_19 + a2 * b4_19;
    var r2: u128 := a2 * b0 + a1 * b1 + a0 * b2 + a4 * b3_19 + a3 * b4_19;
    var r3: u128 := a3 * b0 + a2 * b1 + a1 * b2 + a0 * b3 + a4 * b4_19;
    var r4: u128 := a4 * b0 + a3 * b1 + a2 * b2 + a1 * b3 + a0 * b4;
    ProductFolds(a0, a1, a2, a3, a4, b0, b1, b2, b3, b4);
    r := Carry(r0, r1, r2, r3, r4);
    CongTrans(Val(r), Val5(r0, r1, r2, r3, r4), Val(a) * Val(b));
  }

  lemma ProductsBelow(a: nat, b0: nat, b1: nat, b2: nat, b3: nat, b4: nat)
    requires a < 0x40_0000_0000_0000 && b0 < 0x40_0000_0000_0000 && b1 < 0x40_0000_0000_0000
    requires b2 < 0x40_0000_0000_0000 && b3 < 0x40_0000_0000_0000 && b4 < 0x40_0000_0000_0000
    ensures 0 <= a * b0 < 0x1000_0000_0000_0000_0000_0000_0000 && 0 <= a * b1 < 0x1000_0000_0000_0000_0000_0000_0000
    ensures 0 <= a * b2 < 0x1000_0000_0000_0000_0000_0000_0000 && 0 <= a * b3 < 0x1000_0000_0000_0000_0000_0000_0000
    ensures 0 <= a * b4 < 0x1000_0000_0000_0000_0000_0000_0000
    ensures a * (b1 * 19) == 19 * (a * b1) && a * (b2 * 19) == 19 * (a * b2)
    ensures a * (b3 * 19) == 19 * (a * b3) && a * (b4 * 19) == 19 * (a * b4)
  {
    ProductBelow(a, b0);
    ProductBelow(a, b1);
    ProductBelow(a, b2);
    ProductBelow(a, b3);
    ProductBelow(a, b4);
  }
}
