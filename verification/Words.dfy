/** Machine words as natural numbers, and the bitwise operators on them. */
module Words {

  type u8 = x: nat | x < 0x100
  type u32 = x: nat | x < 0x1_0000_0000
  type u64 = x: nat | x < 0x1_0000_0000_0000_0000
  type u128 = x: nat | x < 0x1_0000_0000_0000_0000_0000_0000_0000_0000

  type Bytes = seq<u8>

  /** The bytes are the ASCII codes of the text. */
  predicate Spells(b: Bytes, text: string)
  {
    |b| == |text| && forall i :: 0 <= i < |b| ==> b[i] as int == text[i] as int
  }

  function Pow2(n: nat): (r: nat)
    ensures 0 < r
  {
    if n == 0 then 1 else 2 * Pow2(n - 1)
  }

  function And(x: nat, y: nat): nat
  {
    if x == 0 || y == 0 then 0 else (if x % 2 == 1 && y % 2 == 1 then 1 else 0) + 2 * And(x / 2, y / 2)
  }

  function Or(x: nat, y: nat): nat
    decreases x + y
  {
    if x == 0 && y == 0 then 0 else (if x % 2 == 0 && y % 2 == 0 then 0 else 1) + 2 * Or(x / 2, y / 2)
  }

  function Xor(x: nat, y: nat): nat
    decreases x + y
  {
    if x == 0 && y == 0 then 0 else (x + y) % 2 + 2 * Xor(x / 2, y / 2)
  }

  lemma {:induction false} Pow2Add(a: nat, b: nat)
    ensures Pow2(a + b) == Pow2(a) * Pow2(b)
  {
    if a != 0 {
      Pow2Add(a - 1, b);
      assert Pow2(a + b) == 2 * (Pow2(a - 1) * Pow2(b)) == Pow2(a) * Pow2(b);
    }
  }

  /** Masking with k ones is the remainder modulo 2^k. */
  lemma {:induction false} AndMask(x: nat, k: nat)
    ensures And(x, Pow2(k) - 1) == x % Pow2(k)
  {
    if k == 0 {
    } else if x == 0 {
      Remainder(0, Pow2(k), 0, 0);
    } else {
      hide And;
      AndMask(x / 2, k - 1);
      RemainderBit(x, Pow2(k - 1));
      AndOdd(x, Pow2(k - 1) - 1);
    }
  }

  lemma AndOdd(x: nat, y: nat)
    requires x != 0
    ensures And(x, 2 * y + 1) == x % 2 + 2 * And(x / 2, y)
  {
    assert (2 * y + 1) / 2 == y && (2 * y + 1) % 2 == 1;
  }

  lemma RemainderBit(x: nat, m: nat)
    requires 0 < m
    ensures x % (2 * m) == x % 2 + 2 * ((x / 2) % m)
  {
    var q, r := x / 2 / m, (x / 2) % m;
    assert x / 2 == m * q + r;
    assert x == 2 * (m * q + r) + x % 2 == (2 * m) * q + (x % 2 + 2 * r);
    Remainder(x, 2 * m, q, x % 2 + 2 * r);
  }

  /** Quotient and remainder are determined by their defining equation. */
  lemma Remainder(x: int, m: int, q: int, r: int)
    requires 0 <= r < m && x == m * q + r
    ensures x % m == r && x / m == q
  {
    var d := x / m - q;
    assert x == m * (x / m) + x % m;
    assert m * d == m * (x / m) - m * q;
    SmallMultiple(m, d);
  }

  lemma SmallMultiple(m: int, d: int)
    requires 0 < m && -m < m * d < m
    ensures d == 0
  {
    if 0 < d {
      AtLeast(m, 1, d);
    } else if d < 0 {
      AtLeast(m, 1, -d);
    }
  }

  lemma AtLeast(a: int, b: int, c: int)
    requires 0 <= a && b <= c
    ensures a * b <= a * c
  {
  }

  lemma DivDiv(x: nat, a: nat, b: nat)
    requires 0 < a && 0 < b
    ensures x / a / b == x / (a * b)
  {
    var q, r := x / a, x % a;
    assert x == a * q + r && q == b * (q / b) + q % b;
    assert a * (b * (q / b)) == (a * b) * (q / b);
    assert 0 <= a * (q % b) + r < a * b by { AtLeast(a, q % b, b - 1); assert a * (b - 1) == a * b - a; }
    Remainder(x, a * b, q / b, a * (q % b) + r);
  }

  /** `x` shifted right by `k` bits. */
  function ShiftRight(x: nat, k: nat): nat
  {
    if k == 0 then x else ShiftRight(x / 2, k - 1)
  }

  lemma {:induction false} ShiftRightDivides(x: nat, k: nat)
    ensures ShiftRight(x, k) == x / Pow2(k)
  {
    hide Pow2;
    if k == 0 {
      Pow2Zero();
    } else {
      ShiftRightDivides(x / 2, k - 1);
      Pow2Step(k - 1);
      DivDiv(x, 2, Pow2(k - 1));
    }
  }

  lemma Pow2Zero()
    ensures Pow2(0) == 1
  {
  }

  lemma Pow2Step(n: nat)
    ensures Pow2(n + 1) == 2 * Pow2(n)
  {
  }

  /** Each further place halves the number. */
  lemma {:induction false} ShiftRightHalves(x: nat, k: nat)
    ensures ShiftRight(x, k + 1) == ShiftRight(x, k) / 2
  {
    if k != 0 { ShiftRightHalves(x / 2, k - 1); }
  }

  function Zeros(n: nat): (z: seq<u8>)
    ensures |z| == n
  {
    seq(n, _ => 0)
  }

  /** Or-ing words without a common bit adds them. */
  lemma {:induction false} OrDisjoint(x: nat, y: nat, k: nat)
    requires x < Pow2(k)
    ensures Or(x, Pow2(k) * y) == x + Pow2(k) * y
  {
    if k == 0 {
      OrZero(y);
    } else if x != 0 || y != 0 {
      var m := Pow2(k - 1);
      var z := Pow2(k) * y;
      assert z == 2 * (m * y);
      assert z % 2 == 0 && z / 2 == m * y;
      OrDisjoint(x / 2, y, k - 1);
    }
  }

  lemma OrShifted(x: nat, y: nat, k: nat, m: nat)
    requires m == Pow2(k) && x < m
    ensures Or(x, y * m) == x + y * m
  {
    hide Or, Pow2;
    OrDisjoint(x, y, k);
    assert y * m == m * y;
  }

  lemma Mask(x: nat, k: nat, m: nat)
    requires m == Pow2(k)
    ensures And(x, m - 1) == x % m
  {
    AndMask(x, k);
  }

  lemma LowBit(x: nat)
    ensures And(x, 1) == x % 2
  {
    hide And;
    AndMask(x, 1);
  }

  lemma SmallPowers()
    ensures Pow2(0) == 1 && Pow2(1) == 2 && Pow2(2) == 4 && Pow2(3) == 8 && Pow2(4) == 16 && Pow2(5) == 32
    ensures Pow2(6) == 64 && Pow2(7) == 128 && Pow2(8) == 256 && Pow2(10) == 1024 && Pow2(12) == 4096
  {
    assert Pow2(3) == 2 * Pow2(2) == 4 * Pow2(1) == 8 * Pow2(0);
    assert Pow2(6) == 2 * Pow2(5) == 4 * Pow2(4) == 8 * Pow2(3);
    assert Pow2(9) == 2 * Pow2(8) == 4 * Pow2(7) == 8 * Pow2(6);
    assert Pow2(12) == 2 * Pow2(11) == 4 * Pow2(10) == 8 * Pow2(9);
  }

  lemma {:induction false} OrZero(y: nat)
    ensures Or(0, y) == y
  {
    if y != 0 { OrZero(y / 2); }
  }

  lemma {:induction false} XorCommutes(x: nat, y: nat)
    ensures Xor(x, y) == Xor(y, x)
    decreases x + y
  {
    if x != 0 || y != 0 { XorCommutes(x / 2, y / 2); }
  }

  /** Xor-ing twice with the same word gives the other back. */
  lemma {:induction false} XorCancels(x: nat, y: nat)
    ensures Xor(x, Xor(x, y)) == y
    decreases x + y
  {
    if x != 0 || y != 0 {
      var z, w := Xor(x, y), Xor(x / 2, y / 2);
      XorCancels(x / 2, y / 2);
      XorStep(x, y, z, w);
    }
  }

  lemma XorStep(x: nat, y: nat, z: nat, w: nat)
    requires z == (x + y) % 2 + 2 * w && Xor(x / 2, w) == y / 2
    ensures Xor(x, z) == y
  {
    hide Xor;
    assert z / 2 == w && (x + z) % 2 == y % 2;
    XorUnfolds(x, z);
  }

  lemma XorUnfolds(x: nat, y: nat)
    ensures Xor(x, y) == (x + y) % 2 + 2 * Xor(x / 2, y / 2)
  {
  }

  lemma {:induction false} XorZero(x: nat, y: nat)
    requires x == 0
    ensures Xor(x, y) == y
    decreases y
  {
    if y != 0 { XorZero(0, y / 2); }
  }

  lemma {:induction false} XorBelow(x: nat, y: nat, k: nat)
    requires x < Pow2(k) && y < Pow2(k)
    ensures Xor(x, y) < Pow2(k)
  {
    if k != 0 && (x != 0 || y != 0) { XorBelow(x / 2, y / 2, k - 1); }
  }

  // --- Little-endian bytes ---

  /** The number whose base-256 digits, least significant first, are `s`. */
  function Le(s: seq<u8>): nat
  {
    if s == [] then 0 else s[0] + 256 * Le(s[1..])
  }

  /** The `n` low digits of `x`. */
  function ToLe(x: nat, n: nat): (s: seq<u8>)
    ensures |s| == n
  {
    if n == 0 then [] else [x % 256] + ToLe(x / 256, n - 1)
  }

  lemma LeEmpty()
    ensures Le([]) == 0
  {
  }

  lemma LeHead(s: seq<u8>)
    requires s != []
    ensures Le(s) == s[0] + 256 * Le(s[1..])
  {
  }

  lemma {:induction false} LeConcat(s: seq<u8>, t: seq<u8>)
    ensures Le(s + t) == Le(s) + Pow2(8 * |s|) * Le(t)
  {
    if s == [] {
      assert s + t == t;
    } else {
      assert (s + t)[1..] == s[1..] + t;
      LeConcat(s[1..], t);
      Pow2Add(8, 8 * (|s| - 1));
      assert Pow2(8) == 256;
      assert 256 * (Pow2(8 * (|s| - 1)) * Le(t)) == Pow2(8 * |s|) * Le(t);
    }
  }

  lemma {:induction false} LeBelow(s: seq<u8>)
    ensures Le(s) < Pow2(8 * |s|)
  {
    if s != [] {
      LeBelow(s[1..]);
      Pow2Add(8, 8 * (|s| - 1));
      assert Pow2(8) == 256;
    }
  }

  lemma {:induction false} LeToLe(x: nat, n: nat)
    requires x < Pow2(8 * n)
    ensures Le(ToLe(x, n)) == x
  {
    if n != 0 {
      Pow2Add(8, 8 * (n - 1));
      assert Pow2(8) == 256;
      assert x / 256 < Pow2(8 * (n - 1));
      LeToLe(x / 256, n - 1);
      assert ToLe(x, n)[1..] == ToLe(x / 256, n - 1);
    }
  }

  /** A slice of the bytes is a slice of the number. */
  lemma LeSlice(s: seq<u8>, i: nat, j: nat)
    requires i <= j <= |s|
    ensures Le(s[i..j]) == (Le(s) / Pow2(8 * i)) % Pow2(8 * (j - i))
  {
    var lo, mid, hi := s[..i], s[i..j], s[j..];
    assert s == lo + (mid + hi);
    LeConcat(lo, mid + hi);
    LeConcat(mid, hi);
    LeBelow(lo);
    LeBelow(mid);
    Remainder(Le(s), Pow2(8 * i), Le(mid + hi), Le(lo));
    Remainder(Le(mid + hi), Pow2(8 * (j - i)), Le(hi), Le(mid));
  }

  lemma WindowDrops(y: nat, q: nat, r: nat, m: nat, s: nat, k: nat)
    requires 0 < m && 0 < s && y == (m * (s * k)) * q + r
    ensures r / m % s == y / m % s
  {
    var u := r / m;
    assert r == m * u + r % m;
    assert (m * (s * k)) * q == m * (s * (k * q));
    assert y == m * (s * (k * q) + u) + r % m;
    Remainder(y, m, s * (k * q) + u, r % m);
    assert u == s * (u / s) + u % s;
    assert s * (k * q + u / s) == s * (k * q) + s * (u / s);
    Remainder(s * (k * q) + u, s, k * q + u / s, u % s);
  }

  /** Bit i of the number is bit i % 8 of byte i / 8. */
  lemma BitOfByte(s: seq<u8>, i: nat)
    requires i < 8 * |s|
    ensures ShiftRight(s[i / 8], i % 8) % 2 == Le(s) / Pow2(i) % 2
  {
    hide Pow2, Le, ShiftRight;
    var j, r := i / 8, i % 8;
    ShiftRightDivides(s[j], r);
    var lo, hi := s[..j], s[j..];
    assert s == lo + hi && hi[0] == s[j];
    LeConcat(lo, hi);
    LeBelow(lo);
    Remainder(Le(s), Pow2(8 * j), Le(hi), Le(lo));
    DivDiv(Le(s), Pow2(8 * j), Pow2(r));
    Pow2Add(8 * j, r);
    LeHead(hi);
    BitOfLow(s[j], Le(hi[1..]), r);
  }

  lemma BitOfLow(b: u8, rest: nat, r: nat)
    requires r < 8
    ensures b / Pow2(r) % 2 == (b + 256 * rest) / Pow2(r) % 2
  {
    hide Pow2;
    Pow2Add(r, 8 - r);
    Pow2Add(1, 7 - r);
    Pow2Byte();
    WindowDrops(b + 256 * rest, rest, b, Pow2(r), 2, Pow2(7 - r));
  }

  lemma Pow2Byte()
    ensures Pow2(1) == 2 && Pow2(8) == 256
  {
  }
}
