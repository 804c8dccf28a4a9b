/** Coefficient packing, lossy compression and the message encoding of the key encapsulation. */
module MlKemPacking {
  import opened Words
  import opened MlKemPoly

  /** Every entry is less than `m`. */
  predicate Bounded(v: Coeffs, m: nat)
  {
    forall k :: 0 <= k < 256 ==> v[k] < m
  }

  // --- 12 bits per coefficient: two coefficients in three bytes ---

  /** Byte `j` of the three that hold `t0` and `t1`. */
  function Byte12(t0: nat, t1: nat, j: nat): (r: u8)
    requires t0 < 4096 && t1 < 4096
  {
    if j == 0 then t0 % 256 else if j == 1 then t0 / 256 + t1 % 16 * 16 else t1 / 16
  }

  /** Coefficient `j` of the two that three bytes hold. */
  function Coef12(b0: nat, b1: nat, b2: nat, j: nat): (r: u32)
    requires b0 < 256 && b1 < 256 && b2 < 256
    ensures r < 4096
  {
    if j == 0 then b0 + b1 % 16 * 256 else b1 / 16 + b2 * 16
  }

  lemma Group12(t0: nat, t1: nat)
    requires t0 < 4096 && t1 < 4096
    ensures var b0, b1, b2 := Byte12(t0, t1, 0), Byte12(t0, t1, 1), Byte12(t0, t1, 2);
      Coef12(b0, b1, b2, 0) == t0 && Coef12(b0, b1, b2, 1) == t1
  {
  }

  lemma Bytes12(b0: nat, b1: nat, b2: nat)
    requires b0 < 256 && b1 < 256 && b2 < 256
    ensures var t0, t1 := Coef12(b0, b1, b2, 0), Coef12(b0, b1, b2, 1);
      Byte12(t0, t1, 0) == b0 && Byte12(t0, t1, 1) == b1 && Byte12(t0, t1, 2) == b2
  {
  }

  function Pack12(v: Coeffs): (b: Bytes)
    requires Bounded(v, 4096)
    ensures |b| == 384
  {
    seq(384, n requires 0 <= n < 384 => Byte12(v[2 * (n / 3)], v[2 * (n / 3) + 1], n % 3))
  }

  function Unpack12(b: Bytes): (v: Coeffs)
    requires |b| == 384
    ensures Bounded(v, 4096)
  {
    seq(256, n requires 0 <= n < 256 => Coef12(b[3 * (n / 2)], b[3 * (n / 2) + 1], b[3 * (n / 2) + 2], n % 2))
  }

  /** Packing to 12 bits loses nothing. */
  lemma Unpack12Pack12(v: Coeffs)
    requires Bounded(v, 4096)
    ensures Unpack12(Pack12(v)) == v
  {
    hide Byte12, Coef12;
    var b := Pack12(v);
    forall n | 0 <= n < 256 ensures Unpack12(b)[n] == v[n] {
      var i := n / 2;
      Group12(v[2 * i], v[2 * i + 1]);
      assert b[3 * i] == Byte12(v[2 * i], v[2 * i + 1], 0);
      assert b[3 * i + 1] == Byte12(v[2 * i], v[2 * i + 1], 1);
      assert b[3 * i + 2] == Byte12(v[2 * i], v[2 * i + 1], 2);
    }
  }

  /** Every 384-byte string is the packing of what it unpacks to. */
  lemma Pack12Unpack12(b: Bytes)
    requires |b| == 384
    ensures Pack12(Unpack12(b)) == b
  {
    hide Byte12, Coef12;
    var v := Unpack12(b);
    forall n | 0 <= n < 384 ensures Pack12(v)[n] == b[n] {
      var i := n / 3;
      Bytes12(b[3 * i], b[3 * i + 1], b[3 * i + 2]);
      assert v[2 * i] == Coef12(b[3 * i], b[3 * i + 1], b[3 * i + 2], 0);
      assert v[2 * i + 1] == Coef12(b[3 * i], b[3 * i + 1], b[3 * i + 2], 1);
    }
  }

  // --- 10 bits per coefficient: four coefficients in five bytes ---

  function Byte10(c0: nat, c1: nat, c2: nat, c3: nat, j: nat): (r: u8)
    requires c0 < 1024 && c1 < 1024 && c2 < 1024 && c3 < 1024
  {
    if j == 0 then c0 % 256
    else if j == 1 then c0 / 256 + c1 % 64 * 4
    else if j == 2 then c1 / 64 + c2 % 16 * 16
    else if j == 3 then c2 / 16 + c3 % 4 * 64
    else c3 / 4
  }

  function Coef10(b0: nat, b1: nat, b2: nat, b3: nat, b4: nat, j: nat): (r: u32)
    requires b0 < 256 && b1 < 256 && b2 < 256 && b3 < 256 && b4 < 256
    ensures r < 1024
  {
    if j == 0 then b0 + b1 % 4 * 256
    else if j == 1 then b1 / 4 + b2 % 16 * 64
    else if j == 2 then b2 / 16 + b3 % 64 * 16
    else b3 / 64 + b4 * 4
  }

  lemma Group10(c0: nat, c1: nat, c2: nat, c3: nat)
    requires c0 < 1024 && c1 < 1024 && c2 < 1024 && c3 < 1024
    ensures
      var b0, b1, b2 := Byte10(c0, c1, c2, c3, 0), Byte10(c0, c1, c2, c3, 1), Byte10(c0, c1, c2, c3, 2);
      var b3, b4 := Byte10(c0, c1, c2, c3, 3), Byte10(c0, c1, c2, c3, 4);
      && Coef10(b0, b1, b2, b3, b4, 0) == c0 && Coef10(b0, b1, b2, b3, b4, 1) == c1
      && Coef10(b0, b1, b2, b3, b4, 2) == c2 && Coef10(b0, b1, b2, b3, b4, 3) == c3
  {
    Seam(c0 / 256, c1 % 64, 4);
    Seam(c1 / 64, c2 % 16, 16);
    Seam(c2 / 16, c3 % 4, 64);
  }

  lemma Seam(low: nat, high: nat, m: nat)
    requires low < m
    ensures (low + high * m) % m == low && (low + high * m) / m == high
  {
    Remainder(low + high * m, m, high, low);
  }

  function Group(v: Coeffs, i: nat, j: nat): (r: u8)
    requires i < 64 && Bounded(v, 1024)
  {
    Byte10(v[4 * i], v[4 * i + 1], v[4 * i + 2], v[4 * i + 3], j)
  }

  function Pack10(v: Coeffs): (b: Bytes)
    requires Bounded(v, 1024)
    ensures |b| == 320
  {
    seq(320, n requires 0 <= n < 320 => Group(v, n / 5, n % 5))
  }

  function Unpack10(b: Bytes): (v: Coeffs)
    requires |b| == 320
    ensures Bounded(v, 1024)
  {
    seq(256, n requires 0 <= n < 256 =>
      var i := n / 4; Coef10(b[5 * i], b[5 * i + 1], b[5 * i + 2], b[5 * i + 3], b[5 * i + 4], n % 4))
  }

  lemma Unpack10Pack10(v: Coeffs)
    requires Bounded(v, 1024)
    ensures Unpack10(Pack10(v)) == v
  {
    hide Byte10, Coef10, Group, Pack10;
    var b := Pack10(v);
    forall n | 0 <= n < 256 ensures Unpack10(b)[n] == v[n] {
      var i := n / 4;
      Pack10At(v, i);
      Ungroup(v, i, n % 4);
    }
  }

  lemma Pack10At(v: Coeffs, i: nat)
    requires i < 64 && Bounded(v, 1024)
    ensures forall j :: 0 <= j < 5 ==> Pack10(v)[5 * i + j] == Group(v, i, j)
  {
    hide Group;
    forall j | 0 <= j < 5 ensures Pack10(v)[5 * i + j] == Group(v, i, j) {
      assert (5 * i + j) / 5 == i && (5 * i + j) % 5 == j;
    }
  }

  lemma Ungroup(v: Coeffs, i: nat, j: nat)
    requires i < 64 && j < 4 && Bounded(v, 1024)
    ensures Coef10(Group(v, i, 0), Group(v, i, 1), Group(v, i, 2), Group(v, i, 3), Group(v, i, 4), j) == v[4 * i + j]
  {
    hide Byte10, Coef10;
    Group10(v[4 * i], v[4 * i + 1], v[4 * i + 2], v[4 * i + 3]);
  }

  // --- 4 bits per coefficient ---

  function Pack4(v: Coeffs): (b: Bytes)
    requires Bounded(v, 16)
    ensures |b| == 128
  {
    seq(128, n requires 0 <= n < 128 => var b: nat := v[2 * n] + 16 * (v[2 * n + 1] as nat); b)
  }

  function Unpack4(b: Bytes): (v: Coeffs)
    requires |b| == 128
    ensures Bounded(v, 16)
  {
    seq(256, n requires 0 <= n < 256 => if n % 2 == 0 then b[n / 2] % 16 else b[n / 2] / 16)
  }

  lemma Unpack4Pack4(v: Coeffs)
    requires Bounded(v, 16)
    ensures Unpack4(Pack4(v)) == v
  {
    forall n | 0 <= n < 256 ensures Unpack4(Pack4(v))[n] == v[n] {
      assert Pack4(v)[n / 2] == v[2 * (n / 2)] + 16 * (v[2 * (n / 2) + 1] as nat);
    }
  }

  // --- Lossy compression ---

  /** c * m / q rounded to the nearest integer, for the residue c. */
  function Scaled(c: u32, q: u32, m: u32): (r: u32)
    requires 0 < q && 0 < m <= 1024
    ensures r <= m
  {
    ScaledFits(c % q, q, m);
    ((c % q) * m + q / 2) / q
  }

  lemma ScaledFits(c: nat, q: nat, m: nat)
    requires c < q
    ensures 0 <= (c * m + q / 2) / q <= m
  {
    AtLeast(m, c, q - 1);
    assert m * (q - 1) == m * q - m;
    if m == 0 { QuotientAtMost(q / 2, q, 0); } else { QuotientAtMost(c * m + q / 2, q, m); }
  }

  lemma QuotientAtMost(x: nat, q: nat, m: nat)
    requires 0 < q && x < q * m + q
    ensures 0 <= x / q <= m
  {
    assert x == q * (x / q) + x % q;
    if m < x / q { AtLeast(q, m + 1, x / q); }
    if x / q < 0 { AtLeast(q, x / q, -1); }
  }

  /** d * q / m rounded to the nearest integer, as a residue. */
  function Unscaled(d: u32, q: u32, m: u32): (r: u32)
    requires 0 < q && 0 < m && d < m <= 1024
    ensures r < q
  {
    (d * q + m / 2) / m % q
  }

  function Compressed(p: Coeffs, q: u32, m: u32): (v: Coeffs)
    requires 0 < q && 0 < m <= 1024
    ensures Bounded(v, m)
  {
    seq(256, i requires 0 <= i < 256 => Scaled(p[i], q, m) % m)
  }

  function Decompressed(v: Coeffs, q: u32, m: u32): (p: Coeffs)
    requires 0 < q && 0 < m <= 1024 && Bounded(v, m)
    ensures Reduced(p, q)
  {
    seq(256, i requires 0 <= i < 256 => Unscaled(v[i], q, m))
  }

  /** The representative of a residue modulo 3329 that is closest to zero. */
  function Centred(x: int): (r: int)
    ensures -1664 <= r <= 1664 && (r - x) % 3329 == 0
  {
    (x + 1664) % 3329 - 1664
  }

  lemma CentredSmall(x: int)
    ensures -1664 <= x <= 1664 ==> Centred(x) == x
    ensures -4992 < x < -1664 ==> Centred(x) == x + 3329
  {
  }

  lemma CentredResidue(r: int, c: int)
    ensures Centred(r - c % 3329) == Centred(r - c)
  {
  }

  lemma DivFacts(y: nat, m: nat)
    requires 0 < m
    ensures m * (y / m) <= y < m * (y / m) + m
  {
  }

  lemma ModFacts(y: nat, m: nat)
    requires 0 < m
    ensures (y < m ==> y % m == y) && (y == m ==> y % m == 0)
  {
  }

  /** Rounding to 10 bits and back, with every quotient and remainder given by its inequalities. */
  lemma Rounds10(x: nat, d: nat, e: nat, y: nat, r: nat)
    requires x < 3329 && 3329 * d <= x * 1024 + 1664 < 3329 * d + 3329
    requires (d < 1024 ==> e == d) && (d == 1024 ==> e == 0)
    requires 1024 * y <= e * 3329 + 512 < 1024 * y + 1024 && (y < 3329 ==> r == y)
    ensures -2 <= r - x <= 2 || r - x == -3328
  {
  }

  lemma Rounds4(x: nat, d: nat, e: nat, y: nat, r: nat)
    requires x < 3329 && 3329 * d <= x * 16 + 1664 < 3329 * d + 3329
    requires (d < 16 ==> e == d) && (d == 16 ==> e == 0)
    requires 16 * y <= e * 3329 + 8 < 16 * y + 16 && (y < 3329 ==> r == y)
    ensures -104 <= r - x <= 104 || -3329 < r - x <= -3225
  {
  }

  /** Ten bits keep a coefficient to within 2. */
  lemma RoundError10(c: u32)
    ensures -2 <= Centred(Unscaled(Scaled(c, 3329, 1024) % 1024, 3329, 1024) - c) <= 2
  {
    hide Centred;
    var r: nat := Unscaled(Scaled(c, 3329, 1024) % 1024, 3329, 1024);
    var x, d := c % 3329, Scaled(c, 3329, 1024);
    var e := d % 1024;
    var y := (e * 3329 + 512) / 1024;
    DivFacts(x * 1024 + 1664, 3329);
    ModFacts(d, 1024);
    DivFacts(e * 3329 + 512, 1024);
    ModFacts(y, 3329);
    Rounds10(x, d, e, y, r);
    CentredResidue(r, c);
    CentredSmall(r - c % 3329);
  }

  /** Four bits keep it to within 104. */
  lemma RoundError4(c: u32)
    ensures -104 <= Centred(Unscaled(Scaled(c, 3329, 16) % 16, 3329, 16) - c) <= 104
  {
    hide Centred;
    var r: nat := Unscaled(Scaled(c, 3329, 16) % 16, 3329, 16);
    var x, d := c % 3329, Scaled(c, 3329, 16);
    var e := d % 16;
    var y := (e * 3329 + 8) / 16;
    DivFacts(x * 16 + 1664, 3329);
    ModFacts(d, 16);
    DivFacts(e * 3329 + 8, 16);
    ModFacts(y, 3329);
    Rounds4(x, d, e, y, r);
    CentredResidue(r, c);
    CentredSmall(r - c % 3329);
  }
}
