/** Field elements and their 32-byte little-endian encodings. */
module Curve25519Codec {
  import opened Words
  import opened Curve25519Field

  type Bytes32 = s: seq<u8> | |s| == 32 witness ToLe(0, 32)

  lemma Pow2Values()
    ensures Pow2(13) == 0x2000 && Pow2(26) == 0x400_0000 && Pow2(39) == 0x80_0000_0000 && Pow2(51) == 0x8_0000_0000_0000
    ensures Pow2(48) == 0x1_0000_0000_0000 && Pow2(64) == 0x1_0000_0000_0000_0000
    ensures Pow2(96) == 0x1_0000_0000_0000_0000_0000_0000 &&
      Pow2(152) == 0x100_0000_0000_0000_0000_0000_0000_0000_0000_0000
    ensures Pow2(192) == 0x1_0000_0000_0000_0000_0000_0000_0000_0000_0000_0000_0000_0000
    ensures Pow2(256) == 0x1_0000_0000_0000_0000_0000_0000_0000_0000_0000_0000_0000_0000_0000_0000_0000_0000
    ensures Pow2(0) == 1 && Pow2(1) == 2 && Pow2(3) == 8 && Pow2(6) == 64 && Pow2(12) == 4096
    ensures Pow2(128) == 0x1_0000_0000_0000_0000_0000_0000_0000_0000
  {
    hide Pow2;
    Pow2Small();
    Pow2Add(13, 13); Pow2Add(26, 13); Pow2Add(39, 12); Pow2Add(39, 9);
    Pow2Add(51, 13); Pow2Add(48, 48); Pow2Add(64, 64); Pow2Add(128, 128);
    Pow2Add(96, 56); Pow2Add(48, 8); Pow2Add(96, 96);
  }

  /** The widths of a limb and of a word. */
  lemma Pow2Widths()
    ensures Pow2(51) == 0x8_0000_0000_0000 && Pow2(64) == 0x1_0000_0000_0000_0000
  {
    hide Pow2;
    Pow2Values();
  }

  lemma Pow2Small()
    ensures Pow2(0) == 1 && Pow2(1) == 2 && Pow2(3) == 8 && Pow2(6) == 64 && Pow2(8) == 0x100 && Pow2(9) == 0x200 &&
      Pow2(12) == 0x1000 && Pow2(13) == 0x2000
  {
  }

  /** Eight bytes as a 64-bit word. */
  function Load64(s: seq<u8>): (w: u64)
    requires |s| == 8
  {
    LeBelow(s);
    Pow2Values();
    Le(s)
  }

  /** Reads 255 bits; the top bit is ignored. */
  function FeFromBytes(s: Bytes32): (r: Fe)
  {
    var mask := 0x0007_ffff_ffff_ffff;
    Masks(Load64(s[0..8]), Load64(s[6..14]) / 8, Load64(s[12..20]) / 64, Load64(s[19..27]) / 2,
          Load64(s[24..32]) / 4096);
    [And(Load64(s[0..8]), mask), And(Load64(s[6..14]) / 8, mask), And(Load64(s[12..20]) / 64, mask),
     And(Load64(s[19..27]) / 2, mask), And(Load64(s[24..32]) / 4096, mask)]
  }

  lemma Masks(a: nat, b: nat, c: nat, d: nat, e: nat)
    ensures And(a, 0x0007_ffff_ffff_ffff) == a % 0x8_0000_0000_0000 &&
      And(b, 0x0007_ffff_ffff_ffff) == b % 0x8_0000_0000_0000
    ensures And(c, 0x0007_ffff_ffff_ffff) == c % 0x8_0000_0000_0000 &&
      And(d, 0x0007_ffff_ffff_ffff) == d % 0x8_0000_0000_0000
    ensures And(e, 0x0007_ffff_ffff_ffff) == e % 0x8_0000_0000_0000
  {
    hide And, Pow2;
    Masked(a); Masked(b); Masked(c); Masked(d); Masked(e);
  }

  /** The limbs read are exactly the low 255 bits of the encoded number. */
  lemma FeFromBytesValue(s: Bytes32)
    ensures Val(FeFromBytes(s)) ==
      Le(s) % 0x8000_0000_0000_0000_0000_0000_0000_0000_0000_0000_0000_0000_0000_0000_0000_0000
    ensures Below(FeFromBytes(s), 0x8_0000_0000_0000)
  {
    hide FeFromBytes, Pow2, Le, Load64, Digit;
    Pow2Values();
    ReadLimb(s, 0, 0, 1);
    ReadLimb(s, 6, 3, 8);
    ReadLimb(s, 12, 6, 64);
    ReadLimb(s, 19, 1, 2);
    ReadLimb(s, 24, 12, 4096);
    LimbsRead(s);
    Digits(Le(s));
  }

  lemma LimbsRead(s: Bytes32)
    ensures FeFromBytes(s) ==
      [Digit(Load64(s[0..8]), 1, 0x8_0000_0000_0000), Digit(Load64(s[6..14]), 8, 0x8_0000_0000_0000),
       Digit(Load64(s[12..20]), 64, 0x8_0000_0000_0000), Digit(Load64(s[19..27]), 2, 0x8_0000_0000_0000),
       Digit(Load64(s[24..32]), 4096, 0x8_0000_0000_0000)]
  {
    hide And, Load64;
    Masks(Load64(s[0..8]), Load64(s[6..14]) / 8, Load64(s[12..20]) / 64, Load64(s[19..27]) / 2,
          Load64(s[24..32]) / 4096);
  }

  /** The digit of `x` in units of `d`, modulo `m`. */
  function Digit(x: nat, d: nat, m: nat): (r: int)
    requires 0 < d && 0 < m
    ensures 0 <= r < m
  {
    x / d % m
  }

  /** A word read at byte `at`, less its low `drop` bits, holds the limb that starts at bit 8 at + drop. */
  lemma ReadLimb(s: Bytes32, at: nat, drop: nat, unit: nat)
    requires at <= 24 && drop <= 13 && unit == Pow2(drop)
    ensures Digit(Load64(s[at..at + 8]), unit, 0x8_0000_0000_0000) ==
      Digit(Le(s), Pow2(8 * at + drop), 0x8_0000_0000_0000)
  {
    hide Pow2, Le, Load64, Digit;
    LoadIs(s[at..at + 8]);
    SlicedLimb(s, at, drop);
    Pow2Widths();
  }

  lemma LoadIs(s: seq<u8>)
    requires |s| == 8
    ensures Load64(s) == Le(s)
  {
  }

  lemma Masked(w: nat)
    ensures Pow2(51) == 0x8_0000_0000_0000 && And(w, 0x0007_ffff_ffff_ffff) == w % Pow2(51)
  {
    hide And, Pow2;
    Pow2Widths();
    AndMask(w, 51);
  }

  lemma SlicedLimb(s: Bytes32, at: nat, drop: nat)
    requires at <= 24 && drop <= 13
    ensures Digit(Le(s[at..at + 8]), Pow2(drop), Pow2(51)) == Digit(Le(s), Pow2(8 * at + drop), Pow2(51))
  {
    hide Pow2, Le;
    LeSlice(s, at, at + 8);
    Limb(Le(s), 8 * at, drop);
  }

  /** Dropping b bits of a 64-bit window leaves a window b bits further up, as far as 51 bits are concerned. */
  lemma Window(y: nat, b: nat)
    requires b <= 13
    ensures y % Pow2(64) / Pow2(b) % Pow2(51) == y / Pow2(b) % Pow2(51)
  {
    hide Pow2;
    Pow2Add(b, 64 - b);
    Pow2Add(51, 13 - b);
    WindowOf(y, Pow2(64), Pow2(b), Pow2(51), Pow2(13 - b));
  }

  lemma WindowOf(y: nat, whole: nat, m: nat, s: nat, k: nat)
    requires 0 < m && 0 < s && 0 < whole && whole == m * (s * k)
    ensures y % whole / m % s == y / m % s
  {
    WindowDrops(y, y / whole, y % whole, m, s, k);
  }

  lemma Limb(x: nat, a: nat, b: nat)
    requires b <= 13
    ensures x / Pow2(a) % Pow2(64) / Pow2(b) % Pow2(51) == x / Pow2(a + b) % Pow2(51)
  {
    hide Pow2;
    Window(x / Pow2(a), b);
    DivDiv(x, Pow2(a), Pow2(b));
    Pow2Add(a, b);
  }

  /** A number below 2^255 is the sum of its 51-bit digits. */
  lemma Digits(x: nat)
    ensures Val5(Digit(x, Pow2(0), 0x8_0000_0000_0000), Digit(x, Pow2(51), 0x8_0000_0000_0000),
                 Digit(x, Pow2(102), 0x8_0000_0000_0000), Digit(x, Pow2(153), 0x8_0000_0000_0000),
                 Digit(x, Pow2(204), 0x8_0000_0000_0000))
         == x % 0x8000_0000_0000_0000_0000_0000_0000_0000_0000_0000_0000_0000_0000_0000_0000_0000
  {
    hide Pow2;
    Pow2Values();
    Pow2Add(51, 51); Pow2Add(102, 51); Pow2Add(153, 51);
    DivDiv(x, Pow2(51), Pow2(51));
    DivDiv(x, Pow2(102), Pow2(51));
    DivDiv(x, Pow2(153), Pow2(51));
    Telescope(x, x / Pow2(51), x / Pow2(102), x / Pow2(153), x / Pow2(204));
  }

  lemma Telescope(x: nat, q1: nat, q2: nat, q3: nat, q4: nat)
    requires q1 == x / 0x8_0000_0000_0000 && q2 == q1 / 0x8_0000_0000_0000 && q3 == q2 / 0x8_0000_0000_0000 &&
      q4 == q3 / 0x8_0000_0000_0000
    ensures Val5(x % 0x8_0000_0000_0000, q1 % 0x8_0000_0000_0000, q2 % 0x8_0000_0000_0000, q3 % 0x8_0000_0000_0000,
      q4 % 0x8_0000_0000_0000)
         == x % 0x8000_0000_0000_0000_0000_0000_0000_0000_0000_0000_0000_0000_0000_0000_0000_0000
  {
    var q5 := q4 / 0x8_0000_0000_0000;
    var v := Val5(x % 0x8_0000_0000_0000, q1 % 0x8_0000_0000_0000, q2 % 0x8_0000_0000_0000, q3 % 0x8_0000_0000_0000,
      q4 % 0x8_0000_0000_0000);
    assert x == 0x8000_0000_0000_0000_0000_0000_0000_0000_0000_0000_0000_0000_0000_0000_0000_0000 * q5 + v;
    Remainder(x, 0x8000_0000_0000_0000_0000_0000_0000_0000_0000_0000_0000_0000_0000_0000_0000_0000, q5, v);
  }

  // --- Encoding ---

  /** One pass of carries; `c` is what is carried out of the top limb. */
  method Sweep(l0: u64, l1: u64, l2: u64, l3: u64, l4: u64) returns (r: Fe, c: u64)
    requires l0 < 0x10_0000_0000_0000 && l1 < 0x10_0000_0000_0000 && l2 < 0x10_0000_0000_0000
    requires l3 < 0x10_0000_0000_0000 && l4 < 0x10_0000_0000_0000
    ensures Below(r, 0x8_0000_0000_0000) && c <= 2
    ensures Val(r) + c * 0x8000_0000_0000_0000_0000_0000_0000_0000_0000_0000_0000_0000_0000_0000_0000_0000 ==
      Val5(l0, l1, l2, l3, l4)
  {
    var h0, h1, h2, h3, h4 := l0, l1, l2, l3, l4;
    c := h0 / 0x8_0000_0000_0000;
    h0 := h0 % 0x8_0000_0000_0000;
    h1 := h1 + c;
    c := h1 / 0x8_0000_0000_0000;
    h1 := h1 % 0x8_0000_0000_0000;
    h2 := h2 + c;
    c := h2 / 0x8_0000_0000_0000;
    h2 := h2 % 0x8_0000_0000_0000;
    h3 := h3 + c;
    c := h3 / 0x8_0000_0000_0000;
    h3 := h3 % 0x8_0000_0000_0000;
    h4 := h4 + c;
    c := h4 / 0x8_0000_0000_0000;
    h4 := h4 % 0x8_0000_0000_0000;
    r := [h0, h1, h2, h3, h4];
  }

  /** A pass of carries, the last one folded back: the value falls below 2p, by a multiple of p. */
  method FeCarry(h: Fe) returns (r: Fe, ghost k: nat)
    requires Tight(h)
    ensures Val(h) == Val(r) + k * P
    ensures r[0] < 0x8_0000_0000_0000 && r[1] <= 0x8_0000_0000_0000
    ensures r[2] < 0x8_0000_0000_0000 && r[3] < 0x8_0000_0000_0000 && r[4] < 0x8_0000_0000_0000
  {
    var c: u64;
    r, c := Sweep(h[0], h[1], h[2], h[3], h[4]);
    k := c;
    var h0: u64 := r[0] + c * 19;
    c := h0 / 0x8_0000_0000_0000;
    h0 := h0 % 0x8_0000_0000_0000;
    r := [h0, r[1] + c, r[2], r[3], r[4]];
  }

  lemma BelowTwice(l0: nat, l1: nat, l2: nat, l3: nat, l4: nat)
    requires l0 < 0x8_0000_0000_0000 && l1 <= 0x8_0000_0000_0000
    requires l2 < 0x8_0000_0000_0000 && l3 < 0x8_0000_0000_0000 && l4 < 0x8_0000_0000_0000
    ensures 0 <= Val5(l0, l1, l2, l3, l4) < 2 * P
  {
  }

  /** Whether the value reaches p: the carry out of adding 19. */
  method Reaches(l0: u64, l1: u64, l2: u64, l3: u64, l4: u64) returns (q: u64)
    requires l0 < 0x8_0000_0000_0000 && l1 <= 0x8_0000_0000_0000
    requires l2 < 0x8_0000_0000_0000 && l3 < 0x8_0000_0000_0000 && l4 < 0x8_0000_0000_0000
    ensures q == if Val5(l0, l1, l2, l3, l4) < P then 0 else 1
  {
    q := (l0 + 19) / 0x8_0000_0000_0000;
    q := (l1 + q) / 0x8_0000_0000_0000;
    q := (l2 + q) / 0x8_0000_0000_0000;
    q := (l3 + q) / 0x8_0000_0000_0000;
    q := (l4 + q) / 0x8_0000_0000_0000;
  }

  /** Adds 19 q, carries, and drops what lies above 2^255: that takes p away q times. */
  method FeFinish(l0: u64, l1: u64, l2: u64, l3: u64, l4: u64, q: u64) returns (r: Fe)
    requires l0 < 0x8_0000_0000_0000 && l1 <= 0x8_0000_0000_0000
    requires l2 < 0x8_0000_0000_0000 && l3 < 0x8_0000_0000_0000 && l4 < 0x8_0000_0000_0000
    requires q <= 1 && 0 <= Val5(l0, l1, l2, l3, l4) - q * P < P
    ensures Below(r, 0x8_0000_0000_0000) && Val(r) == Val5(l0, l1, l2, l3, l4) - q * P
  {
    var c: u64;
    r, c := Sweep(l0 + 19 * q, l1, l2, l3, l4);
    DropsTop(Val(r), Val5(l0, l1, l2, l3, l4), c, q);
  }

  lemma DropsTop(r: nat, v: nat, c: nat, q: nat)
    requires r + c * 0x8000_0000_0000_0000_0000_0000_0000_0000_0000_0000_0000_0000_0000_0000_0000_0000 == v + 19 * q
    requires r < 0x8000_0000_0000_0000_0000_0000_0000_0000_0000_0000_0000_0000_0000_0000_0000_0000 && 0 <= v - q * P < P
    ensures r == v - q * P
  {
  }

  method FeReduce(h: Fe) returns (r: Fe)
    requires Tight(h)
    ensures Below(r, 0x8_0000_0000_0000) && Val(r) == Val(h) % P
  {
    hide Val5;
    ghost var k;
    var l;
    l, k := FeCarry(h);
    var q := Reaches(l[0], l[1], l[2], l[3], l[4]);
    BelowTwice(l[0], l[1], l[2], l[3], l[4]);
    r := FeFinish(l[0], l[1], l[2], l[3], l[4], q);
    Remainder(Val(h), P, k + q, Val(r));
  }

  /** x << k on a 64-bit word: bits shifted past the top are lost. */
  function Shl64(x: u64, k: nat): (r: u64)
    requires k <= 64
  {
    Pow2Values();
    x * Pow2(k) % 0x1_0000_0000_0000_0000
  }

  /** lo | (hi << k), where lo has at most k bits, adds the bits of hi that stay in the word. */
  lemma Join(lo: u64, hi: u64, k: nat)
    requires k <= 64 && lo < Pow2(k)
    ensures Or(lo, Shl64(hi, k)) == lo + Pow2(k) * (hi % Pow2(64 - k)) < 0x1_0000_0000_0000_0000
  {
    hide Or, Pow2;
    Pow2Add(k, 64 - k);
    Pow2Widths();
    ShiftedPart(lo, hi, Pow2(k), Pow2(64 - k));
    OrDisjoint(lo, hi % Pow2(64 - k), k);
  }

  lemma ShiftedPart(lo: nat, hi: nat, m: nat, n: nat)
    requires lo < m && 0 < n
    ensures 0 < m * n && hi * m % (m * n) == m * (hi % n) && lo + m * (hi % n) < m * n
  {
    var q, r := hi / n, hi % n;
    assert hi == n * q + r;
    assert hi * m == (m * n) * q + m * r by { assert (n * q) * m == (m * n) * q; }
    AtLeast(m, r, n - 1);
    assert m * (n - 1) == m * n - m;
    Remainder(hi * m, m * n, q, m * r);
  }

  method FeToBytes(h: Fe) returns (s: Bytes32)
    requires Tight(h)
    ensures Le(s) == Val(h) % P
  {
    hide Le, ToLe, Or, Pow2, Shl64, Val5;
    var r := FeReduce(h);
    var h0, h1, h2, h3, h4 := r[0], r[1], r[2], r[3], r[4];
    Pow2Values();
    MoreValues();
    Join(h0, h1, 51);
    Join(h1 / 0x2000, h2, 38);
    Join(h2 / 0x400_0000, h3, 25);
    Join(h3 / 0x80_0000_0000, h4, 12);
    var w0: u64 := Or(h0, Shl64(h1, 51));
    var w1: u64 := Or(h1 / 0x2000, Shl64(h2, 38));
    var w2: u64 := Or(h2 / 0x400_0000, Shl64(h3, 25));
    var w3: u64 := Or(h3 / 0x80_0000_0000, Shl64(h4, 12));
    s := ToLe(w0, 8) + ToLe(w1, 8) + ToLe(w2, 8) + ToLe(w3, 8);
    WordsValue(w0, w1, w2, w3);
    Packed(h0, h1, h2, h3, h4);
  }

  /** The four words hold the five limbs without a gap. */
  lemma Packed(h0: nat, h1: nat, h2: nat, h3: nat, h4: nat)
    requires h4 < 0x10_0000_0000_0000
    ensures (h0 + 0x8_0000_0000_0000 * (h1 % 0x2000))
      + 0x1_0000_0000_0000_0000 * (h1 / 0x2000 + 0x40_0000_0000 * (h2 % 0x400_0000))
      + 0x1_0000_0000_0000_0000_0000_0000_0000_0000 * (h2 / 0x400_0000 + 0x200_0000 * (h3 % 0x80_0000_0000))
      + 0x1_0000_0000_0000_0000_0000_0000_0000_0000_0000_0000_0000_0000 *
        (h3 / 0x80_0000_0000 + 0x1000 * (h4 % 0x10_0000_0000_0000))
      == Val5(h0, h1, h2, h3, h4)
  {
  }

  lemma MoreValues()
    ensures Pow2(25) == 0x200_0000 && Pow2(38) == 0x40_0000_0000 && Pow2(52) == 0x10_0000_0000_0000
  {
    hide Pow2;
    Pow2Small();
    Pow2Add(13, 12); Pow2Add(25, 13); Pow2Add(38, 13); Pow2Add(51, 1);
  }

  lemma WordsValue(w0: u64, w1: u64, w2: u64, w3: u64)
    ensures Le(ToLe(w0, 8) + ToLe(w1, 8) + ToLe(w2, 8) + ToLe(w3, 8)) ==
      w0 + 0x1_0000_0000_0000_0000 * w1 + 0x1_0000_0000_0000_0000_0000_0000_0000_0000 * w2
         + 0x1_0000_0000_0000_0000_0000_0000_0000_0000_0000_0000_0000_0000 * w3
  {
    hide Le, ToLe, Pow2;
    Pow2Values();
    var a, b, c, d := ToLe(w0, 8), ToLe(w1, 8), ToLe(w2, 8), ToLe(w3, 8);
    LeToLe(w0, 8); LeToLe(w1, 8); LeToLe(w2, 8); LeToLe(w3, 8);
    LeConcat(a, b);
    LeConcat(a + b, c);
    LeConcat(a + b + c, d);
  }
}
