/** What the bytes and polynomials of the key encapsulation stand for, in terms of numbers. */
module MlKemFormats {
  import opened Words
  import opened PolynomialRing
  import opened PolynomialVectors
  import opened MlKemPoly
  import opened MlKemPacking
  import opened MlKemMessage
  import opened MlKem
  import opened MlKemAgreement

  // --- Multiplication ---

  /** The polynomial X. */
  function X(): Poly
  {
    seq(256, i => if i == 1 then 1 else 0)
  }

  lemma {:induction false} SumSingle(f: int -> int, n: nat, j: nat)
    requires forall i :: 0 <= i < n && i != j ==> f(i) == 0
    ensures Sum(f, 0, n) == if j < n then f(j) else 0
  {
    if n != 0 { SumSingle(f, n - 1, j); }
  }

  lemma ExtX(i: int)
    requires 0 <= i < 256
    ensures Ext(X(), i) == if i == 1 then 1 else 0
  {
    assert i / 256 == 0 && i % 256 == i;
  }

  lemma ExtBelow(a: Poly, k: nat)
    requires k < 256
    ensures Ext(a, k - 1) == if k == 0 then -a[255] else a[k - 1]
  {
    if k == 0 {
      assert (-1) / 256 == -1 && (-1) % 256 == 255;
    } else {
      assert (k - 1) / 256 == 0 && (k - 1) % 256 == k - 1;
    }
  }

  /** Multiplying by X moves every coefficient one place up, and the highest, negated, to the bottom. */
  lemma TimesX(a: Poly, k: nat)
    requires k < 256
    ensures Times(X(), a)[k] == if k == 0 then -a[255] else a[k - 1]
  {
    hide Ext, X, Sum;
    var x := X();
    var f := i => Ext(x, i) * Ext(a, k - i);
    forall i | 0 <= i < 256 ensures f(i) == if i == 1 then Ext(a, k - 1) else 0 {
      ExtX(i);
      if i != 1 { assert Ext(x, i) * Ext(a, k - i) == 0; }
    }
    SumSingle(f, 256, 1);
    ExtBelow(a, k);
    ProductAt(x, a, k, f);
  }

  lemma ProductAt(a: Poly, b: Poly, k: nat, f: int -> int)
    requires k < 256 && forall i :: f(i) == Ext(a, i) * Ext(b, k - i)
    ensures Times(a, b)[k] == Sum(f, 0, 256)
  {
    hide Ext;
    SumEq(i => Ext(a, i) * Ext(b, k - i), f, 0, 256);
  }

  // --- Sampling ---

  lemma LePair(b0: u8, b1: u8)
    ensures Le([b0, b1]) == b0 + 256 * b1
  {
    hide Le;
    LeHead([b0, b1]);
    assert [b0, b1][1..] == [b1];
    LeHead([b1]);
    assert [b1][1..] == [];
    LeEmpty();
  }

  /** Each coefficient of a matrix polynomial is a little-endian 16-bit word of the stream, modulo q. */
  lemma SampledWords(buf: Stream512, i: nat)
    requires i < 256
    ensures MatrixPoly(buf)[i] == Le(buf[2 * i..2 * i + 2]) % 3329
  {
    hide Le;
    assert buf[2 * i..2 * i + 2] == [buf[2 * i], buf[2 * i + 1]];
    LePair(buf[2 * i], buf[2 * i + 1]);
  }

  /** Each coefficient of a noise polynomial is -1, 0 or 1 and congruent to its byte modulo 3. */
  lemma SampledNoise(buf: Stream256, i: nat)
    requires i < 256
    ensures -1 <= Centred(NoisePoly(buf)[i]) <= 1 && (Centred(NoisePoly(buf)[i]) - buf[i]) % 3 == 0
  {
  }

  // --- Packing: the bytes of a polynomial are one number with a digit for each coefficient ---

  /** v[0] + v[1] 2^w + ... + v[n-1] 2^(w(n-1)). */
  function Number(v: seq<nat>, w: nat, n: nat): nat
    requires n <= |v|
  {
    if n == 0 then 0 else Number(v, w, n - 1) + Pow2(w * (n - 1)) * v[n - 1]
  }

  lemma Join(x: nat, m: nat, a: nat, n: nat, b: nat)
    ensures x + m * a + m * n * b == x + m * (a + n * b)
  {
    assert m * n * b == m * (n * b);
  }

  lemma TwoDigits(v: seq<nat>, w: nat, n: nat)
    requires n + 2 <= |v|
    ensures Number(v, w, n + 2) == Number(v, w, n) + Pow2(w * n) * (v[n] + Pow2(w) * v[n + 1])
  {
    hide Pow2;
    assert w * (n + 1) == w * n + w;
    Pow2Add(w * n, w);
    Join(Number(v, w, n), Pow2(w * n), v[n], Pow2(w), v[n + 1]);
  }

  lemma LeTriple(b0: u8, b1: u8, b2: u8)
    ensures Le([b0, b1, b2]) == b0 + 256 * b1 + 65536 * b2
  {
    hide Le;
    LeHead([b0, b1, b2]);
    assert [b0, b1, b2][1..] == [b1, b2];
    LePair(b1, b2);
  }

  /** Three bytes hold two 12-bit coefficients, the first one lower. */
  lemma Digits12(t0: nat, t1: nat)
    requires t0 < 4096 && t1 < 4096
    ensures Byte12(t0, t1, 0) + 256 * Byte12(t0, t1, 1) + 65536 * Byte12(t0, t1, 2) == t0 + 4096 * t1
  {
  }

  lemma {:induction false} Pack12Prefix(v: Coeffs, g: nat)
    requires Bounded(v, 4096) && g <= 128
    ensures Le(Pack12(v)[..3 * g]) == Number(v, 12, 2 * g)
  {
    hide Le, Number, Pow2, Byte12;
    if g == 0 {
      LeEmpty();
      NumberNone(v, 12);
    } else {
      var n := g - 1;
      var b, group := Pack12(v), [Byte12(v[2 * n], v[2 * n + 1], 0), Byte12(v[2 * n], v[2 * n + 1], 1),
                                  Byte12(v[2 * n], v[2 * n + 1], 2)];
      Pack12Prefix(v, n);
      Pack12Group(v, n);
      assert b[..3 * g] == b[..3 * n] + group;
      LeConcat(b[..3 * n], group);
      LeTriple(group[0], group[1], group[2]);
      Digits12(v[2 * n], v[2 * n + 1]);
      SmallPowers();
      TwoDigits(v, 12, 2 * n);
      assert 8 * (3 * n) == 12 * (2 * n);
    }
  }

  lemma NumberNone(v: seq<nat>, w: nat)
    ensures Number(v, w, 0) == 0
  {
  }

  lemma Pack12Group(v: Coeffs, n: nat)
    requires Bounded(v, 4096) && n < 128
    ensures Pack12(v)[3 * n..3 * n + 3] ==
      [Byte12(v[2 * n], v[2 * n + 1], 0), Byte12(v[2 * n], v[2 * n + 1], 1), Byte12(v[2 * n], v[2 * n + 1], 2)]
  {
    hide Byte12;
    assert (3 * n) / 3 == n && (3 * n + 1) / 3 == n && (3 * n + 2) / 3 == n;
  }

  /** At 12 bits per coefficient the bytes are the number whose base-4096 digits are the coefficients. */
  lemma Pack12IsNumber(v: Coeffs)
    requires Bounded(v, 4096)
    ensures Le(Pack12(v)) == Number(v, 12, 256)
  {
    hide Le, Number, Pack12;
    Pack12Prefix(v, 128);
    assert Pack12(v)[..384] == Pack12(v);
  }

  lemma LeFive(b0: u8, b1: u8, b2: u8, b3: u8, b4: u8)
    ensures Le([b0, b1, b2, b3, b4]) == b0 + 256 * b1 + 65536 * b2 + 0x100_0000 * b3 + 0x1_0000_0000 * b4
  {
    hide Le;
    LeHead([b0, b1, b2, b3, b4]);
    assert [b0, b1, b2, b3, b4][1..] == [b1, b2, b3, b4];
    LeHead([b1, b2, b3, b4]);
    assert [b1, b2, b3, b4][1..] == [b2, b3, b4];
    LeTriple(b2, b3, b4);
  }

  /** Five bytes hold four 10-bit coefficients, the first one lowest. */
  lemma Digits10(c0: nat, c1: nat, c2: nat, c3: nat)
    requires c0 < 1024 && c1 < 1024 && c2 < 1024 && c3 < 1024
    ensures Byte10(c0, c1, c2, c3, 0) + 256 * Byte10(c0, c1, c2, c3, 1) + 65536 * Byte10(c0, c1, c2, c3, 2)
      + 0x100_0000 * Byte10(c0, c1, c2, c3, 3) + 0x1_0000_0000 * Byte10(c0, c1, c2, c3, 4)
      == (c0 + 1024 * c1) + 0x10_0000 * (c2 + 1024 * c3)
  {
  }

  lemma FourDigits(v: seq<nat>, w: nat, n: nat)
    requires n + 4 <= |v|
    ensures Number(v, w, n + 4) == Number(v, w, n) +
      Pow2(w * n) * ((v[n] + Pow2(w) * v[n + 1]) + Pow2(w + w) * (v[n + 2] + Pow2(w) * v[n + 3]))
  {
    hide Pow2, Number;
    TwoDigits(v, w, n);
    TwoDigits(v, w, n + 2);
    assert w * (n + 2) == w * n + (w + w);
    Pow2Add(w * n, w + w);
    Join(Number(v, w, n), Pow2(w * n), v[n] + Pow2(w) * v[n + 1], Pow2(w + w), v[n + 2] + Pow2(w) * v[n + 3]);
  }

  function Five(v: Coeffs, n: nat): Bytes
    requires Bounded(v, 1024) && n < 64
  {
    [Group(v, n, 0), Group(v, n, 1), Group(v, n, 2), Group(v, n, 3), Group(v, n, 4)]
  }

  lemma FiveIs(v: Coeffs, n: nat)
    requires Bounded(v, 1024) && n < 64
    ensures var c: seq<nat> := v;
      Le(Five(v, n)) == (c[4 * n] + 1024 * c[4 * n + 1]) + 0x10_0000 * (c[4 * n + 2] + 1024 * c[4 * n + 3])
  {
    hide Le, Byte10;
    LeFive(Group(v, n, 0), Group(v, n, 1), Group(v, n, 2), Group(v, n, 3), Group(v, n, 4));
    Digits10(v[4 * n], v[4 * n + 1], v[4 * n + 2], v[4 * n + 3]);
  }

  lemma Pack10Group(v: Coeffs, n: nat)
    requires Bounded(v, 1024) && n < 64
    ensures Pack10(v)[5 * n..5 * n + 5] == Five(v, n)
  {
    hide Group;
    assert (5 * n) / 5 == n && (5 * n + 1) / 5 == n && (5 * n + 2) / 5 == n;
    assert (5 * n + 3) / 5 == n && (5 * n + 4) / 5 == n;
  }

  lemma Pow2Twenty()
    ensures Pow2(10 + 10) == 0x10_0000 && Pow2(10) == 1024
  {
    hide Pow2;
    SmallPowers();
    Pow2Add(10, 10);
  }

  lemma {:induction false} Pack10Prefix(v: Coeffs, g: nat)
    requires Bounded(v, 1024) && g <= 64
    ensures Le(Pack10(v)[..5 * g]) == Number(v, 10, 4 * g)
  {
    hide Le, Number, Pow2, Pack10, Five;
    if g == 0 {
      LeEmpty();
      NumberNone(v, 10);
    } else {
      var n := g - 1;
      var b := Pack10(v);
      Pack10Prefix(v, n);
      Pack10Group(v, n);
      FiveIs(v, n);
      assert b[..5 * g] == b[..5 * n] + Five(v, n);
      LeConcat(b[..5 * n], Five(v, n));
      Pow2Twenty();
      FourDigits(v, 10, 4 * n);
      assert 8 * (5 * n) == 10 * (4 * n);
    }
  }

  /** At 10 bits per coefficient the bytes are the number whose base-1024 digits are the coefficients. */
  lemma Pack10IsNumber(v: Coeffs)
    requires Bounded(v, 1024)
    ensures Le(Pack10(v)) == Number(v, 10, 256)
  {
    hide Le, Number, Pack10;
    Pack10Prefix(v, 64);
    assert Pack10(v)[..320] == Pack10(v);
  }

  lemma {:induction false} Pack4Prefix(v: Coeffs, g: nat)
    requires Bounded(v, 16) && g <= 128
    ensures Le(Pack4(v)[..g]) == Number(v, 4, 2 * g)
  {
    hide Le, Number, Pow2;
    if g == 0 {
      LeEmpty();
      NumberNone(v, 4);
    } else {
      var n := g - 1;
      var b := Pack4(v);
      Pack4Prefix(v, n);
      assert b[..g] == b[..n] + [b[n]];
      LeConcat(b[..n], [b[n]]);
      LeHead([b[n]]);
      assert [b[n]][1..] == [];
      LeEmpty();
      SmallPowers();
      TwoDigits(v, 4, 2 * n);
    }
  }

  /** At 4 bits per coefficient the bytes are the number whose base-16 digits are the coefficients. */
  lemma Pack4IsNumber(v: Coeffs)
    requires Bounded(v, 16)
    ensures Le(Pack4(v)) == Number(v, 4, 256)
  {
    hide Le, Number, Pack4;
    Pack4Prefix(v, 128);
    assert Pack4(v)[..128] == Pack4(v);
  }

  // --- Rounding ---

  /** Compression rounds c m / q to a nearest integer, and decompression d q / m. */
  lemma RoundsToNearest(c: u32, d: u32, q: u32, m: u32)
    requires 0 < q && 0 < m <= 1024 && d < m
    ensures -(q as int) <= 2 * (q * Scaled(c, q, m) - (c % q) * m) <= q
    ensures exists y: nat :: Unscaled(d, q, m) == y % q && -(m as int) <= 2 * (m * y - d * q) <= m
  {
    var x := c % q;
    DivFacts(x * m + q / 2, q);
    DivFacts(d * q + m / 2, m);
    var y: nat := (d * q + m / 2) / m;
    assert Unscaled(d, q, m) == y % q;
  }

  // --- Messages ---

  /** Bit k of a message is bit k of the number its bytes stand for. */
  lemma MessageBits(m: Message, k: nat)
    requires k < 256
    ensures MsgBit(m, k) == Le(m) / Pow2(k) % 2
  {
    hide Le, Pow2, ShiftRight;
    BitOfByte(m, k);
  }

  // --- Keys and ciphertexts ---

  /** A public key is the three polynomials of t, then rho. */
  lemma PublicKeyLayout(h: Hashes, seed: Seed, i: nat)
    requires i < 3
    ensures Le(PublicKey(h, seed)[384 * i..384 * i + 384]) == Number(PublicVec(h, seed)[i], 12, 256)
    ensures PublicKey(h, seed)[1152..] == h.rho(seed)
  {
    hide Le, Number, Pack12, PublicVec;
    var t := PublicVec(h, seed);
    PackVec12At(t, 3, i);
    Pack12IsNumber(t[i]);
    assert PublicKey(h, seed)[384 * i..384 * i + 384] == PackVec12(t, 3)[384 * i..384 * i + 384];
  }

  /** A private key is the three polynomials of s, the public key, the seed, and 32 zero bytes. */
  lemma PrivateKeyLayout(h: Hashes, seed: Seed, i: nat)
    requires i < 3
    ensures Le(PrivateKey(h, seed)[384 * i..384 * i + 384]) == Number(NoiseVec(h, seed, 0)[i], 12, 256)
    ensures PrivateKey(h, seed)[1152..2336] == PublicKey(h, seed)
    ensures PrivateKey(h, seed)[2336..2368] == seed && PrivateKey(h, seed)[2368..] == Zeros(32)
  {
    hide Le, Number, Pack12, NoiseVec, PublicKey;
    var s := NoiseVec(h, seed, 0);
    PackVec12At(s, 3, i);
    Pack12IsNumber(s[i]);
    assert PrivateKey(h, seed)[384 * i..384 * i + 384] == PackVec12(s, 3)[384 * i..384 * i + 384];
  }

  /** A ciphertext is the three compressed polynomials of u, then that of v. */
  lemma CiphertextLayout(h: Hashes, pk: PublicKeyBytes, rand: Seed, i: nat)
    requires i < 3
    ensures Le(Ciphertext(h, pk, rand)[320 * i..320 * i + 320]) ==
      Number(Compressed(MaskVec(h, pk[1152..], rand)[i], 3329, 1024), 10, 256)
    ensures Le(Ciphertext(h, pk, rand)[960..]) ==
      Number(Compressed(MaskedMessage(h, UnpackVec12(pk), rand), 3329, 16), 4, 256)
  {
    hide Le, Number, Pack10, Pack4, MaskVec, MaskedMessage, Compressed;
    var u, v := MaskVec(h, pk[1152..], rand), MaskedMessage(h, UnpackVec12(pk), rand);
    PackVec10At(u, 3, i);
    Pack10IsNumber(Compressed(u[i], 3329, 1024));
    Pack4IsNumber(Compressed(v, 3329, 16));
    var ct := Ciphertext(h, pk, rand);
    assert ct[320 * i..320 * i + 320] == PackVec10(u, 3)[320 * i..320 * i + 320];
    assert ct[960..] == Pack4(Compressed(v, 3329, 16));
  }

  function Three(a: Poly, b: Poly, c: Poly): Poly
  {
    Plus(Plus(a, b), c)
  }

  lemma DotThree(a: seq<Poly>, b: seq<Poly>)
    requires |a| == 3 && |b| == 3
    ensures Dot(a, b, 3) == Three(Times(a[0], b[0]), Times(a[1], b[1]), Times(a[2], b[2]))
  {
    hide Times;
    assert Plus(Zero(), Times(a[0], b[0])) == Times(a[0], b[0]);
    assert Dot(a, b, 1) == Plus(Dot(a, b, 0), Times(a[0], b[0]));
    assert Dot(a, b, 2) == Plus(Dot(a, b, 1), Times(a[1], b[1]));
  }

  /** t_i = A_i0 s_0 + A_i1 s_1 + A_i2 s_2 + e_i, from streams 3i to 3i+2 of rho and 0 to 2 and 100+i of the seed. */
  lemma KeyEquation(h: Hashes, seed: Seed, i: nat)
    requires i < 3
    ensures var rho := h.rho(seed);
      PublicVec(h, seed)[i] == Mod(Plus(Three(
        Times(MatrixPoly(h.matrix(rho, 3 * i)), NoisePoly(h.noise(seed, 0))),
        Times(MatrixPoly(h.matrix(rho, 3 * i + 1)), NoisePoly(h.noise(seed, 1))),
        Times(MatrixPoly(h.matrix(rho, 3 * i + 2)), NoisePoly(h.noise(seed, 2)))),
        NoisePoly(h.noise(seed, 100 + i))), 3329)
  {
    hide Times, Plus, Mod, MatrixPoly, NoisePoly;
    DotThree(Row(Matrix(h, h.rho(seed)), i, 3), NoiseVec(h, seed, 0));
  }

  /** u_i = A_0i r_0 + A_1i r_1 + A_2i r_2 + e1_i: the matrix is used transposed. */
  lemma MaskEquation(h: Hashes, rho: Seed, rand: Seed, i: nat)
    requires i < 3
    ensures MaskVec(h, rho, rand)[i] == Mod(Plus(Three(
      Times(MatrixPoly(h.matrix(rho, i)), NoisePoly(h.noise(rand, 200))),
      Times(MatrixPoly(h.matrix(rho, 3 + i)), NoisePoly(h.noise(rand, 201))),
      Times(MatrixPoly(h.matrix(rho, 6 + i)), NoisePoly(h.noise(rand, 202)))),
      NoisePoly(h.noise(rand, 300 + i))), 3329)
  {
    hide Times, Plus, Mod, MatrixPoly, NoisePoly;
    DotThree(Row(Transposed(Matrix(h, rho)), i, 3), NoiseVec(h, rand, 200));
  }

  /** v = t_0 r_0 + t_1 r_1 + t_2 r_2 + e2 + the message, each coefficient half of q for a set bit. */
  lemma MessageEquation(h: Hashes, t: seq<Coeffs>, rand: Seed, k: nat)
    requires |t| == 3 && k < 256
    ensures var sum := Plus(Three(
      Times(t[0], NoisePoly(h.noise(rand, 200))), Times(t[1], NoisePoly(h.noise(rand, 201))),
      Times(t[2], NoisePoly(h.noise(rand, 202)))), NoisePoly(h.noise(rand, 400)));
      MaskedMessage(h, t, rand)[k] ==
        (sum[k] + if Le(h.message(rand)) / Pow2(k) % 2 == 1 then 1665 else 0) % 3329
  {
    hide Times, NoisePoly, Le, Pow2, MsgBit, Dot;
    var d, e, m := Dot(t, NoiseVec(h, rand, 200), 3), Noise(h, rand, 400), MessagePoly(h.message(rand), 3329);
    DotThree(t, NoiseVec(h, rand, 200));
    MessageBits(h.message(rand), k);
    MaskedAt(h, t, rand, k, d, e, m);
  }

  lemma MaskedAt(h: Hashes, t: seq<Coeffs>, rand: Seed, k: nat, d: Poly, e: Coeffs, m: Coeffs)
    requires |t| == 3 && k < 256 && d == Dot(t, NoiseVec(h, rand, 200), 3) && e == Noise(h, rand, 400)
    requires m == MessagePoly(h.message(rand), 3329)
    ensures MaskedMessage(h, t, rand)[k] == (d[k] + e[k] + m[k]) % 3329
  {
    hide Dot, Noise, MessagePoly;
    ReducedLate(d[k], e[k], m[k]);
  }

  lemma ReducedLate(d: int, e: int, m: int)
    ensures ((d % 3329 + e) % 3329 + m) % 3329 == (d + e + m) % 3329
  {
  }

  /** A derivation of secrets that confuses no two inputs. */
  ghost predicate Separates(h: Hashes)
  {
    forall m: Message, ct: CiphertextBytes, m': Message, ct': CiphertextBytes ::
      h.secret(m, ct) == h.secret(m', ct') ==> m == m' && ct == ct'
  }

  /** Both secrets are bound to the whole ciphertext: no other one gives the same. */
  lemma SecretBinds(h: Hashes, pk: PublicKeyBytes, rand: Seed, sk: PrivateKeyBytes, ct: CiphertextBytes)
    requires Separates(h)
    ensures ReceiverSecret(h, sk, ct) == SenderSecret(h, pk, rand) <==>
      ct == Ciphertext(h, pk, rand) && Recovered(sk, ct) == h.message(rand)
  {
    hide Ciphertext, Recovered;
    var m, m' := Recovered(sk, ct), h.message(rand);
    assert ReceiverSecret(h, sk, ct) == h.secret(m, ct);
    assert SenderSecret(h, pk, rand) == h.secret(m', Ciphertext(h, pk, rand));
  }
}
