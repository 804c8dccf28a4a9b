/** When decapsulation recovers the encapsulated message. */
module MlKemAgreement {
  import opened Words
  import opened PolynomialRing
  import opened PolynomialVectors
  import opened MlKemPoly
  import opened MlKemPacking
  import opened MlKemMessage
  import opened MlKem

  // --- What survives packing ---

  lemma {:induction false} PackVec12At(v: seq<Coeffs>, n: nat, i: nat)
    requires i < n <= |v| && forall j :: 0 <= j < |v| ==> Reduced(v[j], 3329)
    ensures PackVec12(v, n)[384 * i..384 * i + 384] == Pack12(v[i])
  {
    hide Pack12;
    if i < n - 1 {
      PackVec12At(v, n - 1, i);
      Inside(PackVec12(v, n - 1), Pack12(v[n - 1]), 384 * i, 384 * i + 384);
    }
  }

  lemma Inside(a: Bytes, b: Bytes, lo: nat, hi: nat)
    requires lo <= hi <= |a|
    ensures (a + b)[lo..hi] == a[lo..hi]
  {
  }

  /** Packed vectors of residues are read back exactly. */
  lemma UnpackVec12PackVec12(v: seq<Coeffs>, rest: Bytes)
    requires |v| == 3 && forall i :: 0 <= i < 3 ==> Reduced(v[i], 3329)
    ensures UnpackVec12(PackVec12(v, 3) + rest) == v
  {
    hide PackVec12, Pack12, Unpack12, ModPoly;
    var b := PackVec12(v, 3) + rest;
    forall i | 0 <= i < 3 ensures UnpackVec12(b)[i] == v[i] {
      Inside(PackVec12(v, 3), rest, 384 * i, 384 * i + 384);
      PackVec12At(v, 3, i);
      Unpack12Pack12(v[i]);
      AlreadyReduced(v[i]);
    }
  }

  lemma AlreadyReduced(p: Coeffs)
    requires Reduced(p, 3329)
    ensures ModPoly(p) == p
  {
    assert forall k :: 0 <= k < 256 ==> ModPoly(p)[k] == p[k];
  }

  function Rounded(p: Coeffs, m: u32): (r: Coeffs)
    requires 0 < m <= 1024
    ensures Reduced(r, 3329)
  {
    Decompressed(Compressed(p, 3329, m), 3329, m)
  }

  function RoundedVec(u: seq<Coeffs>): (r: seq<Coeffs>)
    requires |u| == 3
    ensures |r| == 3
  {
    [Rounded(u[0], 1024), Rounded(u[1], 1024), Rounded(u[2], 1024)]
  }

  lemma {:induction false} PackVec10At(u: seq<Coeffs>, n: nat, i: nat)
    requires i < n <= |u|
    ensures PackVec10(u, n)[320 * i..320 * i + 320] == Pack10(Compressed(u[i], 3329, 1024))
  {
    hide Pack10, Compressed;
    if i < n - 1 {
      PackVec10At(u, n - 1, i);
      Inside(PackVec10(u, n - 1), Pack10(Compressed(u[n - 1], 3329, 1024)), 320 * i, 320 * i + 320);
    }
  }

  /** The receiver sees the sender's polynomials rounded to 10 and 4 bits. */
  lemma Received(u: seq<Coeffs>, v: Coeffs)
    requires |u| == 3
    ensures var ct := PackVec10(u, 3) + Pack4(Compressed(v, 3329, 16));
      ReceivedVec(ct) == RoundedVec(u) && ReceivedMask(ct) == Rounded(v, 16)
  {
    hide PackVec10, Pack10, Pack4, Unpack10, Unpack4, Compressed, Decompressed;
    var a, b := PackVec10(u, 3), Pack4(Compressed(v, 3329, 16));
    forall i | 0 <= i < 3 ensures ReceivedVec(a + b)[i] == RoundedVec(u)[i] {
      Inside(a, b, 320 * i, 320 * i + 320);
      PackVec10At(u, 3, i);
      Unpack10Pack10(Compressed(u[i], 3329, 1024));
    }
    assert (a + b)[960..] == b;
    Unpack4Pack4(Compressed(v, 3329, 16));
  }

  // --- The noise of one exchange ---

  /** Everything one exchange draws or derives. */
  datatype Exchange = Exchange(s: seq<Coeffs>, e: seq<Coeffs>, r: seq<Coeffs>, e1: seq<Coeffs>, e2: Coeffs,
                               u: seq<Coeffs>, v: Coeffs)

  function Run(h: Hashes, seed: Seed, rand: Seed): (x: Exchange)
    ensures |x.s| == 3 && |x.e| == 3 && |x.r| == 3 && |x.e1| == 3 && |x.u| == 3
  {
    Exchange(NoiseVec(h, seed, 0), NoiseVec(h, seed, 100), NoiseVec(h, rand, 200), NoiseVec(h, rand, 300),
             Noise(h, rand, 400), MaskVec(h, h.rho(seed), rand), MaskedMessage(h, PublicVec(h, seed), rand))
  }

  function RoundingVec(u: seq<Coeffs>): (d: seq<Poly>)
    requires |u| == 3
    ensures |d| == 3
  {
    var r := RoundedVec(u);
    [Minus(r[0], u[0]), Minus(r[1], u[1]), Minus(r[2], u[2])]
  }

  /** e . r + e2 - s . (e1 + rounding of u) + rounding of v. */
  function NoiseOf(x: Exchange): Poly
    requires |x.s| == 3 && |x.e| == 3 && |x.r| == 3 && |x.e1| == 3 && |x.u| == 3
  {
    var sent := Plus(Dot(x.e, x.r, 3), x.e2);
    var received := Dot(x.s, VecPlus(x.e1, RoundingVec(x.u)), 3);
    Plus(Minus(sent, received), Minus(Rounded(x.v, 16), x.v))
  }

  // --- The exchange modulo q ---

  lemma ModPolyEquiv(p: Poly)
    ensures Equiv(ModPoly(p), p, 3329)
  {
    ModEquiv(p, 3329);
  }

  /** The public vector is A s + e up to reduction. */
  lemma PublicVecEquiv(h: Hashes, seed: Seed)
    ensures VecEquiv(PublicVec(h, seed),
                     VecPlus(Apply(Matrix(h, h.rho(seed)), NoiseVec(h, seed, 0), 3), NoiseVec(h, seed, 100)), 3329)
  {
    hide Equiv, Plus, ModPoly, Apply, Matrix, NoiseVec;
    var image, e := Apply(Matrix(h, h.rho(seed)), NoiseVec(h, seed, 0), 3), NoiseVec(h, seed, 100);
    forall i | 0 <= i < 3 ensures Equiv(PublicVec(h, seed)[i], VecPlus(image, e)[i], 3329) {
      ModPolyEquiv(Plus(image[i], e[i]));
    }
  }

  lemma TermsOfDot(t: seq<Poly>, a: seq<Poly>, e: seq<Poly>, r: seq<Poly>)
    requires |t| == |a| == |e| == |r| == 3 && VecEquiv(t, VecPlus(a, e), 3329)
    ensures Equiv(Dot(t, r, 3), Plus(Dot(a, r, 3), Dot(e, r, 3)), 3329)
  {
    hide Equiv, Plus, Dot, VecPlus;
    DotCommutes(t, r, 3);
    DotCommutes(a, r, 3);
    DotCommutes(e, r, 3);
    DotEquiv(r, t, VecPlus(a, e), 3, 3329);
    DotPlus(r, a, e, 3);
  }

  /** What the sender masks the message with. */
  lemma SentMask(h: Hashes, t: seq<Coeffs>, rand: Seed, sum: Poly)
    requires |t| == 3 && Equiv(Dot(t, NoiseVec(h, rand, 200), 3), sum, 3329)
    ensures Equiv(MaskedMessage(h, t, rand),
                  Plus(Plus(sum, Noise(h, rand, 400)), MessagePoly(h.message(rand), 3329)), 3329)
  {
    hide Equiv, Plus, Dot, ModPoly, NoiseVec, Noise, MessagePoly;
    var e2, m := Noise(h, rand, 400), MessagePoly(h.message(rand), 3329);
    var d := Dot(t, NoiseVec(h, rand, 200), 3);
    Reduces(d, sum);
    AddsTo(ModPoly(d), sum, e2);
    Reduces(Plus(ModPoly(d), e2), Plus(sum, e2));
    AddsTo(ModPoly(Plus(ModPoly(d), e2)), Plus(sum, e2), m);
    Reduces(Plus(ModPoly(Plus(ModPoly(d), e2)), m), Plus(Plus(sum, e2), m));
  }

  lemma Reduces(p: Poly, sum: Poly)
    requires Equiv(p, sum, 3329)
    ensures Equiv(ModPoly(p), sum, 3329)
  {
    ModPolyEquiv(p);
  }

  lemma AddsTo(p: Poly, sum: Poly, e: Poly)
    requires Equiv(p, sum, 3329)
    ensures Equiv(Plus(p, e), Plus(sum, e), 3329)
  {
    PlusEquiv(p, sum, e, e, 3329);
  }

  /** The rounded vector the receiver sees is A^T r + (e1 + rounding) up to reduction. */
  lemma RoundedVecEquiv(h: Hashes, rho: Seed, rand: Seed)
    ensures var u, e1 := MaskVec(h, rho, rand), NoiseVec(h, rand, 300);
      VecEquiv(RoundedVec(u),
               VecPlus(Apply(Transposed(Matrix(h, rho)), NoiseVec(h, rand, 200), 3), VecPlus(e1, RoundingVec(u))), 3329)
  {
    hide Rounded, Apply, Matrix, NoiseVec, ModPoly, Equiv, Plus, Minus;
    var u, e1 := MaskVec(h, rho, rand), NoiseVec(h, rand, 300);
    var image := Apply(Transposed(Matrix(h, rho)), NoiseVec(h, rand, 200), 3);
    var d := RoundingVec(u);
    forall i | 0 <= i < 3
      ensures Equiv(RoundedVec(u)[i], VecPlus(image, VecPlus(e1, d))[i], 3329)
    {
      ModPolyEquiv(Plus(image[i], e1[i]));
      Shift(RoundedVec(u)[i], u[i], image[i], e1[i]);
    }
  }

  lemma Shift(r: Poly, u: Poly, image: Poly, e: Poly)
    requires Equiv(u, Plus(image, e), 3329)
    ensures Equiv(r, Plus(image, Plus(e, Minus(r, u))), 3329)
  {
    forall k | 0 <= k < 256 ensures r[k] % 3329 == (image[k] + (e[k] + (r[k] - u[k]))) % 3329 {
      assert u[k] % 3329 == (image[k] + e[k]) % 3329;
    }
  }

  /** The coefficients the receiver decodes are the message's plus the noise. */
  lemma Unmasks(h: Hashes, seed: Seed, rand: Seed)
    ensures var ct := Ciphertext(h, PublicKey(h, seed), rand);
      Unmasked(PrivateKey(h, seed), ct)
        == ModPoly(Plus(MessagePoly(h.message(rand), 3329), NoiseOf(Run(h, seed, rand))))
  {
    hide PublicVec, PackVec12, UnpackVec12, MaskVec, MaskedMessage, PackVec10, Pack4, Compressed, ReceivedVec,
         ReceivedMask, RoundedVec, Rounded, NoiseVec, Noise, MessagePoly, NoiseOf, ModPoly, Plus, Minus, Dot;
    var pk, sk, x := PublicKey(h, seed), PrivateKey(h, seed), Run(h, seed, rand);
    KeysRead(h, seed);
    Received(x.u, x.v);
    Combines(h, seed, rand);
  }

  lemma KeysRead(h: Hashes, seed: Seed)
    ensures UnpackVec12(PublicKey(h, seed)) == PublicVec(h, seed) && PublicKey(h, seed)[1152..] == h.rho(seed)
    ensures UnpackVec12(PrivateKey(h, seed)) == NoiseVec(h, seed, 0)
  {
    hide PublicVec, PackVec12, UnpackVec12, NoiseVec;
    UnpackVec12PackVec12(PublicVec(h, seed), h.rho(seed));
    var rest := PublicKey(h, seed) + seed + seq(32, _ => 0);
    UnpackVec12PackVec12(NoiseVec(h, seed, 0), rest);
    assert PrivateKey(h, seed) == PackVec12(NoiseVec(h, seed, 0), 3) + rest;
  }

  lemma Combines(h: Hashes, seed: Seed, rand: Seed)
    ensures var x := Run(h, seed, rand);
      ModPoly(Minus(Rounded(x.v, 16), ModPoly(Dot(x.s, RoundedVec(x.u), 3))))
        == ModPoly(Plus(MessagePoly(h.message(rand), 3329), NoiseOf(x)))
  {
    hide PublicVec, MaskVec, MaskedMessage, RoundedVec, Rounded, RoundingVec, NoiseVec, Noise, MessagePoly, ModPoly,
         Plus, Minus, Dot, VecPlus, Apply, Matrix, Transposed, Equiv;
    var x, rho := Run(h, seed, rand), h.rho(seed);
    var a := Matrix(h, rho);
    var image, atr := Apply(a, x.s, 3), Apply(Transposed(a), x.r, 3);
    var er, sd := Dot(x.e, x.r, 3), Dot(x.s, VecPlus(x.e1, RoundingVec(x.u)), 3);
    var m := MessagePoly(h.message(rand), 3329);
    var shared := Dot(image, x.r, 3);
    PublicVecEquiv(h, seed);
    TermsOfDot(PublicVec(h, seed), image, x.e, x.r);
    SentMask(h, PublicVec(h, seed), rand, Plus(shared, er));
    RoundedVecEquiv(h, rho, rand);
    DotEquiv(x.s, RoundedVec(x.u), VecPlus(atr, VecPlus(x.e1, RoundingVec(x.u))), 3, 3329);
    DotPlus(x.s, atr, VecPlus(x.e1, RoundingVec(x.u)), 3);
    Adjoint(a, x.s, x.r);
    Cancels(Rounded(x.v, 16), x.v, Dot(x.s, RoundedVec(x.u), 3), shared, er, x.e2, m, sd);
  }

  /** The part both sides share drops out. */
  lemma Cancels(r: Poly, v: Poly, d: Poly, shared: Poly, er: Poly, e2: Poly, m: Poly, sd: Poly)
    requires Equiv(v, Plus(Plus(Plus(shared, er), e2), m), 3329)
    requires Equiv(d, Plus(shared, sd), 3329)
    ensures ModPoly(Minus(r, ModPoly(d))) == ModPoly(Plus(m, Plus(Minus(Plus(er, e2), sd), Minus(r, v))))
  {
    var x, y := Minus(r, ModPoly(d)), Plus(m, Plus(Minus(Plus(er, e2), sd), Minus(r, v)));
    forall k | 0 <= k < 256 ensures x[k] % 3329 == y[k] % 3329 {
      assert v[k] % 3329 == (shared[k] + er[k] + e2[k] + m[k]) % 3329;
      assert d[k] % 3329 == (shared[k] + sd[k]) % 3329;
      CancelsAt(r[k], v[k], d[k], shared[k], er[k], e2[k], m[k], sd[k]);
    }
    EquivMod(x, y, 3329);
  }

  lemma CancelsAt(r: int, v: int, d: int, shared: int, er: int, e2: int, m: int, sd: int)
    requires v % 3329 == (shared + er + e2 + m) % 3329 && d % 3329 == (shared + sd) % 3329
    ensures (r - d % 3329) % 3329 == (m + (er + e2 - sd + (r - v))) % 3329
  {
  }

  // --- Agreement ---

  /** How much noise a coefficient carrying `bit` stands. */
  predicate Tolerated(bit: nat, n: int)
  {
    if bit == 1 then -831 <= Centred(n) <= 831 else -832 <= Centred(n) <= 833
  }

  /** A coefficient decodes to the bit it carries exactly when its noise is tolerated. */
  lemma DecodesIff(bit: nat, n: int, c: u32)
    requires bit <= 1 && c == ((if bit == 1 then 1665 else 0) + n) % 3329
    ensures DecodeBit(c, 3329) == bit <==> Tolerated(bit, n)
  {
    hide DecodeBit;
    var y := Centred(n);
    assert c == ((if bit == 1 then 1665 else 0) + y) % 3329;
    DecodesAt(bit, y, c);
  }

  lemma DecodesAt(bit: nat, y: int, c: u32)
    requires bit <= 1 && -1664 <= y <= 1664 && c == ((if bit == 1 then 1665 else 0) + y) % 3329
    ensures DecodeBit(c, 3329) == bit <==> if bit == 1 then -831 <= y <= 831 else -832 <= y <= 833
  {
    if bit == 1 {
      assert c == if y <= 1663 then 1665 + y else 0;
    } else {
      assert c == if 0 <= y then y else 3329 + y;
    }
  }

  lemma BitRecovered(h: Hashes, seed: Seed, rand: Seed, k: nat)
    requires k < 256
    ensures var m := h.message(rand);
      MsgBit(Recovered(PrivateKey(h, seed), Ciphertext(h, PublicKey(h, seed), rand)), k) == MsgBit(m, k) <==>
      Tolerated(MsgBit(m, k), NoiseOf(Run(h, seed, rand))[k])
  {
    hide PublicKey, PrivateKey, Ciphertext, Unmasked, DecodedMessage, DecodeBit, MsgBit, NoiseOf, Tolerated;
    var m, noise := h.message(rand), NoiseOf(Run(h, seed, rand));
    var p := Unmasked(PrivateKey(h, seed), Ciphertext(h, PublicKey(h, seed), rand));
    Unmasks(h, seed, rand);
    DecodedBit(p, 3329, k);
    IsBit(m, k);
    DecodesIff(MsgBit(m, k), noise[k], p[k]);
  }

  lemma IsBit(m: Message, k: nat)
    requires k < 256
    ensures MsgBit(m, k) <= 1
  {
  }

  /** The receiver recovers the sender's message if and only if every coefficient's noise is tolerated. */
  lemma RecoversIff(h: Hashes, seed: Seed, rand: Seed)
    ensures var m, noise := h.message(rand), NoiseOf(Run(h, seed, rand));
      Recovered(PrivateKey(h, seed), Ciphertext(h, PublicKey(h, seed), rand)) == m <==>
      forall k :: 0 <= k < 256 ==> Tolerated(MsgBit(m, k), noise[k])
  {
    hide PublicKey, PrivateKey, Ciphertext, Recovered, MsgBit, NoiseOf, Tolerated;
    var m, noise := h.message(rand), NoiseOf(Run(h, seed, rand));
    var got := Recovered(PrivateKey(h, seed), Ciphertext(h, PublicKey(h, seed), rand));
    forall k | 0 <= k < 256 ensures MsgBit(got, k) == MsgBit(m, k) <==> Tolerated(MsgBit(m, k), noise[k]) {
      BitRecovered(h, seed, rand, k);
    }
    if forall k :: 0 <= k < 256 ==> Tolerated(MsgBit(m, k), noise[k]) { SameBits(got, m); }
  }

  /** Rounding contributes at most 2 to a coefficient of u and 104 to one of v. */
  lemma RoundingIsSmall(u: seq<Coeffs>, v: Coeffs, i: nat, k: nat)
    requires |u| == 3 && i < 3 && k < 256
    ensures -2 <= Centred(RoundingVec(u)[i][k]) <= 2 && -104 <= Centred(Minus(Rounded(v, 16), v)[k]) <= 104
  {
    hide Centred, Scaled, Unscaled;
    RoundError10(u[i][k]);
    RoundError4(v[k]);
  }

  /** Every coefficient's noise is tolerated. */
  predicate Quiet(h: Hashes, seed: Seed, rand: Seed)
  {
    forall k :: 0 <= k < 256 ==> Tolerated(MsgBit(h.message(rand), k), NoiseOf(Run(h, seed, rand))[k])
  }

  /** Both sides then derive the same secret, and only then if the derivation separates messages. */
  lemma SecretsAgree(h: Hashes, seed: Seed, rand: Seed)
    ensures var pk, sk := PublicKey(h, seed), PrivateKey(h, seed);
      var ct := Ciphertext(h, pk, rand);
      && (Quiet(h, seed, rand) ==> ReceiverSecret(h, sk, ct) == SenderSecret(h, pk, rand))
      && ((forall m, n :: h.secret(m, ct) == h.secret(n, ct) ==> m == n) ==>
            (ReceiverSecret(h, sk, ct) == SenderSecret(h, pk, rand) <==> Quiet(h, seed, rand)))
  {
    hide PublicKey, PrivateKey, Ciphertext, Recovered, MsgBit, NoiseOf, Tolerated;
    RecoversIff(h, seed, rand);
  }
}
