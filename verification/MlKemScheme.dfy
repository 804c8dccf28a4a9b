/** Key generation, encapsulation and decapsulation as they run over byte buffers. */
module MlKemScheme {
  import opened Words
  import opened PolynomialRing
  import opened PolynomialVectors
  import opened MlKemPoly
  import opened MlKemPacking
  import opened MlKemCodec
  import opened MlKemMessage
  import opened MlKem

  method SamplePoly(h: Hashes, rho: Seed, index: nat) returns (p: Coeffs)
    ensures p == MatrixPoly(h.matrix(rho, index))
  {
    var buf := h.matrix(rho, index);
    var coeffs := new u32[256](_ => 0);
    for i := 0 to 256
      invariant forall n :: 0 <= n < i ==> coeffs[n] == MatrixPoly(buf)[n]
    {
      var raw: u32 := buf[2 * i] + 256 * (buf[2 * i + 1] as nat);
      coeffs[i] := raw % 3329;
    }
    p := coeffs[..];
  }

  method SampleNoise(h: Hashes, seed: Seed, index: nat) returns (p: Coeffs)
    ensures p == Noise(h, seed, index)
  {
    var buf := h.noise(seed, index);
    var coeffs := new u32[256](_ => 0);
    for i := 0 to 256
      invariant forall n :: 0 <= n < i ==> coeffs[n] == NoisePoly(buf)[n]
    {
      var b := buf[i] % 3;
      coeffs[i] := if b == 0 then 0 else if b == 1 then 1 else 3328;
    }
    p := coeffs[..];
  }

  method SampleNoiseVec(h: Hashes, seed: Seed, at: nat) returns (v: seq<Coeffs>)
    ensures v == NoiseVec(h, seed, at)
  {
    hide Noise;
    v := [];
    for i := 0 to 3
      invariant |v| == i && forall j :: 0 <= j < i ==> v[j] == Noise(h, seed, at + j)
    {
      var p := SampleNoise(h, seed, at + i);
      v := v + [p];
    }
  }

  /** The accumulation loop shared by all matrix and inner products. */
  method InnerProduct(a: seq<Coeffs>, b: seq<Coeffs>) returns (acc: Coeffs)
    requires |a| == 3 && |b| == 3
    ensures acc == ModPoly(Dot(a, b, 3)) && Reduced(acc, 3329)
  {
    hide Times, Plus, Mod;
    acc := seq(256, _ => 0);
    Nothing(a, b);
    for i := 0 to 3
      invariant acc == ModPoly(Dot(a, b, i)) && Reduced(acc, 3329)
    {
      var prod := MulNegacyclic(a[i], b[i], 3329);
      acc := Add(acc, prod, 3329);
      Accumulates(a, b, i);
    }
  }

  lemma Nothing(a: seq<Poly>, b: seq<Poly>)
    ensures ModPoly(Dot(a, b, 0)) == seq(256, _ => 0)
  {
  }

  lemma Accumulates(a: seq<Poly>, b: seq<Poly>, i: nat)
    requires i < |a| && i < |b|
    ensures Mod(Plus(ModPoly(Dot(a, b, i)), Mod(Times(a[i], b[i]), 3329)), 3329) == ModPoly(Dot(a, b, i + 1))
  {
    hide Times, Plus, Mod, Equiv;
    var d, t := Dot(a, b, i), Times(a[i], b[i]);
    ModEquiv(d, 3329);
    ModEquiv(t, 3329);
    PlusEquiv(Mod(d, 3329), d, Mod(t, 3329), t, 3329);
    EquivMod(Plus(Mod(d, 3329), Mod(t, 3329)), Plus(d, t), 3329);
  }

  lemma ThenAdds(d: Poly, e: Poly)
    ensures Mod(Plus(ModPoly(d), e), 3329) == ModPoly(Plus(d, e))
  {
    hide Plus, Mod, Equiv;
    ModEquiv(d, 3329);
    SelfEquiv(e);
    PlusEquiv(Mod(d, 3329), d, e, e, 3329);
    EquivMod(Plus(Mod(d, 3329), e), Plus(d, e), 3329);
  }

  lemma SelfEquiv(e: Poly)
    ensures Equiv(e, e, 3329)
  {
  }

  /** Each row of products plus its entry of the error vector. */
  method RowsTimes(rows: seq<seq<Coeffs>>, v: seq<Coeffs>, e: seq<Coeffs>, ghost a: (nat, nat) -> Poly)
    returns (t: seq<Coeffs>)
    requires |rows| == 3 && |v| == 3 && |e| == 3
    requires forall i :: 0 <= i < 3 ==> rows[i] == Row(a, i, 3) && Reduced(e[i], 3329)
    ensures |t| == 3
    ensures forall i :: 0 <= i < 3 ==> t[i] == ModPoly(Plus(Apply(a, v, 3)[i], e[i]))
  {
    hide Dot, Plus, Mod, ModPoly, Row;
    t := [];
    for row := 0 to 3
      invariant |t| == row && forall i :: 0 <= i < row ==> t[i] == ModPoly(Plus(Apply(a, v, 3)[i], e[i]))
    {
      var acc := InnerProduct(rows[row], v);
      acc := Add(acc, e[row], 3329);
      ThenAdds(Dot(rows[row], v, 3), e[row]);
      t := t + [acc];
    }
  }

  method SampleMatrix(h: Hashes, rho: Seed) returns (rows: seq<seq<Coeffs>>)
    ensures |rows| == 3 && forall i :: 0 <= i < 3 ==> rows[i] == Row(Matrix(h, rho), i, 3)
  {
    hide MatrixPoly;
    rows := [];
    for row := 0 to 3
      invariant |rows| == row && forall i :: 0 <= i < row ==> rows[i] == Row(Matrix(h, rho), i, 3)
    {
      var aRow: seq<Coeffs> := [];
      for col := 0 to 3
        invariant |aRow| == col && forall j :: 0 <= j < col ==> aRow[j] == Entry(h, rho, row, j)
      {
        var p := SamplePoly(h, rho, row * 3 + col);
        aRow := aRow + [p];
      }
      rows := rows + [aRow];
    }
  }

  method SampleTransposed(h: Hashes, rho: Seed) returns (columns: seq<seq<Coeffs>>)
    ensures |columns| == 3 && forall i :: 0 <= i < 3 ==> columns[i] == Row(Transposed(Matrix(h, rho)), i, 3)
  {
    hide MatrixPoly;
    columns := [];
    for col := 0 to 3
      invariant |columns| == col && forall i :: 0 <= i < col ==> columns[i] == Row(Transposed(Matrix(h, rho)), i, 3)
    {
      var aCol: seq<Coeffs> := [];
      for row := 0 to 3
        invariant |aCol| == row && forall j :: 0 <= j < row ==> aCol[j] == Entry(h, rho, j, col)
      {
        var p := SamplePoly(h, rho, row * 3 + col);
        aCol := aCol + [p];
      }
      columns := columns + [aCol];
    }
  }

  /** Copies `s` over the bytes from `at` on. */
  method CopySlice(a: array<u8>, at: nat, s: Bytes)
    requires at + |s| <= a.Length
    modifies a
    ensures a[..] == old(a[..at]) + s + old(a[at + |s|..])
  {
    for i := 0 to |s|
      invariant a[..at] == old(a[..at]) && a[at + |s|..] == old(a[at + |s|..])
      invariant forall j :: 0 <= j < i ==> a[at + j] == s[j]
    {
      a[at + i] := s[i];
    }
    assert a[at..at + |s|] == s;
    assert a[..] == a[..at] + a[at..at + |s|] + a[at + |s|..];
  }

  /** Writes the packed vector over the first 1152 bytes. */
  method PackInto(a: array<u8>, v: seq<Coeffs>)
    requires |v| == 3 && (forall i :: 0 <= i < 3 ==> Reduced(v[i], 3329)) && 1152 <= a.Length
    modifies a
    ensures a[..] == PackVec12(v, 3) + old(a[1152..])
  {
    hide Pack12;
    for i := 0 to 3
      invariant a[..] == PackVec12(v, i) + old(a[384 * i..])
    {
      var bytes12 := ToBytes12(v[i]);
      LowOfReduced(v[i]);
      CopySlice(a, 384 * i, bytes12);
    }
  }

  lemma LowOfReduced(p: Coeffs)
    requires Reduced(p, 3329)
    ensures Low12(p) == p
  {
    assert forall k :: 0 <= k < 256 ==> Low12(p)[k] == p[k];
  }

  method KeyGen(h: Hashes, seed: Seed) returns (pk: PublicKeyBytes, sk: PrivateKeyBytes)
    ensures pk == PublicKey(h, seed) && sk == PrivateKey(h, seed)
  {
    hide NoiseVec, PackVec12, ModPoly, Apply, Matrix, Row, Plus;
    var rho := h.rho(seed);
    var a := SampleMatrix(h, rho);
    var s := SampleNoiseVec(h, seed, 0);
    var e := SampleNoiseVec(h, seed, 100);
    var t := RowsTimes(a, s, e, Matrix(h, rho));
    assert t == PublicVec(h, seed);
    var pkBytes := new u8[1184](_ => 0);
    PackInto(pkBytes, t);
    CopySlice(pkBytes, 1152, rho);
    pk := pkBytes[..];
    assert pk == PackVec12(t, 3) + rho;
    sk := AssemblePrivate(s, pk, seed);
  }

  method AssemblePrivate(s: seq<Coeffs>, pk: PublicKeyBytes, seed: Seed) returns (sk: PrivateKeyBytes)
    requires |s| == 3 && forall i :: 0 <= i < 3 ==> Reduced(s[i], 3329)
    ensures sk == PackVec12(s, 3) + pk + seed + seq(32, _ => 0)
  {
    hide PackVec12;
    var skBytes := new u8[2400](_ => 0);
    ghost var zeros := skBytes[..];
    PackInto(skBytes, s);
    ghost var b1 := skBytes[..];
    CopySlice(skBytes, 1152, pk);
    ghost var b2 := skBytes[..];
    CopySlice(skBytes, 2336, seed);
    sk := skBytes[..];
    Layers(zeros, PackVec12(s, 3), b1, pk, b2, seed);
    assert zeros[2368..] == seq(32, _ => 0);
  }

  lemma Layers(z: Bytes, s: Bytes, b1: Bytes, pk: Bytes, b2: Bytes, seed: Bytes)
    requires |z| == 2400 && |s| == 1152 && |pk| == 1184 && |seed| == 32
    requires b1 == s + z[1152..] && b2 == b1[..1152] + pk + b1[2336..]
    ensures b2[..2336] + seed + b2[2368..] == s + pk + seed + z[2368..]
  {
    assert b2[..2336] == s + pk;
    assert b2[2368..] == z[2368..];
  }

  method UnpackVec(b: Bytes) returns (v: seq<Coeffs>)
    requires 1152 <= |b|
    ensures v == UnpackVec12(b)
  {
    hide Unpack12;
    v := [];
    for i := 0 to 3
      invariant |v| == i && forall j :: 0 <= j < i ==> v[j] == ModPoly(Unpack12(b[384 * j..384 * j + 384]))
    {
      var p := FromBytes12(b[384 * i..384 * i + 384], 3329);
      v := v + [p];
    }
  }

  method Encapsulate(h: Hashes, pk: PublicKeyBytes, rand: Seed) returns (ct: CiphertextBytes, ss: Seed)
    ensures ct == Ciphertext(h, pk, rand) && ss == SenderSecret(h, pk, rand)
  {
    hide NoiseVec, Noise, PackVec10, Pack10, Pack4, Compressed, UnpackVec12, ModPoly, Apply, Matrix, Transposed, Row,
         Plus, Dot, MessagePoly, Mod;
    var rho: Seed := pk[1152..];
    var t := UnpackVec(pk);
    var at := SampleTransposed(h, rho);
    var r := SampleNoiseVec(h, rand, 200);
    var e1 := SampleNoiseVec(h, rand, 300);
    var e2 := SampleNoise(h, rand, 400);
    var u := RowsTimes(at, r, e1, Transposed(Matrix(h, rho)));
    assert u == MaskVec(h, rho, rand);
    var m := h.message(rand);
    var v := Mask(t, r, e2, m);
    assert v == MaskedMessage(h, t, rand);
    var bytes := new u8[1088](_ => 0);
    for i := 0 to 3
      invariant bytes[..320 * i] == PackVec10(u, i)
    {
      var bytes10 := ToBytes10(u[i], 3329);
      CopySlice(bytes, 320 * i, bytes10);
      Appends(u, i);
    }
    var vBytes := ToBytes4(v, 3329);
    CopySlice(bytes, 960, vBytes);
    ct := bytes[..];
    ss := h.secret(m, ct);
  }

  lemma Appends(u: seq<Coeffs>, i: nat)
    requires i < |u|
    ensures PackVec10(u, i + 1) == PackVec10(u, i) + Pack10(Compressed(u[i], 3329, 1024))
  {
  }

  /** t . r + e2 + the message polynomial. */
  method Mask(t: seq<Coeffs>, r: seq<Coeffs>, e2: Coeffs, m: Message) returns (v: Coeffs)
    requires |t| == 3 && |r| == 3 && Reduced(e2, 3329)
    ensures v == ModPoly(Plus(ModPoly(Plus(ModPoly(Dot(t, r, 3)), e2)), MessagePoly(m, 3329)))
  {
    hide Dot, Plus;
    var acc := InnerProduct(t, r);
    acc := Add(acc, e2, 3329);
    var polyM := FromMsg(m, 3329);
    v := Add(acc, polyM, 3329);
  }

  method Decapsulate(h: Hashes, sk: PrivateKeyBytes, ct: CiphertextBytes) returns (ss: Seed)
    ensures ss == ReceiverSecret(h, sk, ct)
  {
    hide UnpackVec12, Unpack10, Unpack4, Decompressed, Dot, Minus, DecodedMessage;
    var s := UnpackVec(sk);
    var u: seq<Coeffs> := [];
    for i := 0 to 3
      invariant |u| == i
      invariant forall j :: 0 <= j < i ==> u[j] == Decompressed(Unpack10(ct[320 * j..320 * j + 320]), 3329, 1024)
    {
      var p := FromBytes10(ct[320 * i..320 * i + 320], 3329);
      u := u + [p];
    }
    assert u == ReceivedVec(ct);
    assert ct[960..960 + 128] == ct[960..];
    var v := FromBytes4(ct[960..960 + 128], 3329);
    var acc := InnerProduct(s, u);
    var polyM := Sub(v, acc, 3329);
    var m := ToMsg(polyM, 3329);
    ss := h.secret(m, ct);
  }
}
