/** The key encapsulation as functions on values, and when the two sides agree on the secret. */
module MlKem {
  import opened Words
  import opened PolynomialRing
  import opened PolynomialVectors
  import opened MlKemPoly
  import opened MlKemPacking
  import opened MlKemMessage

  type Seed = s: seq<u8> | |s| == 32 witness seq(32, _ => 0)
  type Stream512 = s: seq<u8> | |s| == 512 witness seq(512, _ => 0)
  type Stream256 = s: seq<u8> | |s| == 256 witness seq(256, _ => 0)
  type PublicKeyBytes = b: seq<u8> | |b| == 1184 witness seq(1184, _ => 0)
  type PrivateKeyBytes = b: seq<u8> | |b| == 2400 witness seq(2400, _ => 0)
  type CiphertextBytes = b: seq<u8> | |b| == 1088 witness seq(1088, _ => 0)

  /** The keyed hashes and extendable outputs, which are not modelled further. */
  datatype Hashes = Hashes(
    rho: Seed -> Seed,
    matrix: (Seed, nat) -> Stream512,
    noise: (Seed, nat) -> Stream256,
    message: Seed -> Message,
    secret: (Message, CiphertextBytes) -> Seed)

  // --- Sampling ---

  function MatrixPoly(buf: Stream512): (p: Coeffs)
    ensures Reduced(p, 3329)
  {
    seq(256, i requires 0 <= i < 256 => (buf[2 * i] + 256 * (buf[2 * i + 1] as nat)) % 3329)
  }

  function NoisePoly(buf: Stream256): (p: Coeffs)
    ensures Reduced(p, 3329)
  {
    seq(256, i requires 0 <= i < 256 =>
      if buf[i] % 3 == 0 then 0 else if buf[i] % 3 == 1 then 1 else 3328)
  }

  function Entry(h: Hashes, rho: Seed, row: nat, col: nat): Poly
  {
    MatrixPoly(h.matrix(rho, row * 3 + col))
  }

  function Matrix(h: Hashes, rho: Seed): (nat, nat) -> Poly
  {
    (row: nat, col: nat) => Entry(h, rho, row, col)
  }

  function Noise(h: Hashes, seed: Seed, index: nat): (p: Coeffs)
    ensures Reduced(p, 3329)
  {
    NoisePoly(h.noise(seed, index))
  }

  function NoiseVec(h: Hashes, seed: Seed, at: nat): (v: seq<Coeffs>)
    ensures |v| == 3 && forall i :: 0 <= i < 3 ==> Reduced(v[i], 3329)
  {
    [Noise(h, seed, at), Noise(h, seed, at + 1), Noise(h, seed, at + 2)]
  }

  function ModPoly(p: Poly): (r: Coeffs)
    ensures Reduced(r, 3329) && r == Mod(p, 3329)
  {
    seq(256, i requires 0 <= i < 256 => p[i] % 3329)
  }

  // --- Keys ---

  /** t = A s + e. */
  function PublicVec(h: Hashes, seed: Seed): (t: seq<Coeffs>)
    ensures |t| == 3 && forall i :: 0 <= i < 3 ==> Reduced(t[i], 3329)
  {
    var image := Apply(Matrix(h, h.rho(seed)), NoiseVec(h, seed, 0), 3);
    seq(3, i requires 0 <= i < 3 => ModPoly(Plus(image[i], NoiseVec(h, seed, 100)[i])))
  }

  /** The first `n` polynomials at 12 bits per coefficient, one after the other. */
  function PackVec12(v: seq<Coeffs>, n: nat): (b: Bytes)
    requires n <= |v| && forall i :: 0 <= i < |v| ==> Reduced(v[i], 3329)
    ensures |b| == 384 * n
  {
    if n == 0 then [] else PackVec12(v, n - 1) + Pack12(v[n - 1])
  }

  function PublicKey(h: Hashes, seed: Seed): PublicKeyBytes
  {
    PackVec12(PublicVec(h, seed), 3) + h.rho(seed)
  }

  function PrivateKey(h: Hashes, seed: Seed): PrivateKeyBytes
  {
    PackVec12(NoiseVec(h, seed, 0), 3) + PublicKey(h, seed) + seed + seq(32, _ => 0)
  }

  function UnpackVec12(b: Bytes): (v: seq<Coeffs>)
    requires 1152 <= |b|
    ensures |v| == 3 && forall i :: 0 <= i < 3 ==> Reduced(v[i], 3329)
  {
    seq(3, i requires 0 <= i < 3 => ModPoly(Unpack12(b[384 * i..384 * i + 384])))
  }

  // --- Encapsulation ---

  /** u = A^T r + e1. */
  function MaskVec(h: Hashes, rho: Seed, rand: Seed): (u: seq<Coeffs>)
    ensures |u| == 3 && forall i :: 0 <= i < 3 ==> Reduced(u[i], 3329)
  {
    var image := Apply(Transposed(Matrix(h, rho)), NoiseVec(h, rand, 200), 3);
    seq(3, i requires 0 <= i < 3 => ModPoly(Plus(image[i], NoiseVec(h, rand, 300)[i])))
  }

  /** v = t . r + e2 + the message polynomial. */
  function MaskedMessage(h: Hashes, t: seq<Coeffs>, rand: Seed): Coeffs
    requires |t| == 3
  {
    var mask := ModPoly(Plus(ModPoly(Dot(t, NoiseVec(h, rand, 200), 3)), Noise(h, rand, 400)));
    ModPoly(Plus(mask, MessagePoly(h.message(rand), 3329)))
  }

  function PackVec10(u: seq<Coeffs>, n: nat): (b: Bytes)
    requires n <= |u|
    ensures |b| == 320 * n
  {
    if n == 0 then [] else PackVec10(u, n - 1) + Pack10(Compressed(u[n - 1], 3329, 1024))
  }

  function Ciphertext(h: Hashes, pk: PublicKeyBytes, rand: Seed): CiphertextBytes
  {
    var u := MaskVec(h, pk[1152..], rand);
    var v := MaskedMessage(h, UnpackVec12(pk), rand);
    PackVec10(u, 3) + Pack4(Compressed(v, 3329, 16))
  }

  // --- Decapsulation ---

  function ReceivedVec(ct: CiphertextBytes): (u: seq<Coeffs>)
    ensures |u| == 3 && forall i :: 0 <= i < 3 ==> Reduced(u[i], 3329)
  {
    seq(3, i requires 0 <= i < 3 => Decompressed(Unpack10(ct[320 * i..320 * i + 320]), 3329, 1024))
  }

  function ReceivedMask(ct: CiphertextBytes): (v: Coeffs)
    ensures Reduced(v, 3329)
  {
    Decompressed(Unpack4(ct[960..]), 3329, 16)
  }

  /** v - s . u. */
  function Unmasked(sk: PrivateKeyBytes, ct: CiphertextBytes): Coeffs
  {
    ModPoly(Minus(ReceivedMask(ct), ModPoly(Dot(UnpackVec12(sk), ReceivedVec(ct), 3))))
  }

  function Recovered(sk: PrivateKeyBytes, ct: CiphertextBytes): Message
  {
    DecodedMessage(Unmasked(sk, ct), 3329)
  }

  // --- Shared secrets ---

  function SenderSecret(h: Hashes, pk: PublicKeyBytes, rand: Seed): Seed
  {
    h.secret(h.message(rand), Ciphertext(h, pk, rand))
  }

  function ReceiverSecret(h: Hashes, sk: PrivateKeyBytes, ct: CiphertextBytes): Seed
  {
    h.secret(Recovered(sk, ct), ct)
  }
}
