/** An exchange whose two sides derive different secrets. */
module MlKemDisagreement {
  import opened Words
  import opened PolynomialRing
  import opened PolynomialVectors
  import opened MlKemPoly
  import opened MlKemPacking
  import opened MlKemMessage
  import opened MlKem
  import opened MlKemAgreement

  const ZEROS: Stream256 := seq(256, _ => 0)
  const ONES: Stream256 := seq(256, _ => 1)

  /** Outputs that draw s and e1 as zero and e, r and e2 with every coefficient one. */
  function Unlucky(): Hashes
  {
    Hashes(seed => seed, (seed, index) => seq(512, _ => 0),
           (seed, index) => if index < 100 || 300 <= index < 400 then ZEROS else ONES,
           seed => seq(32, _ => 255), (message, ct) => message)
  }

  function One(): Coeffs
  {
    seq(256, _ => 1)
  }

  lemma Draws(seed: Seed)
    ensures NoiseVec(Unlucky(), seed, 0) == [Zero(), Zero(), Zero()] == NoiseVec(Unlucky(), seed, 300)
    ensures NoiseVec(Unlucky(), seed, 100) == [One(), One(), One()] == NoiseVec(Unlucky(), seed, 200)
    ensures Noise(Unlucky(), seed, 400) == One()
  {
    assert NoisePoly(ZEROS) == Zero();
    assert NoisePoly(ONES) == One();
  }

  lemma {:induction false} DotZero(a: seq<Poly>, z: seq<Poly>, n: nat)
    requires n <= |a| && n <= |z| && forall i :: 0 <= i < n ==> z[i] == Zero()
    ensures Dot(a, z, n) == Zero()
  {
    hide Times, Plus;
    if n != 0 {
      DotZero(a, z, n - 1);
      TimesCommutes(a[n - 1], Zero());
      ZeroTimes(a[n - 1]);
      ZeroPlus();
    }
  }

  lemma ZeroPlus()
    ensures Plus(Zero(), Zero()) == Zero()
  {
  }

  lemma {:induction false} Ramp(n: nat)
    requires n <= 256
    ensures Partial(One(), One(), 255, n) == n
  {
    if n != 0 {
      Ramp(n - 1);
      assert Ext(One(), n - 1) == 1 && Ext(One(), 255 - (n - 1)) == 1;
    }
  }

  lemma OnesProduct(e: seq<Poly>)
    requires e == [One(), One(), One()]
    ensures Dot(e, e, 3)[255] == 768
  {
    hide Partial;
    Ramp(256);
    assert Times(One(), One())[255] == 256;
    assert Dot(e, e, 1)[255] == 256;
    assert Dot(e, e, 2)[255] == 512;
  }

  lemma PublicOnes(seed: Seed)
    ensures PublicVec(Unlucky(), seed) == [One(), One(), One()]
  {
    hide NoiseVec, Matrix, Row, Dot;
    var h := Unlucky();
    Draws(seed);
    var image := Apply(Matrix(h, h.rho(seed)), NoiseVec(h, seed, 0), 3);
    forall i | 0 <= i < 3 ensures PublicVec(h, seed)[i] == One() {
      DotZero(Row(Matrix(h, h.rho(seed)), i, 3), NoiseVec(h, seed, 0), 3);
      assert ModPoly(Plus(Zero(), One())) == One();
    }
  }

  lemma AllBits(m: Message)
    requires m == seq(32, _ => 255)
    ensures MsgBit(m, 255) == 1
  {
    hide Pow2;
    SmallPowers();
  }

  lemma MaskAt(seed: Seed, rand: Seed)
    ensures MaskedMessage(Unlucky(), PublicVec(Unlucky(), seed), rand)[255] == 2434
  {
    hide NoiseVec, Noise, Dot, MsgBit;
    Draws(rand);
    PublicOnes(seed);
    OnesProduct([One(), One(), One()]);
    AllBits(Unlucky().message(rand));
  }

  lemma NoiseAt(seed: Seed, rand: Seed)
    ensures NoiseOf(Run(Unlucky(), seed, rand))[255] == 832
  {
    hide NoiseVec, Noise, Dot, MaskedMessage, MaskVec, PublicVec, VecPlus, RoundingVec, Scaled, Unscaled;
    var x := Run(Unlucky(), seed, rand);
    Draws(seed);
    Draws(rand);
    MaskAt(seed, rand);
    OnesProduct([One(), One(), One()]);
    var d := VecPlus(x.e1, RoundingVec(x.u));
    DotCommutes(x.s, d, 3);
    DotZero(d, x.s, 3);
    RoundsUp();
  }

  lemma RoundsUp()
    ensures Unscaled(Scaled(2434, 3329, 16) % 16, 3329, 16) == 2497
  {
  }

  /** Decapsulation does not undo encapsulation for every outcome of the sampling. */
  lemma CanDisagree(seed: Seed, rand: Seed)
    ensures var h := Unlucky();
      ReceiverSecret(h, PrivateKey(h, seed), Ciphertext(h, PublicKey(h, seed), rand))
        != SenderSecret(h, PublicKey(h, seed), rand)
  {
    hide PublicKey, PrivateKey, Ciphertext, Recovered, NoiseOf, Run, MsgBit;
    var h := Unlucky();
    NoiseAt(seed, rand);
    AllBits(h.message(rand));
    assert !Tolerated(MsgBit(h.message(rand), 255), NoiseOf(Run(h, seed, rand))[255]);
    RecoversIff(h, seed, rand);
  }
}
