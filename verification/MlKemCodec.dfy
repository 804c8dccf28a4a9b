/** The loops that pack and unpack polynomials and messages. */
module MlKemCodec {
  import opened Words
  import opened PolynomialRing
  import opened MlKemPoly
  import opened MlKemPacking

  function Low12(p: Coeffs): (v: Coeffs)
    ensures Bounded(v, 4096)
  {
    seq(256, i requires 0 <= i < 256 => p[i] % 4096)
  }

  method ToBytes12(p: Coeffs) returns (b: Bytes)
    ensures b == Pack12(Low12(p))
  {
    hide Byte12, And, Or;
    var out := new u8[384](_ => 0);
    for i := 0 to 128
      invariant forall n :: 0 <= n < 3 * i ==> out[n] == Pack12(Low12(p))[n]
    {
      Masks12(p[2 * i], p[2 * i + 1]);
      var t0, t1 := And(p[2 * i], 0x0FFF), And(p[2 * i + 1], 0x0FFF);
      out[3 * i] := And(t0, 0xFF);
      out[3 * i + 1] := Or(t0 / 256, And(t1, 0x0F) * 16);
      out[3 * i + 2] := And(t1 / 16, 0xFF);
    }
    b := out[..];
  }

  /** What the masks and shifts of three packed bytes come to. */
  lemma Masks12(x: nat, y: nat)
    ensures var t0, t1 := And(x, 0x0FFF), And(y, 0x0FFF);
      && t0 == x % 4096 && t1 == y % 4096
      && And(t0, 0xFF) == Byte12(x % 4096, y % 4096, 0)
      && Or(t0 / 256, And(t1, 0x0F) * 16) == Byte12(x % 4096, y % 4096, 1)
      && And(t1 / 16, 0xFF) == Byte12(x % 4096, y % 4096, 2)
  {
    hide And, Or, Pow2;
    var t0, t1 := x % 4096, y % 4096;
    SmallPowers();
    Mask(x, 12, 4096);
    Mask(y, 12, 4096);
    Mask(t0, 8, 256);
    Mask(t1, 4, 16);
    Mask(t1 / 16, 8, 256);
    OrShifted(t0 / 256, t1 % 16, 4, 16);
  }

  method FromBytes12(b: Bytes, q: u32) returns (p: Coeffs)
    requires |b| == 384 && 0 < q
    ensures p == Mod(Unpack12(b), q) && Reduced(p, q)
  {
    hide Coef12, And, Or;
    var coeffs := new u32[256](_ => 0);
    ghost var v := Unpack12(b);
    for i := 0 to 128
      invariant forall n :: 0 <= n < 2 * i ==> coeffs[n] == v[n] % q
    {
      var b0: u32, b1: u32, b2: u32 := b[3 * i], b[3 * i + 1], b[3 * i + 2];
      Shifts12(b0, b1, b2);
      var t0 := Or(b0, And(b1, 0x0F) * 256);
      var t1 := Or(b1 / 16, b2 * 16);
      assert v[2 * i] == t0 && v[2 * i + 1] == t1;
      coeffs[2 * i] := t0 % q;
      coeffs[2 * i + 1] := t1 % q;
    }
    p := coeffs[..];
    assert forall n :: 0 <= n < 256 ==> p[n] == v[n] % q;
  }

  lemma Shifts12(b0: u8, b1: u8, b2: u8)
    ensures Or(b0, And(b1, 0x0F) * 256) == Coef12(b0, b1, b2, 0)
    ensures Or(b1 / 16, (b2 as nat) * 16) == Coef12(b0, b1, b2, 1)
  {
    hide And, Or, Pow2;
    SmallPowers();
    Mask(b1, 4, 16);
    OrShifted(b0, b1 % 16, 8, 256);
    OrShifted(b1 / 16, b2, 4, 16);
  }

  method ToBytes10(p: Coeffs, q: u32) returns (b: Bytes)
    requires 0 < q
    ensures b == Pack10(Compressed(p, q, 1024))
  {
    hide Group, Pack10, And, Or, Scaled, Compressed;
    var out := new u8[320](_ => 0);
    ghost var v := Compressed(p, q, 1024);
    for i := 0 to 64
      invariant forall n :: 0 <= n < 5 * i ==> out[n] == Pack10(v)[n]
    {
      var x0, x1 := Scaled(p[4 * i], q, 1024), Scaled(p[4 * i + 1], q, 1024);
      var x2, x3 := Scaled(p[4 * i + 2], q, 1024), Scaled(p[4 * i + 3], q, 1024);
      CompressedAt(p, q, i);
      Masks10(x0, x1, x2, x3, v, i);
      Pack10At(v, i);
      var c0, c1, c2, c3 := And(x0, 0x03FF), And(x1, 0x03FF), And(x2, 0x03FF), And(x3, 0x03FF);
      out[5 * i] := And(c0, 0xFF);
      out[5 * i + 1] := Or(c0 / 256, And(c1, 0x3F) * 4);
      out[5 * i + 2] := Or(c1 / 64, And(c2, 0x0F) * 16);
      out[5 * i + 3] := Or(c2 / 16, And(c3, 0x03) * 64);
      out[5 * i + 4] := c3 / 4;
    }
    b := out[..];
  }

  lemma CompressedAt(p: Coeffs, q: u32, i: nat)
    requires 0 < q && i < 64
    ensures var v := Compressed(p, q, 1024);
      && v[4 * i] == Scaled(p[4 * i], q, 1024) % 1024 && v[4 * i + 1] == Scaled(p[4 * i + 1], q, 1024) % 1024
      && v[4 * i + 2] == Scaled(p[4 * i + 2], q, 1024) % 1024 && v[4 * i + 3] == Scaled(p[4 * i + 3], q, 1024) % 1024
  {
    hide Scaled;
  }

  lemma Masks10(x0: nat, x1: nat, x2: nat, x3: nat, v: Coeffs, i: nat)
    requires i < 64 && Bounded(v, 1024)
    requires v[4 * i] == x0 % 1024 && v[4 * i + 1] == x1 % 1024
    requires v[4 * i + 2] == x2 % 1024 && v[4 * i + 3] == x3 % 1024
    ensures var c0, c1, c2, c3 := And(x0, 0x03FF), And(x1, 0x03FF), And(x2, 0x03FF), And(x3, 0x03FF);
      && c0 == x0 % 1024 && c1 == x1 % 1024 && c2 == x2 % 1024 && c3 == x3 % 1024
      && And(c0, 0xFF) == Group(v, i, 0)
      && Or(c0 / 256, And(c1, 0x3F) * 4) == Group(v, i, 1)
      && Or(c1 / 64, And(c2, 0x0F) * 16) == Group(v, i, 2)
      && Or(c2 / 16, And(c3, 0x03) * 64) == Group(v, i, 3)
      && c3 / 4 == Group(v, i, 4)
  {
    hide And, Or, Pow2;
    var c0, c1, c2, c3 := x0 % 1024, x1 % 1024, x2 % 1024, x3 % 1024;
    SmallPowers();
    Mask(x0, 10, 1024);
    Mask(x1, 10, 1024);
    Mask(x2, 10, 1024);
    Mask(x3, 10, 1024);
    Mask(c0, 8, 256);
    Mask(c1, 6, 64);
    Mask(c2, 4, 16);
    Mask(c3, 2, 4);
    OrShifted(c0 / 256, c1 % 64, 2, 4);
    OrShifted(c1 / 64, c2 % 16, 4, 16);
    OrShifted(c2 / 16, c3 % 4, 6, 64);
  }

  method FromBytes10(b: Bytes, q: u32) returns (p: Coeffs)
    requires |b| == 320 && 0 < q
    ensures p == Decompressed(Unpack10(b), q, 1024) && Reduced(p, q)
  {
    hide Coef10, Unpack10, And, Or, Unscaled;
    var coeffs := new u32[256](_ => 0);
    ghost var v := Unpack10(b);
    for i := 0 to 64
      invariant forall n :: 0 <= n < 4 * i ==> coeffs[n] == Unscaled(v[n], q, 1024)
    {
      var b0: u32, b1: u32, b2: u32, b3: u32, b4: u32 :=
        b[5 * i], b[5 * i + 1], b[5 * i + 2], b[5 * i + 3], b[5 * i + 4];
      Shifts10(b0, b1, b2, b3, b4);
      Unpack10At(b, i);
      var d0 := Or(b0, And(b1, 0x03) * 256);
      var d1 := Or(b1 / 4, And(b2, 0x0F) * 64);
      var d2 := Or(b2 / 16, And(b3, 0x3F) * 16);
      var d3 := Or(b3 / 64, b4 * 4);
      coeffs[4 * i] := Unscaled(d0, q, 1024);
      coeffs[4 * i + 1] := Unscaled(d1, q, 1024);
      coeffs[4 * i + 2] := Unscaled(d2, q, 1024);
      coeffs[4 * i + 3] := Unscaled(d3, q, 1024);
    }
    p := coeffs[..];
    assert forall n :: 0 <= n < 256 ==> p[n] == Unscaled(v[n], q, 1024);
  }

  lemma Unpack10At(b: Bytes, i: nat)
    requires |b| == 320 && i < 64
    ensures var v := Unpack10(b);
      var b0, b1, b2, b3, b4 := b[5 * i], b[5 * i + 1], b[5 * i + 2], b[5 * i + 3], b[5 * i + 4];
      && v[4 * i] == Coef10(b0, b1, b2, b3, b4, 0) && v[4 * i + 1] == Coef10(b0, b1, b2, b3, b4, 1)
      && v[4 * i + 2] == Coef10(b0, b1, b2, b3, b4, 2) && v[4 * i + 3] == Coef10(b0, b1, b2, b3, b4, 3)
  {
    hide Coef10;
  }

  lemma Shifts10(b0: nat, b1: nat, b2: nat, b3: nat, b4: nat)
    requires b0 < 256 && b1 < 256 && b2 < 256 && b3 < 256 && b4 < 256
    ensures Or(b0, And(b1, 0x03) * 256) == Coef10(b0, b1, b2, b3, b4, 0)
    ensures Or(b1 / 4, And(b2, 0x0F) * 64) == Coef10(b0, b1, b2, b3, b4, 1)
    ensures Or(b2 / 16, And(b3, 0x3F) * 16) == Coef10(b0, b1, b2, b3, b4, 2)
    ensures Or(b3 / 64, b4 * 4) == Coef10(b0, b1, b2, b3, b4, 3)
  {
    hide And, Or, Pow2;
    SmallPowers();
    Mask(b1, 2, 4);
    Mask(b2, 4, 16);
    Mask(b3, 6, 64);
    OrShifted(b0, b1 % 4, 8, 256);
    OrShifted(b1 / 4, b2 % 16, 6, 64);
    OrShifted(b2 / 16, b3 % 64, 4, 16);
    OrShifted(b3 / 64, b4, 2, 4);
  }

  method ToBytes4(p: Coeffs, q: u32) returns (b: Bytes)
    requires 0 < q
    ensures b == Pack4(Compressed(p, q, 16))
  {
    hide And, Or, Scaled;
    var out := new u8[128](_ => 0);
    ghost var v := Compressed(p, q, 16);
    for i := 0 to 128
      invariant forall n :: 0 <= n < i ==> out[n] == Pack4(v)[n]
    {
      Masks4(Scaled(p[2 * i], q, 16), Scaled(p[2 * i + 1], q, 16));
      var c0 := And(Scaled(p[2 * i], q, 16), 0x0F);
      var c1 := And(Scaled(p[2 * i + 1], q, 16), 0x0F);
      out[i] := Or(c0, c1 * 16);
    }
    b := out[..];
  }

  lemma Masks4(x0: nat, x1: nat)
    ensures And(x0, 0x0F) == x0 % 16 && And(x1, 0x0F) == x1 % 16
    ensures Or(x0 % 16, x1 % 16 * 16) == x0 % 16 + x1 % 16 * 16
  {
    hide And, Or, Pow2;
    SmallPowers();
    Mask(x0, 4, 16);
    Mask(x1, 4, 16);
    OrShifted(x0 % 16, x1 % 16, 4, 16);
  }

  method FromBytes4(b: Bytes, q: u32) returns (p: Coeffs)
    requires |b| == 128 && 0 < q
    ensures p == Decompressed(Unpack4(b), q, 16) && Reduced(p, q)
  {
    hide And, Unscaled;
    var coeffs := new u32[256](_ => 0);
    ghost var v := Unpack4(b);
    for i := 0 to 128
      invariant forall n :: 0 <= n < 2 * i ==> coeffs[n] == Unscaled(v[n], q, 16)
    {
      Masks4(b[i], 0);
      var d0, d1 := And(b[i], 0x0F), b[i] / 16;
      assert v[2 * i] == d0 && v[2 * i + 1] == d1;
      coeffs[2 * i] := Unscaled(d0, q, 16);
      coeffs[2 * i + 1] := Unscaled(d1, q, 16);
    }
    p := coeffs[..];
    assert forall n :: 0 <= n < 256 ==> p[n] == Unscaled(v[n], q, 16);
  }
}
