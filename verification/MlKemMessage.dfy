/** Messages as polynomials: one bit per coefficient, and the threshold that reads it back. */
module MlKemMessage {
  import opened Numbers
  import opened Words
  import opened MlKemPoly

  type Message = m: seq<u8> | |m| == 32 witness seq(32, _ => 0)

  function MsgBit(m: Message, k: nat): nat
    requires k < 256
  {
    ShiftRight(m[k / 8], k % 8) % 2
  }

  function MessagePoly(m: Message, q: u32): Coeffs
  {
    seq(256, k requires 0 <= k < 256 => if MsgBit(m, k) == 1 then (q + 1) / 2 else 0)
  }

  method FromMsg(msg: Message, q: u32) returns (p: Coeffs)
    requires (q as int) + 1 < 0x1_0000_0000
    ensures p == MessagePoly(msg, q)
  {
    hide And, ShiftRight;
    var coeffs := new u32[256](_ => 0);
    var half := (q + 1) / 2;
    for i := 0 to 32
      invariant forall k :: 0 <= k < 8 * i ==> coeffs[k] == MessagePoly(msg, q)[k]
    {
      for j := 0 to 8
        invariant forall k :: 0 <= k < 8 * i + j ==> coeffs[k] == MessagePoly(msg, q)[k]
      {
        var bit := And(ShiftRight(msg[i], j), 1);
        LowBit(ShiftRight(msg[i], j));
        assert (8 * i + j) / 8 == i && (8 * i + j) % 8 == j;
        coeffs[8 * i + j] := if bit == 1 then half else 0;
      }
    }
    p := coeffs[..];
  }

  /** The bit a coefficient stands for: whether it is nearer than a quarter of q to half of q, around the circle. */
  function DecodeBit(c: u32, q: u32): (bit: nat)
    requires 0 < q
    ensures bit <= 1
  {
    var val, half := c % q, (q + 1) / 2;
    var diff := if val > half then val - half else half - val;
    if Min(diff, q - diff) < q / 4 then 1 else 0
  }

  /** The first `j` decoded bits of byte `i`, least significant first. */
  function DecodedBits(p: Coeffs, q: u32, i: nat, j: nat): (r: nat)
    requires i < 32 && j <= 8 && 0 < q
    ensures r < Pow2(j)
  {
    if j == 0 then 0 else DecodedBits(p, q, i, j - 1) + Pow2(j - 1) * DecodeBit(p[8 * i + j - 1], q)
  }

  function DecodedMessage(p: Coeffs, q: u32): Message
    requires 0 < q
  {
    SmallPowers();
    seq(32, i requires 0 <= i < 32 => DecodedBits(p, q, i, 8))
  }

  method ToMsg(p: Coeffs, q: u32) returns (msg: Message)
    requires 0 < q && (q as int) + 1 < 0x1_0000_0000
    ensures msg == DecodedMessage(p, q)
  {
    hide Or, Pow2, DecodedBits;
    var out := new u8[32](_ => 0);
    var half, quarter := (q + 1) / 2, q / 4;
    for i := 0 to 32
      invariant forall n :: 0 <= n < i ==> out[n] == DecodedBits(p, q, n, 8)
    {
      var byte: nat := 0;
      DecodedNone(p, q, i);
      for j := 0 to 8
        invariant byte == DecodedBits(p, q, i, j)
        invariant forall n :: 0 <= n < i ==> out[n] == DecodedBits(p, q, n, 8)
      {
        var val := p[8 * i + j] % q;
        var diff := if val > half then val - half else half - val;
        var dist := Min(diff, q - diff);
        var bit := if dist < quarter then 1 else 0;
        DecodedNext(p, q, i, j, bit);
        byte := Or(byte, bit * Pow2(j));
      }
      SmallPowers();
      out[i] := byte;
    }
    msg := out[..];
  }

  lemma DecodedNone(p: Coeffs, q: u32, i: nat)
    requires i < 32 && 0 < q
    ensures DecodedBits(p, q, i, 0) == 0
  {
  }

  lemma DecodedNext(p: Coeffs, q: u32, i: nat, j: nat, bit: nat)
    requires i < 32 && j < 8 && 0 < q && bit == DecodeBit(p[8 * i + j], q)
    ensures DecodedBits(p, q, i, j + 1) == Or(DecodedBits(p, q, i, j), bit * Pow2(j))
  {
    hide Or, DecodeBit;
    var x := DecodedBits(p, q, i, j);
    OrShifted(x, bit, j, Pow2(j));
    assert DecodedBits(p, q, i, j + 1) == x + Pow2(j) * bit;
  }

  /** Bit `k` of the decoded message is what coefficient `k` stands for. */
  lemma DecodedBit(p: Coeffs, q: u32, k: nat)
    requires k < 256 && 0 < q
    ensures MsgBit(DecodedMessage(p, q), k) == DecodeBit(p[k], q)
  {
    hide Pow2, DecodedBits, DecodeBit, ShiftRight;
    BitAt(p, q, k / 8, 8, k % 8);
    ShiftRightDivides(DecodedMessage(p, q)[k / 8], k % 8);
    assert 8 * (k / 8) + k % 8 == k;
  }

  lemma {:induction false} BitAt(p: Coeffs, q: u32, i: nat, j: nat, t: nat)
    requires i < 32 && t < j <= 8 && 0 < q
    ensures DecodedBits(p, q, i, j) / Pow2(t) % 2 == DecodeBit(p[8 * i + t], q)
  {
    hide Pow2, DecodeBit;
    var x, bit := DecodedBits(p, q, i, j - 1), DecodeBit(p[8 * i + j - 1], q);
    if t == j - 1 {
      Remainder(x + Pow2(t) * bit, Pow2(t), bit, x);
    } else {
      BitAt(p, q, i, j - 1, t);
      HighBit(x, t, j - 1, bit);
    }
  }

  /** Adding a higher power of two leaves bit `t` as it is. */
  lemma HighBit(x: nat, t: nat, j: nat, bit: nat)
    requires t < j
    ensures (x + Pow2(j) * bit) / Pow2(t) % 2 == x / Pow2(t) % 2
  {
    hide Pow2;
    var m, c := Pow2(t), Pow2(j - t - 1);
    Doubles(t, j);
    var d := c * bit;
    assert Pow2(j) * bit == m * (2 * d) by { assert m * (2 * c) * bit == m * (2 * (c * bit)); }
    var y, r := x / m, x % m;
    assert x == m * y + r;
    assert m * y + m * (2 * d) == m * (y + 2 * d);
    Remainder(x + Pow2(j) * bit, m, y + 2 * d, r);
  }

  lemma Doubles(t: nat, j: nat)
    requires t < j
    ensures Pow2(j) == Pow2(t) * (2 * Pow2(j - t - 1))
  {
    Pow2Add(t, j - t);
  }

  /** A message is determined by its bits. */
  lemma SameBits(a: Message, b: Message)
    requires forall k :: 0 <= k < 256 ==> MsgBit(a, k) == MsgBit(b, k)
    ensures a == b
  {
    hide MsgBit;
    forall i | 0 <= i < 32 ensures a[i] == b[i] { ByteFromBits(a, i); ByteFromBits(b, i); }
  }

  lemma ByteFromBits(m: Message, i: nat)
    requires i < 32
    ensures m[i] == MsgBit(m, 8 * i) + 2 * MsgBit(m, 8 * i + 1) + 4 * MsgBit(m, 8 * i + 2) + 8 * MsgBit(m, 8 * i + 3)
      + 16 * MsgBit(m, 8 * i + 4) + 32 * MsgBit(m, 8 * i + 5) + 64 * MsgBit(m, 8 * i + 6) + 128 * MsgBit(m, 8 * i + 7)
  {
    hide MsgBit, ShiftRight;
    Peel(m, i, 0);
    Peel(m, i, 1);
    Peel(m, i, 2);
    Peel(m, i, 3);
    Peel(m, i, 4);
    Peel(m, i, 5);
    Peel(m, i, 6);
    Peel(m, i, 7);
    ShiftRightEnds(m[i]);
  }

  lemma Peel(m: Message, i: nat, j: nat)
    requires i < 32 && j < 8
    ensures ShiftRight(m[i], j) == MsgBit(m, 8 * i + j) + 2 * ShiftRight(m[i], j + 1)
  {
    hide ShiftRight;
    assert (8 * i + j) / 8 == i && (8 * i + j) % 8 == j;
    ShiftRightHalves(m[i], j);
  }

  lemma ShiftRightEnds(x: u8)
    ensures ShiftRight(x, 0) == x && ShiftRight(x, 8) == 0
  {
    hide Pow2;
    SmallPowers();
    ShiftRightDivides(x, 8);
  }
}
