/** The binary form of a shard envelope. */
module ErasureEnvelope {
  import opened Wrappers
  import opened Words
  import opened ErasureShards
  import opened ErasureEngine

  datatype ParseError = TooShort | BadMagic | BadVersion | Cut | BadText | SchemaRejected | ChecksumMismatch

  /** "VEC1". */
  const MAGIC: Bytes := [86, 69, 67, 49]

  lemma MagicSpells()
    ensures Spells(MAGIC, "VEC1")
  {
  }

  function BeBytes(n: nat, width: nat): (b: Bytes)
    ensures |b| == width
  {
    if width == 0 then [] else BeBytes(n / 256, width - 1) + [n % 256]
  }

  function BeValue(b: Bytes): nat
  {
    if |b| == 0 then 0 else BeValue(b[..|b| - 1]) * 256 + b[|b| - 1]
  }

  /** Big-endian bytes hold a number modulo the width. */
  lemma {:induction false} BeRoundTrip(n: nat, width: nat)
    ensures BeValue(BeBytes(n, width)) == n % Pow2(8 * width)
  {
    if width != 0 {
      var b := BeBytes(n, width);
      assert b[..width - 1] == BeBytes(n / 256, width - 1);
      BeRoundTrip(n / 256, width - 1);
      Widen(n, Pow2(8 * (width - 1)));
      SmallPowers();
      Pow2Add(8, 8 * (width - 1));
    }
  }

  lemma Widen(n: nat, m: nat)
    requires 0 < m
    ensures n % (256 * m) == n / 256 % m * 256 + n % 256
  {
    var q, r := n / 256 / m, n / 256 % m;
    assert n / 256 == m * q + r;
    assert n == 256 * (m * q + r) + n % 256 == 256 * m * q + (256 * r + n % 256);
    Remainder(n, 256 * m, q, 256 * r + n % 256);
  }

  /** Every byte string is the big-endian form of its value. */
  lemma {:induction false} BeOnto(b: Bytes)
    ensures BeBytes(BeValue(b), |b|) == b
  {
    if |b| != 0 { BeOnto(b[..|b| - 1]); }
  }

  function Reversed(b: Bytes): (r: Bytes)
    ensures |r| == |b|
  {
    seq(|b|, i requires 0 <= i < |b| => b[|b| - 1 - i])
  }

  /** Big-endian is little-endian read backwards. */
  lemma {:induction false} BeIsReversedLe(b: Bytes)
    ensures BeValue(b) == Le(Reversed(b))
  {
    hide Le;
    if |b| == 0 {
      LeEmpty();
      assert Reversed(b) == [];
    } else {
      var n := |b| - 1;
      BeIsReversedLe(b[..n]);
      LeHead(Reversed(b));
      assert Reversed(b)[1..] == Reversed(b[..n]);
    }
  }

  /** Where each number of an envelope that fits stands, and in which byte order. */
  lemma Layout(e: Envelope)
    requires Fits(e) && ValidSchema(e.schema)
    ensures var b := ToBytes(e);
      && |b| == 54 + |e.objectId| + |e.payload| && b[0..4] == MAGIC && b[4] == 1
      && b[5] == e.schema.k % 256 && b[6] == e.schema.m % 256 && b[7] == e.index
      && Le(Reversed(b[8..16])) == e.originalSize && Le(Reversed(b[16..20])) == |e.payload|
      && b[20..52] == e.checksum && Le(Reversed(b[52..54])) == |e.objectId|
      && b[54..54 + |e.objectId|] == e.objectId && b[54 + |e.objectId|..] == e.payload
  {
    hide BeValue, BeBytes, ToBytes, Le;
    var b := ToBytes(e);
    Fields(e);
    Tail(b, e.objectId, e.payload);
    Widths(|e.objectId|);
    Widths(|e.payload|);
    Widths(e.originalSize);
    BeIsReversedLe(b[8..16]);
    BeIsReversedLe(b[16..20]);
    BeIsReversedLe(b[52..54]);
  }

  function ToBytes(e: Envelope): Bytes
  {
    MAGIC + [1, e.schema.k % 256, e.schema.m % 256, e.index % 256] + BeBytes(e.originalSize, 8)
    + BeBytes(|e.payload|, 4) + e.checksum + BeBytes(|e.objectId|, 2) + e.objectId + e.payload
  }

  function FromBytes(hash: Hash, text: Bytes -> bool, b: Bytes): Result<Envelope, ParseError>
  {
    if |b| < 54 then Err(TooShort)
    else if b[0..4] != MAGIC then Err(BadMagic)
    else if b[4] != 1 then Err(BadVersion)
    else
      var payloadLen, idLen := BeValue(b[16..20]), BeValue(b[52..54]);
      var start := 54 + idLen;
      if |b| < start + payloadLen then Err(Cut)
      else if !text(b[54..start]) then Err(BadText)
      else if NewSchema(b[5], b[6]).Err? then Err(SchemaRejected)
      else
        var e := Envelope(b[54..start], Schema(b[5], b[6]), b[7], BeValue(b[8..16]), b[20..52],
                          b[start..start + payloadLen]);
        if !Verified(hash, e) then Err(ChecksumMismatch) else Ok(e)
  }

  /** The fixed part of an encoding, field by field. */
  lemma Fields(e: Envelope)
    ensures var b := ToBytes(e);
      && |b| == 54 + |e.objectId| + |e.payload| && b[0..4] == MAGIC && b[4] == 1
      && b[5] == e.schema.k % 256 && b[6] == e.schema.m % 256 && b[7] == e.index % 256
      && b[8..16] == BeBytes(e.originalSize, 8) && b[16..20] == BeBytes(|e.payload|, 4)
      && b[20..52] == e.checksum && b[52..54] == BeBytes(|e.objectId|, 2) && b[54..] == e.objectId + e.payload
  {
    hide BeBytes;
    var b := ToBytes(e);
    var header := MAGIC + [1, e.schema.k % 256, e.schema.m % 256, e.index % 256] + BeBytes(e.originalSize, 8)
      + BeBytes(|e.payload|, 4) + e.checksum + BeBytes(|e.objectId|, 2);
    assert b == header + (e.objectId + e.payload);
  }

  lemma Tail(b: Bytes, id: Bytes, payload: Bytes)
    requires 54 <= |b| && b[54..] == id + payload
    ensures var start := 54 + |id|; b[54..start] == id && b[start..start + |payload|] == payload
  {
    assert b == b[..54] + id + payload;
  }

  predicate Fits(e: Envelope)
  {
    |e.objectId| < 0x1_0000 && |e.payload| < 0x1_0000_0000 && e.index < 256 && e.originalSize < 0x1_0000_0000_0000_0000
  }

  lemma Widths(n: nat)
    ensures BeValue(BeBytes(n, 2)) == n % 0x1_0000 && BeValue(BeBytes(n, 4)) == n % 0x1_0000_0000
    ensures BeValue(BeBytes(n, 8)) == n % 0x1_0000_0000_0000_0000
  {
    hide BeValue, BeBytes, Pow2;
    SmallPowers();
    Pow2Add(8, 8);
    Pow2Add(16, 16);
    Pow2Add(32, 32);
    BeRoundTrip(n, 2);
    BeRoundTrip(n, 4);
    BeRoundTrip(n, 8);
  }

  /**
   * An envelope is read back as itself exactly when its variable-length fields, index and size fit their
   * encoded widths and its checksum holds.
   */
  lemma RoundTripIff(hash: Hash, text: Bytes -> bool, e: Envelope)
    requires ValidSchema(e.schema) && text(e.objectId)
    ensures FromBytes(hash, text, ToBytes(e)) == Ok(e) <==> Fits(e) && Verified(hash, e)
  {
    hide BeValue, BeBytes, ToBytes, Verified;
    var b := ToBytes(e);
    Fields(e);
    Widths(|e.objectId|);
    Widths(|e.payload|);
    Widths(e.originalSize);
    if Fits(e) {
      Tail(b, e.objectId, e.payload);
    }
  }

  /** Whatever is accepted is, up to trailing bytes, the encoding of what was read. */
  lemma AcceptedIsEncoding(hash: Hash, text: Bytes -> bool, b: Bytes)
    requires FromBytes(hash, text, b).Ok?
    ensures var e := FromBytes(hash, text, b).value;
      ToBytes(e) == b[..|ToBytes(e)|] <= b && Fits(e) && Verified(hash, e) && ValidSchema(e.schema) && text(e.objectId)
  {
    hide BeValue, BeBytes, ToBytes, Verified;
    var e, whole := FromBytes(hash, text, b).value, ToBytes(FromBytes(hash, text, b).value);
    Fields(e);
    BeOnto(b[8..16]);
    BeOnto(b[16..20]);
    BeOnto(b[52..54]);
    Widths(e.originalSize);
    Widths(|e.payload|);
    Widths(|e.objectId|);
  }

  /** Every shard of an encoding survives storage. */
  lemma EncodedSurvives(hash: Hash, text: Bytes -> bool, data: Bytes, s: Schema, id: Bytes, i: nat)
    requires ValidSchema(s) && i < s.k + s.m && text(id) && |id| < 0x1_0000
    requires |data| < 0x1_0000_0000_0000_0000 && ShardSize(|data|, s.k) < 0x1_0000_0000
    ensures FromBytes(hash, text, ToBytes(Encoded(hash, data, s, id)[i])) == Ok(Encoded(hash, data, s, id)[i])
  {
    hide ToBytes, FromBytes, ShardSize, Shard;
    RoundTripIff(hash, text, Encoded(hash, data, s, id)[i]);
  }
}
