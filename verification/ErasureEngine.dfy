/** Encoding an object into shards and decoding it from any K of them. */
module ErasureEngine {
  import opened Wrappers
  import opened Words
  import opened Gf256
  import opened Gf256Field
  import opened GfLinear
  import opened GfCauchy
  import opened GfMatrix
  import opened ErasureShards

  type Digest = d: seq<u8> | |d| == 32 witness seq(32, _ => 0)

  /** The checksum function, which is not modelled further. */
  type Hash = Bytes -> Digest

  datatype Envelope = Envelope(
    objectId: Bytes,
    schema: Schema,
    index: nat,
    originalSize: nat,
    checksum: Digest,
    payload: Bytes)

  /** `Panics` stands for an index past the end of a payload or of the generator. */
  datatype Error = BadSchema | Unrecoverable | InversionFailed | Panics

  function NewSchema(k: nat, m: nat): (r: Result<Schema, Error>)
    ensures r.Ok? <==> ValidSchema(Schema(k, m))
    ensures r.Ok? ==> r.value == Schema(k, m)
  {
    if k == 0 || m == 0 then Err(BadSchema)
    else if k + m > 256 then Err(BadSchema)
    else Ok(Schema(k, m))
  }

  function NewEnvelope(hash: Hash, id: Bytes, schema: Schema, index: nat, size: nat, payload: Bytes): Envelope
  {
    Envelope(id, schema, index, size, hash(payload), payload)
  }

  predicate Verified(hash: Hash, e: Envelope)
  {
    hash(e.payload) == e.checksum
  }

  // --- Encoding ---

  function Encoded(hash: Hash, data: Bytes, s: Schema, id: Bytes): (shards: seq<Envelope>)
    requires ValidSchema(s)
    ensures |shards| == s.k + s.m
  {
    seq(s.k + s.m, i requires 0 <= i < s.k + s.m => NewEnvelope(hash, id, s, i, |data|, Shard(data, s, i)))
  }

  /** Byte `b` of each part. */
  function Across(parts: seq<Bytes>, b: nat): (v: Vec)
    requires forall i :: 0 <= i < |parts| ==> b < |parts[i]|
    ensures |v| == |parts|
  {
    seq(|parts|, i requires 0 <= i < |parts| => parts[i][b])
  }

  /** The accumulation loop of encoding and of recovery: sum over r of row[r] * parts[r]. */
  method Combine(row: Vec, parts: seq<Bytes>, size: nat) returns (sum: Bytes)
    requires |row| == |parts| && forall i :: 0 <= i < |parts| ==> size <= |parts[i]|
    ensures |sum| == size && forall b :: 0 <= b < size ==> sum[b] == Dot(row, Across(parts, b))
  {
    hide Dot, Product, GfAdd;
    var out := new u8[size](_ => 0);
    NoTerms(row, parts, size);
    for r := 0 to |row|
      invariant forall b :: 0 <= b < size ==> out[b] == Dot(row[..r], Across(parts, b)[..r])
    {
      var factor := row[r];
      NextTerm(row, parts, size, r);
      if factor != 0 {
        for b := 0 to size
          invariant forall c :: b <= c < size ==> out[c] == Dot(row[..r], Across(parts, c)[..r])
          invariant forall c :: 0 <= c < b ==> out[c] == Dot(row[..r + 1], Across(parts, c)[..r + 1])
        {
          var term := Product(factor, parts[r][b]);
          out[b] := GfAdd(out[b], term);
        }
      }
    }
    sum := out[..];
    forall b | 0 <= b < size ensures sum[b] == Dot(row, Across(parts, b)) {
      assert row[..|row|] == row && Across(parts, b)[..|row|] == Across(parts, b);
    }
  }

  lemma NoTerms(row: Vec, parts: seq<Bytes>, size: nat)
    requires |row| == |parts| && forall i :: 0 <= i < |parts| ==> size <= |parts[i]|
    ensures forall b :: 0 <= b < size ==> Dot(row[..0], Across(parts, b)[..0]) == 0
  {
  }

  lemma NextTerm(row: Vec, parts: seq<Bytes>, size: nat, r: nat)
    requires |row| == |parts| && r < |row| && forall i :: 0 <= i < |parts| ==> size <= |parts[i]|
    ensures forall b :: 0 <= b < size ==>
      Dot(row[..r + 1], Across(parts, b)[..r + 1])
        == GfAdd(Dot(row[..r], Across(parts, b)[..r]), Product(row[r], parts[r][b]))
    ensures row[r] == 0 ==> forall b :: 0 <= b < size ==>
      Dot(row[..r + 1], Across(parts, b)[..r + 1]) == Dot(row[..r], Across(parts, b)[..r])
  {
    hide Product, GfAdd;
    forall b | 0 <= b < size
      ensures Dot(row[..r + 1], Across(parts, b)[..r + 1])
        == GfAdd(Dot(row[..r], Across(parts, b)[..r]), Product(row[r], parts[r][b]))
      ensures GfAdd(Dot(row[..r], Across(parts, b)[..r]), Product(0, parts[r][b])) ==
        Dot(row[..r], Across(parts, b)[..r])
    {
      var x, y := row[..r + 1], Across(parts, b)[..r + 1];
      assert x[..r] == row[..r] && y[..r] == Across(parts, b)[..r];
      ProductZero(parts[r][b]);
      AddZero(Dot(row[..r], Across(parts, b)[..r]));
    }
  }

  method CauchyMatrix(rows: nat, cols: nat) returns (c: Matrix)
    requires rows + cols <= 256
    ensures fresh(c) && c.Valid() && c.rows == rows && c.cols == cols
    ensures forall i :: 0 <= i < rows ==> c.Rows()[i] == CauchyRow(rows, cols, i)
  {
    hide Reciprocal, GfInv, GfAdd;
    c := new Matrix(rows, cols);
    ghost var m := c.Rows();
    for i := 0 to rows
      invariant c.Valid() && c.Rows() == m && Shape(m, rows, cols)
      invariant forall r :: 0 <= r < i ==> m[r] == CauchyRow(rows, cols, r)
    {
      ghost var before := m;
      for j := 0 to cols
        invariant c.Valid() && c.Rows() == m && Shape(m, rows, cols)
        invariant forall r :: 0 <= r < rows && r != i ==> m[r] == before[r]
        invariant forall q :: 0 <= q < j ==> m[i][q] == CauchyAt(rows, cols, i, q)
      {
        var x: u8, y: u8 := i, rows + j;
        var denom := GfAdd(x, y);
        ReciprocalOf(x, y);
        c.Set(i, j, GfInv(denom));
        m := Put(m, i, j, GfInv(denom));
      }
      assert m[i] == CauchyRow(rows, cols, i);
    }
  }

  lemma ReciprocalOf(x: u8, y: u8)
    requires x != y
    ensures GfAdd(x, y) != 0 && Reciprocal(x, y) == GfInv(GfAdd(x, y))
  {
    hide GfAdd;
    AddCancels(x, y);
  }

  method RowOf(c: Matrix, i: nat) returns (row: Vec)
    requires c.Valid() && i < c.rows
    ensures row == c.Rows()[i]
  {
    row := [];
    for j := 0 to c.cols
      invariant row == c.Rows()[i][..j]
    {
      var x := c.Get(i, j);
      row := row + [x];
    }
  }

  /** One data shard: its slice of the object over a zeroed buffer. */
  method Slice(data: Bytes, k: nat, i: nat) returns (shard: Bytes)
    requires i < k
    ensures shard == DataShard(data, k, i)
  {
    hide ShardSize;
    var size := ShardSize(|data|, k);
    Within(i, k, size);
    var start := i * size;
    var end := if (i + 1) * size < |data| then (i + 1) * size else |data|;
    var buffer := new u8[size](_ => 0);
    if start < |data| {
      for b := 0 to end - start
        invariant forall c :: 0 <= c < size ==> buffer[c] == if c < b then data[start + c] else 0
      {
        buffer[b] := data[start + b];
      }
    }
    shard := buffer[..];
  }

  method DataShards(data: Bytes, k: nat) returns (shards: seq<Bytes>)
    requires 0 < k
    ensures |shards| == k && forall j :: 0 <= j < k ==> shards[j] == DataShard(data, k, j)
  {
    hide DataShard;
    shards := [];
    for i := 0 to k
      invariant |shards| == i && forall j :: 0 <= j < i ==> shards[j] == DataShard(data, k, j)
    {
      var shard := Slice(data, k, i);
      shards := shards + [shard];
    }
  }

  method ParityShards(data: Bytes, s: Schema, parts: seq<Bytes>) returns (shards: seq<Bytes>)
    requires ValidSchema(s) && |parts| == s.k && forall j :: 0 <= j < s.k ==> parts[j] == DataShard(data, s.k, j)
    ensures |shards| == s.m && forall j :: 0 <= j < s.m ==> shards[j] == Shard(data, s, s.k + j)
  {
    hide ShardSize, Shard, DataShard, Dot, CauchyRow;
    var size := ShardSize(|data|, s.k);
    var cauchy := CauchyMatrix(s.m, s.k);
    shards := [];
    for i := 0 to s.m
      invariant |shards| == i && forall j :: 0 <= j < i ==> shards[j] == Shard(data, s, s.k + j)
      invariant cauchy.Valid() && forall r :: 0 <= r < s.m ==> cauchy.Rows()[r] == CauchyRow(s.m, s.k, r)
    {
      var row := RowOf(cauchy, i);
      var sum := Combine(row, parts, size);
      ParityIs(data, s, i, parts, sum);
      shards := shards + [sum];
    }
  }

  method Encode(hash: Hash, data: Bytes, s: Schema, id: Bytes) returns (shards: seq<Envelope>)
    requires ValidSchema(s)
    ensures shards == Encoded(hash, data, s, id)
  {
    hide Shard, DataShard;
    var dataShards := DataShards(data, s.k);
    var parityShards := ParityShards(data, s, dataShards);
    shards := [];
    for i := 0 to s.k
      invariant |shards| == i && forall j :: 0 <= j < i ==> shards[j] == Encoded(hash, data, s, id)[j]
    {
      Systematic(data, s, i);
      shards := shards + [NewEnvelope(hash, id, s, i, |data|, dataShards[i])];
    }
    for i := 0 to s.m
      invariant |shards| == s.k + i && forall j :: 0 <= j < s.k + i ==> shards[j] == Encoded(hash, data, s, id)[j]
    {
      shards := shards + [NewEnvelope(hash, id, s, s.k + i, |data|, parityShards[i])];
    }
  }

  lemma ParityIs(data: Bytes, s: Schema, i: nat, parts: seq<Bytes>, sum: Bytes)
    requires ValidSchema(s) && i < s.m && |parts| == s.k && |sum| == ShardSize(|data|, s.k)
    requires forall j :: 0 <= j < s.k ==> |parts[j]| == |sum| && parts[j] == DataShard(data, s.k, j)
    requires forall b :: 0 <= b < |sum| ==> sum[b] == Dot(CauchyRow(s.m, s.k, i), Across(parts, b))
    ensures sum == Shard(data, s, s.k + i)
  {
    hide Dot, CauchyRow, DataShard, ShardSize;
    forall b | 0 <= b < |sum| ensures sum[b] == Shard(data, s, s.k + i)[b] {
      assert Across(parts, b) == Column(data, s.k, b);
    }
  }
}
