/** Shards of an object and the linear system that ties them together. */
module ErasureShards {
  import opened Words
  import opened GfLinear
  import opened GfInverse
  import opened GfCauchy

  /** K data and M parity shards. */
  datatype Schema = Schema(k: nat, m: nat)

  predicate ValidSchema(s: Schema)
  {
    0 < s.k && 0 < s.m && s.k + s.m <= 256
  }

  /** The least size with which K shards hold the object; one byte for an empty object. */
  function ShardSize(n: nat, k: nat): (size: nat)
    requires 0 < k
    ensures 0 < size && n <= k * size && (0 < n ==> k * (size - 1) < n)
  {
    if n == 0 then 1 else
      CeilingFits(n, k);
      (n + k - 1) / k
  }

  lemma CeilingFits(n: nat, k: nat)
    requires 0 < n && 0 < k
    ensures var q := (n + k - 1) / k; 0 < q && n <= k * q && k * (q - 1) < n
  {
    var q := (n + k - 1) / k;
    assert n + k - 1 == k * q + (n + k - 1) % k;
    assert k * (q - 1) == k * q - k;
    if q <= 0 { AtLeast(k, q, 0); }
  }

  /** The object with zero padding up to K whole shards. */
  function Padded(data: Bytes, k: nat): (p: Bytes)
    requires 0 < k
    ensures |p| == k * ShardSize(|data|, k) && p[..|data|] == data
    ensures forall i :: |data| <= i < |p| ==> p[i] == 0
  {
    data + Zeros(k * ShardSize(|data|, k) - |data|)
  }

  lemma Within(i: nat, k: nat, size: nat)
    requires i < k
    ensures 0 <= i * size && (i + 1) * size == i * size + size && i * size + size <= k * size
  {
    AtLeast(size, i + 1, k);
    AtLeast(size, 0, i);
  }

  function DataShard(data: Bytes, k: nat, i: nat): (s: Bytes)
    requires i < k
    ensures |s| == ShardSize(|data|, k)
  {
    var size := ShardSize(|data|, k);
    Within(i, k, size);
    Padded(data, k)[i * size..i * size + size]
  }

  /** Byte `b` of every data shard. */
  function Column(data: Bytes, k: nat, b: nat): (c: Vec)
    requires 0 < k && b < ShardSize(|data|, k)
    ensures |c| == k
  {
    seq(k, i requires 0 <= i < k => DataShard(data, k, i)[b])
  }

  /** Shard `index`: every byte is the generator row applied to the data bytes at the same place. */
  function Shard(data: Bytes, s: Schema, index: nat): (p: Bytes)
    requires ValidSchema(s) && index < s.k + s.m
    ensures |p| == ShardSize(|data|, s.k)
  {
    seq(ShardSize(|data|, s.k), b requires 0 <= b < ShardSize(|data|, s.k) =>
      Dot(GeneratorRow(s.k, s.m, index), Column(data, s.k, b)))
  }

  /** The code is systematic: the first K shards are the data. */
  lemma Systematic(data: Bytes, s: Schema, i: nat)
    requires ValidSchema(s) && i < s.k
    ensures Shard(data, s, i) == DataShard(data, s.k, i)
  {
    hide DataShard, Unit, Dot;
    var size := ShardSize(|data|, s.k);
    forall b | 0 <= b < size ensures Shard(data, s, i)[b] == DataShard(data, s.k, i)[b] {
      DotUnit(i, s.k, Column(data, s.k, b));
    }
  }

  function Concat(parts: seq<Bytes>, n: nat): Bytes
    requires n <= |parts|
  {
    if n == 0 then [] else Concat(parts, n - 1) + parts[n - 1]
  }

  lemma {:induction false} ConcatData(data: Bytes, k: nat, parts: seq<Bytes>, n: nat)
    requires 0 < k && n <= k == |parts| && forall i :: 0 <= i < k ==> parts[i] == DataShard(data, k, i)
    ensures 0 <= n * ShardSize(|data|, k) <= |Padded(data, k)|
    ensures Concat(parts, n) == Padded(data, k)[..n * ShardSize(|data|, k)]
  {
    hide Padded, ShardSize;
    if n != 0 {
      ConcatData(data, k, parts, n - 1);
      Within(n - 1, k, ShardSize(|data|, k));
    }
  }

  /** Concatenating the data shards and cutting to the object's length gives the object back. */
  lemma Joins(data: Bytes, k: nat, parts: seq<Bytes>)
    requires 0 < k == |parts| && forall i :: 0 <= i < k ==> parts[i] == DataShard(data, k, i)
    ensures |data| <= |Concat(parts, k)| && Concat(parts, k)[..|data|] == data
  {
    hide Padded, ShardSize, Concat;
    ConcatData(data, k, parts, k);
  }
}
