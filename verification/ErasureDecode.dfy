/** Decoding an object from whatever shards are left. */
module ErasureDecode {
  import opened Numbers
  import opened Wrappers
  import opened Words
  import opened GfLinear
  import opened GfInverse
  import opened GfCauchy
  import opened GfMatrix
  import opened ErasureShards
  import opened ErasureEngine

  /** A shard and the generator row it is taken to belong to. */
  datatype Indexed = Indexed(index: nat, shard: Envelope)

  /** The shards in the first `n` slots whose checksum holds. */
  function Gathered(hash: Hash, slots: seq<Option<Envelope>>, n: nat): seq<Indexed>
    requires n <= |slots|
  {
    if n == 0 then [] else Gathered(hash, slots, n - 1) + Intact(hash, slots[n - 1], n - 1)
  }

  predicate IsIntact(hash: Hash, slot: Option<Envelope>)
  {
    slot.Some? && Verified(hash, slot.value)
  }

  function Intact(hash: Hash, slot: Option<Envelope>, at: nat): seq<Indexed>
  {
    if IsIntact(hash, slot) then [Indexed(Min(slot.value.index, at), slot.value)] else []
  }

  /** Each gathered shard is an intact one, taken for the smaller of its slot and its own index. */
  lemma {:induction false} GatheredIs(hash: Hash, slots: seq<Option<Envelope>>, n: nat, p: nat) returns (i: nat)
    requires n <= |slots| && p < |Gathered(hash, slots, n)|
    ensures i < n && IsIntact(hash, slots[i]) && slots[i].value == Gathered(hash, slots, n)[p].shard
    ensures var index := Gathered(hash, slots, n)[p].index;
      index <= i && index <= slots[i].value.index && (index == i || index == slots[i].value.index)
  {
    if p < |Gathered(hash, slots, n - 1)| {
      i := GatheredIs(hash, slots, n - 1, p);
    } else {
      i := n - 1;
    }
  }

  /** Every intact shard is the one the encoder put in that slot; damaged and missing shards are allowed anywhere. */
  predicate Honest(hash: Hash, slots: seq<Option<Envelope>>, s: Schema, data: Bytes, id: Bytes)
    requires ValidSchema(s)
  {
    forall i :: 0 <= i < |slots| && IsIntact(hash, slots[i]) ==>
      i < s.k + s.m && slots[i].value == Encoded(hash, data, s, id)[i]
  }

  predicate Genuine(hash: Hash, valid: seq<Indexed>, n: nat, s: Schema, data: Bytes, id: Bytes)
    requires ValidSchema(s)
  {
    && (forall p :: 0 <= p < |valid| ==>
      valid[p].index < n && valid[p].index < s.k + s.m && valid[p].shard == Encoded(hash, data, s, id)[valid[p].index])
    && (forall p, q :: 0 <= p < q < |valid| ==> valid[p].index < valid[q].index)
  }

  lemma {:induction false} GatheredGenuine(hash: Hash, slots: seq<Option<Envelope>>, n: nat, s: Schema, data: Bytes,
                                           id: Bytes)
    requires ValidSchema(s) && n <= |slots| && Honest(hash, slots, s, data, id)
    ensures Genuine(hash, Gathered(hash, slots, n), n, s, data, id)
  {
    hide Encoded, Genuine;
    if n == 0 {
      NoneGenuine(hash, s, data, id);
    } else {
      GatheredGenuine(hash, slots, n - 1, s, data, id);
      if n <= s.k + s.m { EncodedFields(hash, data, s, id, n - 1); }
      OneMore(hash, Gathered(hash, slots, n - 1), n, s, data, id, slots[n - 1]);
    }
  }

  lemma NoneGenuine(hash: Hash, s: Schema, data: Bytes, id: Bytes)
    requires ValidSchema(s)
    ensures Genuine(hash, [], 0, s, data, id)
  {
  }

  lemma OneMore(hash: Hash, valid: seq<Indexed>, n: nat, s: Schema, data: Bytes, id: Bytes, slot: Option<Envelope>)
    requires ValidSchema(s) && 0 < n && Genuine(hash, valid, n - 1, s, data, id)
    requires IsIntact(hash, slot) ==> n <= s.k + s.m && slot.value == Encoded(hash, data, s, id)[n - 1]
    requires n <= s.k + s.m ==> Encoded(hash, data, s, id)[n - 1].index == n - 1
    ensures Genuine(hash, valid + Intact(hash, slot, n - 1), n, s, data, id)
  {
    hide Encoded, Verified;
  }

  lemma EncodedFields(hash: Hash, data: Bytes, s: Schema, id: Bytes, i: nat)
    requires ValidSchema(s) && i < s.k + s.m
    ensures var e := Encoded(hash, data, s, id)[i];
      && e.index == i && e.originalSize == |data| && e.objectId == id && e.payload == Shard(data, s, i)
      && Verified(hash, e)
  {
    hide Shard;
  }

  function Indices(valid: seq<Indexed>): (r: seq<nat>)
    ensures |r| == |valid|
  {
    seq(|valid|, i requires 0 <= i < |valid| => valid[i].index)
  }

  function Payloads(valid: seq<Indexed>): (r: seq<Bytes>)
    ensures |r| == |valid|
  {
    seq(|valid|, i requires 0 <= i < |valid| => valid[i].shard.payload)
  }

  // --- Recovery by inversion ---

  /** `d` is the one and only vector that the matrix takes to `w`. */
  ghost predicate OnlySolution(a: seq<Vec>, w: Vec, d: Vec)
    requires Shape(a, |w|, |w|) && |d| == |w|
  {
    Maps(a, d, w) && forall u: Vec :: |u| == |w| && Maps(a, u, w) ==> u == d
  }

  lemma InverseSolves(a: seq<Vec>, b: seq<Vec>, w: Vec, d: Vec)
    requires Shape(a, |w|, |w|) && Shape(b, |w|, |w|) && |d| == |w| && Inverse(a, b, |w|) && Maps(b, w, d)
    ensures OnlySolution(a, w, d)
  {
    hide Dot;
    forall u: Vec | |u| == |w| && Maps(a, u, w) ensures u == d {
      assert Maps(b, w, u);
    }
  }

  method FillSelection(chosen: seq<nat>, s: Schema) returns (a: Matrix)
    requires ValidSchema(s) && |chosen| == s.k && forall i :: 0 <= i < s.k ==> chosen[i] < s.k + s.m
    ensures fresh(a) && a.Valid() && a.rows == s.k && a.cols == s.k
    ensures a.Rows() == Selection(s.k, s.m, chosen)
  {
    hide CauchyRow;
    var cauchy := CauchyMatrix(s.m, s.k);
    a := new Matrix(s.k, s.k);
    for r := 0 to s.k
      invariant cauchy.Valid() && forall i :: 0 <= i < s.m ==> cauchy.Rows()[i] == CauchyRow(s.m, s.k, i)
      invariant a.Valid() && cauchy != a && Shape(a.Rows(), s.k, s.k)
      invariant forall i :: 0 <= i < s.k ==>
        a.Rows()[i] == if i < r then GeneratorRow(s.k, s.m, chosen[i]) else Zeros(s.k)
    {
      if chosen[r] < s.k {
        a.Set(r, chosen[r], 1);
        assert a.Rows()[r] == Unit(chosen[r], s.k);
      } else {
        a.CopyFrom(cauchy, chosen[r] - s.k, r);
      }
    }
  }

  predicate InRange(selected: seq<Indexed>, s: Schema)
  {
    |selected| == s.k && forall i :: 0 <= i < s.k ==> selected[i].index < s.k + s.m
  }

  predicate LongEnough(selected: seq<Indexed>, size: nat)
  {
    forall i :: 0 <= i < |selected| ==> size <= |selected[i].shard.payload|
  }

  predicate Selectable(selected: seq<Indexed>, s: Schema, size: nat)
  {
    InRange(selected, s) && LongEnough(selected, size)
  }

  lemma DotWithUnit(a: Vec, r: nat)
    requires r < |a|
    ensures Dot(a, Unit(r, |a|)) == a[r]
  {
    DotCommutes(a, Unit(r, |a|));
    DotUnit(r, |a|, a);
  }

  /** An invertible matrix has no two equal rows. */
  lemma RowsDiffer(a: seq<Vec>, b: seq<Vec>, n: nat, i: nat, j: nat)
    requires Shape(a, n, n) && Shape(b, n, n) && Inverse(a, b, n) && i < j < n
    ensures a[i] != a[j]
  {
    hide Dot;
    var w := Unit(i, n);
    var u: Vec := seq(n, r requires 0 <= r < n => Dot(b[r], w));
    assert Maps(b, w, u);
    assert Maps(a, u, w);
    assert Dot(a[i], u) == 1 && Dot(a[j], u) == 0;
  }

  /** Every column of an inverse has a non-zero entry, so recovery looks at every selected shard. */
  lemma ColumnUsed(a: seq<Vec>, b: seq<Vec>, n: nat, r: nat)
    requires Shape(a, n, n) && Shape(b, n, n) && Inverse(a, b, n) && r < n
    ensures exists j :: 0 <= j < n && b[j][r] != 0
  {
    hide Dot;
    if forall j :: 0 <= j < n ==> b[j][r] == 0 {
      forall j | 0 <= j < n ensures Dot(b[j], Unit(r, n)) == Zeros(n)[j] {
        DotWithUnit(b[j], r);
      }
      assert Maps(a, Zeros(n), Unit(r, n));
      DotZeros(a[r], Zeros(n));
    }
  }

  /** The selected rows can be inverted exactly when no index is selected twice. */
  lemma InvertibleIff(k: nat, m: nat, chosen: seq<nat>, b: seq<Vec>)
    requires k + m <= 256 && |chosen| == k && (forall i :: 0 <= i < k ==> chosen[i] < k + m) && Shape(b, k, k)
    ensures Distinct(chosen) ==> Regular(Selection(k, m, chosen), k)
    ensures Inverse(Selection(k, m, chosen), b, k) ==> Distinct(chosen)
  {
    hide Regular, Inverse;
    if Distinct(chosen) {
      SelectionRegular(k, m, chosen);
    }
    if Inverse(Selection(k, m, chosen), b, k) {
      forall i, j | 0 <= i < j < k ensures chosen[i] != chosen[j] {
        RowsDiffer(Selection(k, m, chosen), b, k, i, j);
      }
    }
  }

  /** Byte `b` of the recovered parts solves the system given by byte `b` of the selected shards. */
  ghost predicate Recovers(selected: seq<Indexed>, s: Schema, size: nat, parts: seq<Bytes>, b: nat)
    requires ValidSchema(s) && Selectable(selected, s, size) && b < size
    requires |parts| == s.k && forall i :: 0 <= i < s.k ==> |parts[i]| == size
  {
    OnlySolution(Selection(s.k, s.m, Indices(selected)), Across(Payloads(selected), b), Across(parts, b))
  }

  /** Whether multiplying out would read past the end of a payload: only factors other than zero are multiplied. */
  method ReadsPastEnd(inv: Matrix, selected: seq<Indexed>, size: nat, ghost a: seq<Vec>) returns (past: bool)
    requires inv.Valid() && inv.rows == inv.cols == |selected|
    requires Shape(a, inv.rows, inv.rows) && Inverse(a, inv.Rows(), inv.rows)
    ensures past <==> !LongEnough(selected, size)
  {
    hide Inverse, LongEnough;
    ghost var rows := inv.Rows();
    for j := 0 to inv.rows
      invariant forall i, r :: 0 <= i < j && 0 <= r < inv.rows && rows[i][r] != 0 ==>
        size <= |selected[r].shard.payload|
    {
      var row := RowOf(inv, j);
      for r := 0 to inv.rows
        invariant forall q :: 0 <= q < r && row[q] != 0 ==> size <= |selected[q].shard.payload|
      {
        if row[r] != 0 && |selected[r].shard.payload| < size {
          TooShort(selected, size, r);
          return true;
        }
      }
    }
    forall r | 0 <= r < inv.rows ensures size <= |selected[r].shard.payload| {
      ColumnUsed(a, rows, inv.rows, r);
    }
    AllLong(selected, size);
    past := false;
  }

  lemma TooShort(selected: seq<Indexed>, size: nat, r: nat)
    requires r < |selected| && |selected[r].shard.payload| < size
    ensures !LongEnough(selected, size)
  {
  }

  lemma AllLong(selected: seq<Indexed>, size: nat)
    requires forall r :: 0 <= r < |selected| ==> size <= |selected[r].shard.payload|
    ensures LongEnough(selected, size)
  {
  }

  method Reconstruct(selected: seq<Indexed>, s: Schema, size: nat) returns (r: Result<seq<Bytes>, Error>)
    requires ValidSchema(s) && InRange(selected, s)
    ensures r == Err(InversionFailed) <==> !Distinct(Indices(selected))
    ensures r == Err(Panics) <==> Distinct(Indices(selected)) && !LongEnough(selected, size)
    ensures r.Ok? <==> Distinct(Indices(selected)) && LongEnough(selected, size)
    ensures r.Ok? ==> |r.value| == s.k && forall i :: 0 <= i < s.k ==> |r.value[i]| == size
    ensures r.Ok? ==> forall b :: 0 <= b < size ==> Recovers(selected, s, size, r.value, b)
  {
    hide Regular, Inverse, Selection, OnlySolution, Dot, Distinct, LongEnough;
    ghost var a := Selection(s.k, s.m, Indices(selected));
    var m := FillSelection(Indices(selected), s);
    var inv := m.Invert();
    if inv == null {
      InvertibleIff(s.k, s.m, Indices(selected), a);
      return Err(InversionFailed);
    }
    InvertibleIff(s.k, s.m, Indices(selected), inv.Rows());
    var past := ReadsPastEnd(inv, selected, size, a);
    if past {
      return Err(Panics);
    }
    var parts := Multiply(inv, selected, s, size, a);
    r := Ok(parts);
  }

  method Multiply(inv: Matrix, selected: seq<Indexed>, s: Schema, size: nat, ghost a: seq<Vec>)
    returns (parts: seq<Bytes>)
    requires ValidSchema(s) && Selectable(selected, s, size) && a == Selection(s.k, s.m, Indices(selected))
    requires inv.Valid() && inv.rows == inv.cols == s.k && Inverse(a, inv.Rows(), s.k)
    ensures |parts| == s.k && forall i :: 0 <= i < s.k ==> |parts[i]| == size
    ensures forall b :: 0 <= b < size ==> Recovers(selected, s, size, parts, b)
  {
    hide Regular, Inverse, Selection, OnlySolution, Dot;
    ghost var b := inv.Rows();
    var payloads := Payloads(selected);
    parts := [];
    for j := 0 to s.k
      invariant |parts| == j && forall i :: 0 <= i < j ==> |parts[i]| == size
      invariant forall i, c :: 0 <= i < j && 0 <= c < size ==> parts[i][c] == Dot(b[i], Across(payloads, c))
    {
      var row := RowOf(inv, j);
      var part := Combine(row, payloads, size);
      parts := parts + [part];
    }
    forall c | 0 <= c < size ensures Recovers(selected, s, size, parts, c) {
      InverseSolves(a, b, Across(payloads, c), Across(parts, c));
    }
  }

  /** The true data bytes solve the same system. */
  lemma TrueSolution(hash: Hash, selected: seq<Indexed>, n: nat, s: Schema, data: Bytes, id: Bytes, b: nat)
    requires ValidSchema(s) && Genuine(hash, selected, n, s, data, id)
    requires b < ShardSize(|data|, s.k) && Selectable(selected, s, ShardSize(|data|, s.k))
    ensures Maps(Selection(s.k, s.m, Indices(selected)), Column(data, s.k, b), Across(Payloads(selected), b))
  {
    hide Dot, Column, GeneratorRow, ShardSize;
  }

  lemma PartsAreData(hash: Hash, selected: seq<Indexed>, n: nat, s: Schema, data: Bytes, id: Bytes, parts: seq<Bytes>)
    requires ValidSchema(s) && Genuine(hash, selected, n, s, data, id)
    requires Selectable(selected, s, ShardSize(|data|, s.k))
    requires |parts| == s.k && forall i :: 0 <= i < s.k ==> |parts[i]| == ShardSize(|data|, s.k)
    requires forall b :: 0 <= b < ShardSize(|data|, s.k) ==> Recovers(selected, s, ShardSize(|data|, s.k), parts, b)
    ensures forall i :: 0 <= i < s.k ==> parts[i] == DataShard(data, s.k, i)
  {
    hide Genuine, Selection, Maps, ShardSize, DataShard;
    var size := ShardSize(|data|, s.k);
    forall i | 0 <= i < s.k ensures parts[i] == DataShard(data, s.k, i) {
      forall b | 0 <= b < size ensures parts[i][b] == DataShard(data, s.k, i)[b] {
        TrueSolution(hash, selected, n, s, data, id, b);
        assert Recovers(selected, s, size, parts, b);
        assert Across(parts, b)[i] == Column(data, s.k, b)[i];
      }
    }
  }

  // --- Decoding ---

  function Truncated(out: Bytes, n: nat): Bytes
  {
    if n < |out| then out[..n] else out
  }

  method Gather(hash: Hash, slots: seq<Option<Envelope>>) returns (valid: seq<Indexed>)
    ensures valid == Gathered(hash, slots, |slots|)
  {
    valid := [];
    for i := 0 to |slots|
      invariant valid == Gathered(hash, slots, i)
    {
      match slots[i]
      case None =>
      case Some(shard) =>
        if Verified(hash, shard) {
          valid := valid + [Indexed(Min(shard.index, i), shard)];
        }
    }
  }

  /** The first shard with the given index, or the number of shards if there is none. */
  method Find(valid: seq<Indexed>, index: nat) returns (p: nat)
    ensures p <= |valid| && (forall q :: 0 <= q < p ==> valid[q].index != index)
    ensures p < |valid| ==> valid[p].index == index
  {
    p := 0;
    while p < |valid| && valid[p].index != index
      invariant p <= |valid| && forall q :: 0 <= q < p ==> valid[q].index != index
    {
      p := p + 1;
    }
  }

  method HasAllData(valid: seq<Indexed>, k: nat) returns (all: bool)
    ensures all <==> forall i :: 0 <= i < k ==> i in Indices(valid)
  {
    for i := 0 to k
      invariant forall j :: 0 <= j < i ==> j in Indices(valid)
    {
      var p := Find(valid, i);
      if p == |valid| {
        assert i !in Indices(valid);
        return false;
      }
      assert Indices(valid)[p] == i;
    }
    all := true;
  }

  predicate Carries(valid: seq<Indexed>, index: nat, payload: Bytes)
  {
    exists p :: 0 <= p < |valid| && valid[p].index == index && valid[p].shard.payload == payload
  }

  /** `out` is the concatenation of payloads of shards with indices 0 to k - 1. */
  predicate Joined(valid: seq<Indexed>, k: nat, parts: seq<Bytes>, out: Bytes)
  {
    |parts| == k && out == Concat(parts, k) && forall i :: 0 <= i < k ==> Carries(valid, i, parts[i])
  }

  /** The fast path: the data shards themselves, in order. */
  method JoinData(valid: seq<Indexed>, k: nat) returns (out: Bytes)
    requires forall i :: 0 <= i < k ==> i in Indices(valid)
    ensures exists parts: seq<Bytes> :: Joined(valid, k, parts, out)
  {
    out := [];
    ghost var parts: seq<Bytes> := [];
    for i := 0 to k
      invariant Joined(valid, i, parts, out)
    {
      assert i in Indices(valid);
      var p := Find(valid, i);
      assert p < |valid| && Carries(valid, i, valid[p].shard.payload);
      ConcatPrefix(parts, valid[p].shard.payload, i);
      parts := parts + [valid[p].shard.payload];
      out := out + valid[p].shard.payload;
    }
  }

  lemma {:induction false} ConcatPrefix(parts: seq<Bytes>, more: Bytes, n: nat)
    requires n <= |parts|
    ensures Concat(parts + [more], n) == Concat(parts, n)
  {
    if n != 0 { ConcatPrefix(parts, more, n - 1); }
  }

  method Join(parts: seq<Bytes>) returns (out: Bytes)
    ensures out == Concat(parts, |parts|)
  {
    out := [];
    for i := 0 to |parts|
      invariant out == Concat(parts, i)
    {
      out := out + parts[i];
    }
  }

  lemma FastIsData(hash: Hash, valid: seq<Indexed>, n: nat, s: Schema, data: Bytes, id: Bytes, parts: seq<Bytes>)
    requires ValidSchema(s) && Genuine(hash, valid, n, s, data, id)
    requires |parts| == s.k && forall i :: 0 <= i < s.k ==> Carries(valid, i, parts[i])
    ensures Truncated(Concat(parts, s.k), |data|) == data
  {
    hide Shard, DataShard, Concat;
    forall i | 0 <= i < s.k ensures parts[i] == DataShard(data, s.k, i) {
      Systematic(data, s, i);
      EncodedFields(hash, data, s, id, i);
    }
    Joins(data, s.k, parts);
    JoinsWhole(Concat(parts, s.k), data);
  }

  lemma JoinsWhole(out: Bytes, data: Bytes)
    requires |data| <= |out| && out[..|data|] == data
    ensures Truncated(out, |data|) == data
  {
  }

  lemma GenuinePrefix(hash: Hash, valid: seq<Indexed>, n: nat, s: Schema, data: Bytes, id: Bytes)
    requires ValidSchema(s) && Genuine(hash, valid, n, s, data, id) && s.k <= |valid|
    ensures Genuine(hash, valid[..s.k], n, s, data, id) && Distinct(Indices(valid[..s.k]))
    ensures valid[0].shard.originalSize == |data| && |valid[0].shard.payload| == ShardSize(|data|, s.k)
    ensures Selectable(valid[..s.k], s, ShardSize(|data|, s.k))
  {
    hide Encoded, ShardSize, Shard;
    forall p | 0 <= p < |valid|
      ensures valid[p].shard.originalSize == |data| && |valid[p].shard.payload| == ShardSize(|data|, s.k)
    {
      EncodedFields(hash, data, s, id, valid[p].index);
    }
  }

  /** The inversion path returns the data whenever the shards are genuine. */
  lemma SlowIsData(hash: Hash, selected: seq<Indexed>, n: nat, s: Schema, data: Bytes, id: Bytes, parts: seq<Bytes>)
    requires ValidSchema(s) && Genuine(hash, selected, n, s, data, id)
    requires Selectable(selected, s, ShardSize(|data|, s.k))
    requires |parts| == s.k && forall i :: 0 <= i < s.k ==> |parts[i]| == ShardSize(|data|, s.k)
    requires forall b :: 0 <= b < ShardSize(|data|, s.k) ==> Recovers(selected, s, ShardSize(|data|, s.k), parts, b)
    ensures Truncated(Concat(parts, s.k), |data|) == data
  {
    hide Genuine, Selectable, Recovers, Concat, ShardSize;
    PartsAreData(hash, selected, n, s, data, id, parts);
    Joins(data, s.k, parts);
    JoinsWhole(Concat(parts, s.k), data);
  }

  /** Which way decoding fails, if it does. */
  predicate FailsWith(valid: seq<Indexed>, s: Schema, e: Error)
    requires 0 < s.k
  {
    if |valid| < s.k then e == Unrecoverable
    else if forall i :: 0 <= i < s.k ==> i in Indices(valid) then false
    else if !InRange(valid[..s.k], s) then e == Panics
    else if !Distinct(Indices(valid[..s.k])) then e == InversionFailed
    else e == Panics && !LongEnough(valid[..s.k], |valid[0].shard.payload|)
  }

  /** So two data shards in each other's slots are taken for the same one, and decoding fails. */
  lemma ExchangedFails(hash: Hash, a: Envelope, b: Envelope, m: nat)
    requires Verified(hash, a) && Verified(hash, b) && a.index == 1 && b.index == 0 && 0 < m <= 254
    ensures FailsWith(Gathered(hash, [Some(a), Some(b)], 2), Schema(2, m), InversionFailed)
  {
    hide Verified;
    var slots := [Some(a), Some(b)];
    var valid := Gathered(hash, slots, 2);
    assert Gathered(hash, slots, 1) == Gathered(hash, slots, 0) + [Indexed(0, a)];
    assert valid == [Indexed(0, a), Indexed(0, b)];
    assert 1 !in Indices(valid) && valid[..2] == valid;
    assert Indices(valid)[0] == Indices(valid)[1];
  }

  /** Genuine shards do not fail once there are K of them. */
  lemma GenuineSucceeds(hash: Hash, valid: seq<Indexed>, n: nat, s: Schema, data: Bytes, id: Bytes, e: Error)
    requires ValidSchema(s) && Genuine(hash, valid, n, s, data, id) && s.k <= |valid|
    ensures !FailsWith(valid, s, e)
  {
    hide Genuine, ShardSize, Distinct, InRange, LongEnough;
    GenuinePrefix(hash, valid, n, s, data, id);
  }

  /**
   * Decoding fails in exactly the ways `FailsWith` lists: too few intact shards, a selected index past the
   * generator, an index selected twice, or a selected payload shorter than the first. Otherwise, any
   * object that the intact shards were encoded from is returned.
   */
  method Decode(hash: Hash, slots: seq<Option<Envelope>>, s: Schema) returns (r: Result<Bytes, Error>)
    requires ValidSchema(s)
    ensures forall e: Error :: r == Err(e) <==> FailsWith(Gathered(hash, slots, |slots|), s, e)
    ensures |Gathered(hash, slots, |slots|)| < s.k ==> r == Err(Unrecoverable)
    ensures s.k <= |Gathered(hash, slots, |slots|)| ==>
      forall data: Bytes, id: Bytes :: Honest(hash, slots, s, data, id) ==> r == Ok(data)
  {
    hide Honest, Genuine, Gathered, Concat, Recovers, Regular, ShardSize;
    var valid := Gather(hash, slots);
    if |valid| < s.k {
      return Err(Unrecoverable);
    }
    var originalSize := valid[0].shard.originalSize;
    var all := HasAllData(valid, s.k);
    if all {
      var out := JoinData(valid, s.k);
      ghost var parts: seq<Bytes> :| Joined(valid, s.k, parts, out);
      r := Ok(Truncated(out, originalSize));
      forall data: Bytes, id: Bytes | Honest(hash, slots, s, data, id) ensures r == Ok(data) {
        GatheredGenuine(hash, slots, |slots|, s, data, id);
        GenuinePrefix(hash, valid, |slots|, s, data, id);
        FastIsData(hash, valid, |slots|, s, data, id, parts);
      }
    } else {
      r := DecodeSlow(hash, slots, s, valid);
    }
  }

  method DecodeSlow(hash: Hash, slots: seq<Option<Envelope>>, s: Schema, valid: seq<Indexed>)
    returns (r: Result<Bytes, Error>)
    requires ValidSchema(s)
    requires valid == Gathered(hash, slots, |slots|) && s.k <= |valid|
    requires !forall i :: 0 <= i < s.k ==> i in Indices(valid)
    ensures forall e: Error :: r == Err(e) <==> FailsWith(valid, s, e)
    ensures forall data: Bytes, id: Bytes :: Honest(hash, slots, s, data, id) ==> r == Ok(data)
  {
    hide Honest, Genuine, Gathered, Concat, Recovers, Regular, ShardSize, Selection, Distinct, LongEnough;
    var size := |valid[0].shard.payload|;
    var selected := valid[..s.k];
    var parts: Result<seq<Bytes>, Error> := Err(Panics);
    if InRange(selected, s) {
      parts := Reconstruct(selected, s, size);
    }
    if parts.Err? {
      r := Err(parts.error);
      forall data: Bytes, id: Bytes ensures !Honest(hash, slots, s, data, id) {
        if Honest(hash, slots, s, data, id) {
          GatheredGenuine(hash, slots, |slots|, s, data, id);
          GenuineSucceeds(hash, valid, |slots|, s, data, id, parts.error);
        }
      }
      return;
    }
    var out := Join(parts.value);
    r := Ok(Truncated(out, valid[0].shard.originalSize));
    forall data: Bytes, id: Bytes | Honest(hash, slots, s, data, id) ensures r == Ok(data) {
      GatheredGenuine(hash, slots, |slots|, s, data, id);
      GenuinePrefix(hash, valid, |slots|, s, data, id);
      SlowIsData(hash, selected, |slots|, s, data, id, parts.value);
    }
  }

  // --- Rebuilding the full set ---

  /** The first `n` available shards put into their slots, the last one for a slot winning. */
  function Placed(hash: Hash, available: seq<Envelope>, total: nat, n: nat): (slots: seq<Option<Envelope>>)
    requires n <= |available|
    ensures |slots| == total
  {
    if n == 0 then seq(total, _ => None)
    else
      var slots, e := Placed(hash, available, total, n - 1), available[n - 1];
      if e.index < total && Verified(hash, e) then slots[e.index := Some(e)] else slots
  }

  /** Every intact shard in the list is the encoder's. */
  predicate AllGenuine(hash: Hash, available: seq<Envelope>, s: Schema, data: Bytes, id: Bytes)
    requires ValidSchema(s)
  {
    forall i :: 0 <= i < |available| && available[i].index < s.k + s.m && Verified(hash, available[i]) ==>
      available[i] == Encoded(hash, data, s, id)[available[i].index]
  }

  /** The slots the intact shards in the list belong to. */
  ghost function Held(hash: Hash, available: seq<Envelope>, total: nat): set<int>
  {
    set i | 0 <= i < |available| && available[i].index < total && Verified(hash, available[i]) :: available[i].index
  }

  lemma {:induction false} PlacedFrom(hash: Hash, available: seq<Envelope>, total: nat, n: nat)
    requires n <= |available|
    ensures forall i :: 0 <= i < total && Placed(hash, available, total, n)[i].Some? ==>
      var e := Placed(hash, available, total, n)[i].value;
      e.index == i && Verified(hash, e) && e in available[..n]
  {
    if n != 0 {
      PlacedFrom(hash, available, total, n - 1);
      assert available[..n] == available[..n - 1] + [available[n - 1]];
    }
  }

  lemma {:induction false} PlacedHolds(hash: Hash, available: seq<Envelope>, total: nat, n: nat)
    requires n <= |available|
    ensures forall i :: 0 <= i < total ==>
      (Placed(hash, available, total, n)[i].Some? <==> i in Held(hash, available[..n], total))
  {
    if n != 0 {
      PlacedHolds(hash, available, total, n - 1);
      var e: Envelope := available[n - 1];
      var more: set<int> := if e.index < total && Verified(hash, e) then {e.index} else {};
      assert available[..n] == available[..n - 1] + [e];
      assert Held(hash, available[..n], total) == Held(hash, available[..n - 1], total) + more;
    }
  }

  ghost function Filled(hash: Hash, slots: seq<Option<Envelope>>, n: nat): set<int>
    requires n <= |slots|
  {
    set i | 0 <= i < n && IsIntact(hash, slots[i])
  }

  lemma {:induction false} GatheredCounts(hash: Hash, slots: seq<Option<Envelope>>, n: nat)
    requires n <= |slots|
    ensures |Gathered(hash, slots, n)| == |Filled(hash, slots, n)|
  {
    hide Verified;
    if n == 0 {
      assert Filled(hash, slots, n) == {};
    } else {
      GatheredCounts(hash, slots, n - 1);
      var more: set<int> := if IsIntact(hash, slots[n - 1]) then {n - 1} else {};
      assert Filled(hash, slots, n) == Filled(hash, slots, n - 1) + more;
    }
  }

  /** As many shards are gathered from the slots as there are distinct intact shards in the list. */
  lemma PlacedCount(hash: Hash, available: seq<Envelope>, total: nat)
    ensures |Gathered(hash, Placed(hash, available, total, |available|), total)| == |Held(hash, available, total)|
  {
    hide Placed, Gathered;
    var slots := Placed(hash, available, total, |available|);
    assert available[..|available|] == available;
    PlacedFrom(hash, available, total, |available|);
    PlacedHolds(hash, available, total, |available|);
    GatheredCounts(hash, slots, total);
    assert Filled(hash, slots, total) == Held(hash, available, total);
  }

  lemma PlacedHonest(hash: Hash, available: seq<Envelope>, s: Schema, data: Bytes, id: Bytes)
    requires ValidSchema(s) && AllGenuine(hash, available, s, data, id)
    ensures Honest(hash, Placed(hash, available, s.k + s.m, |available|), s, data, id)
  {
    hide Placed, Encoded, Verified;
    PlacedFrom(hash, available, s.k + s.m, |available|);
  }

  const FALLBACK_ID: Bytes :=
    [114, 101, 99, 111, 110, 115, 116, 114, 117, 99, 116, 101, 100, 95, 111, 98, 106, 101, 99, 116]

  /** From intact shards for at least K slots, the complete set that the encoder made. */
  method ReconstructAll(hash: Hash, available: seq<Envelope>, s: Schema) returns (r: Result<seq<Envelope>, Error>)
    requires ValidSchema(s)
    ensures |Held(hash, available, s.k + s.m)| < s.k ==> r == Err(Unrecoverable)
    ensures s.k <= |Held(hash, available, s.k + s.m)| ==> forall data: Bytes, id: Bytes ::
      AllGenuine(hash, available, s, data, id) && |available| > 0 && available[0].objectId == id ==>
        r == Ok(Encoded(hash, data, s, id))
  {
    hide Honest, Gathered, Encoded, Held, AllGenuine, Verified;
    var total := s.k + s.m;
    var slots: seq<Option<Envelope>> := seq(total, _ => None);
    for i := 0 to |available|
      invariant slots == Placed(hash, available, total, i)
    {
      var e := available[i];
      if e.index < total && Verified(hash, e) {
        slots := slots[e.index := Some(e)];
      }
    }
    PlacedCount(hash, available, total);
    forall data: Bytes, id: Bytes | AllGenuine(hash, available, s, data, id) ensures Honest(hash, slots, s, data, id) {
      PlacedHonest(hash, available, s, data, id);
    }
    var decoded := Decode(hash, slots, s);
    if decoded.Err? {
      return Err(decoded.error);
    }
    var objectId := if |available| > 0 then available[0].objectId else FALLBACK_ID;
    var shards := Encode(hash, decoded.value, s, objectId);
    r := Ok(shards);
  }
}
