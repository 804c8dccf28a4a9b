/** What the chunk sizes and the reassembled stream are guaranteed to be. */
module ChunkGuarantees {
  import opened Words
  import opened Wrappers
  import opened Chunking
  import opened Chunkers
  import opened ChunkReader

  /** Either a fixed size, or a target strictly between the bounds. */
  function NewParams(min: nat, target: nat, max: nat): (r: Option<Params>)
    ensures r.Some? <==> 0 < min && 0 < max && (min == target == max || min < target < max)
    ensures r.Some? ==> r.value == Params(min, target, max)
  {
    if min == 0 || max == 0 then None
    else if min == target && target == max then Some(Params(min, target, max))
    else if min >= max || target <= min || target >= max then None
    else Some(Params(min, target, max))
  }

  function CdcParams(min: nat, target: nat, max: nat): (r: Option<Params>)
    ensures r.Some? <==> 0 < min < target < max
    ensures r.Some? ==> r.value == Params(min, target, max)
  {
    if min == 0 || max == 0 || min >= max || target <= min || target >= max then None
    else Some(Params(min, target, max))
  }

  /** The smallest chunk that is not the last: fast skipping puts it one byte above the minimum. */
  function Floor(mode: Mode, p: Params): nat
  {
    match mode
    case Fixed => p.target
    case Cdc => p.min
    case FastCdc => p.min + 1
  }

  function Ceiling(mode: Mode, p: Params): nat
  {
    if mode == Fixed then p.target else p.max
  }

  /** Parameters that the mode can keep to; of those `NewParams` accepts, only FastCDC with one fixed size is not. */
  predicate Bounded(mode: Mode, p: Params)
  {
    match mode
    case Fixed => 0 < p.target
    case Cdc => 0 < p.min <= p.max
    case FastCdc => p.min < p.max
  }

  lemma AcceptedIsBounded(mode: Mode, min: nat, target: nat, max: nat)
    requires NewParams(min, target, max).Some?
    ensures Bounded(mode, NewParams(min, target, max).value) <==> mode != FastCdc || min != max
  {
  }

  lemma RuleBounds(mode: Mode, p: Params, gear: Gear32, gear64: Gear64)
    requires Bounded(mode, p)
    ensures Shortest(RuleFor(mode, p, gear, gear64)) == Floor(mode, p)
    ensures Longest(RuleFor(mode, p, gear, gear64)) == Ceiling(mode, p)
  {
  }

  /** Every chunk but the last lies between the bounds, and the last is not longer than the upper one. */
  lemma ChunkSizes(mode: Mode, p: Params, gear: Gear32, gear64: Gear64, stream: Bytes)
    requires Bounded(mode, p)
    ensures var lengths := Lengths(RuleFor(mode, p, gear, gear64), stream);
      && (forall i :: 0 <= i < |lengths| - 1 ==> Floor(mode, p) <= lengths[i] <= Ceiling(mode, p))
      && (lengths != [] ==> 0 < lengths[|lengths| - 1] <= Ceiling(mode, p))
  {
    hide RuleFor, After, Cuts, Shortest, Longest;
    var r := RuleFor(mode, p, gear, gear64);
    RuleBounds(mode, p, gear, gear64);
    Starts(r);
    Bounds(r, FRESH, stream);
    var cuts, lengths := Cuts(r, FRESH, stream), Lengths(r, stream);
    assert forall i :: 0 <= i < |cuts| ==> lengths[i] == cuts[i] && cuts[i] in cuts;
  }

  function Bodies(chunks: seq<Chunk>): (b: seq<Bytes>)
    ensures |b| == |chunks|
  {
    seq(|chunks|, i requires 0 <= i < |chunks| => chunks[i].bytes)
  }

  /** Concatenating what is handed out gives the stream back. */
  lemma Reassembles(hash: Hash, rule: Rule, stream: Bytes, chunks: seq<Chunk>)
    requires Total(Lengths(rule, stream)) == |stream|
    requires Delivers(hash, chunks, Pieces(stream, Lengths(rule, stream)))
    ensures Concat(Bodies(chunks)) == stream
    ensures forall i :: 0 <= i < |chunks| ==> (chunks[i].desc.Hole? <==> AllZero(chunks[i].bytes))
  {
    hide Lengths, Total, Pieces, AllZero;
    PiecesJoin(stream, Lengths(rule, stream));
    assert Bodies(chunks) == Pieces(stream, Lengths(rule, stream));
  }

  // --- Where the upper bound fails ---

  lemma FirstFastCut(r: Rule, data: Bytes)
    requires r.FastRule? && |data| == r.low + 1 && r.high <= r.low
    ensures Cuts(r, FRESH, data) == [r.low + 1]
  {
    hide Natural;
    FastSkip(r, FRESH, data[..r.low]);
  }

  /** A FastCDC chunker keeps every chunk within `max` exactly when `min` is less than `max`. */
  lemma FastWithinMaxIff(p: Params, gear64: Gear64)
    ensures (forall data: Bytes, n: nat :: n in Cuts(FastRuleFor(p, gear64), FRESH, data) ==> n <= p.max) <==>
      p.min < p.max
  {
    hide Cuts, Log2, Shortest;
    var r := FastRuleFor(p, gear64);
    if p.min < p.max {
      forall data: Bytes, n: nat | n in Cuts(r, FRESH, data) ensures n <= p.max {
        Starts(r);
        Bounds(r, FRESH, data);
      }
    } else {
      var data: Bytes := seq(p.min + 1, _ => 0);
      FirstFastCut(r, data);
      assert p.min + 1 in Cuts(r, FRESH, data);
    }
  }

  /** So a fixed-size setting, which is accepted, makes FastCDC cut one byte too late. */
  lemma FixedSizeOvershoots(size: nat, gear64: Gear64)
    requires 0 < size
    ensures NewParams(size, size, size).Some?
    ensures Cuts(FastRuleFor(Params(size, size, size), gear64), FRESH, seq(size + 1, _ => 0)) == [size + 1]
  {
    hide Cuts, Log2;
    FirstFastCut(FastRuleFor(Params(size, size, size), gear64), seq(size + 1, _ => 0));
  }
}
