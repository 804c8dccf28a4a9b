/** Chunk boundaries as a machine that looks at one byte at a time. */
module Chunking {
  import opened Words

  /** The tables that mix a byte into a hash. */
  type Gear32 = u8 -> u8
  type Gear64 = u8 -> u64

  datatype Params = Params(min: nat, target: nat, max: nat)

  /** How a chunker decides: by count, by a 32-bit rolling hash, or by a 64-bit hash after skipping `min` bytes. */
  datatype Rule =
    | FixedRule(target: nat)
    | RollingRule(min: nat, max: nat, bits: nat, gear: Gear32)
    | FastRule(low: nat, middle: nat, high: nat, strict: nat, loose: nat, table: Gear64)

  /** Bytes taken into the current chunk, and the hash over them. */
  datatype State = State(count: nat, hash: nat)

  const FRESH := State(0, 0)

  /** Takes one byte into the current chunk. */
  function Absorb(r: Rule, s: State, b: u8): State
  {
    match r
    case FixedRule(_) => State(s.count + 1, s.hash)
    case RollingRule(_, _, _, gear) => State(s.count + 1, (s.hash * 16 + gear(b)) % 0x1_0000_0000)
    case FastRule(low, _, _, _, _, table) =>
      if s.count < low then State(s.count + 1, s.hash)
      else State(s.count + 1, (s.hash * 2 + table(b)) % 0x1_0000_0000_0000_0000)
  }

  /** Whether the hash alone asks for a cut. */
  predicate Natural(r: Rule, s: State)
  {
    match r
    case FixedRule(_) => false
    case RollingRule(_, _, bits, _) => s.hash % Pow2(bits) == 0
    case FastRule(_, middle, _, strict, loose, _) => s.hash % Pow2(if s.count < middle then strict else loose) == 0
  }

  /** Whether the chunk ends after the byte that led to `s`. */
  predicate Cut(r: Rule, s: State)
  {
    match r
    case FixedRule(target) => s.count >= target
    case RollingRule(min, max, _, _) => (Natural(r, s) && s.count >= min) || s.count >= max
    case FastRule(low, _, high, _, _, _) => s.count > low && (Natural(r, s) || s.count >= high)
  }

  function Step(r: Rule, s: State, b: u8): State
  {
    if Cut(r, Absorb(r, s, b)) then FRESH else Absorb(r, s, b)
  }

  /** The state after a stretch of the stream. */
  function After(r: Rule, s: State, data: Bytes): State
  {
    if |data| == 0 then s else Step(r, After(r, s, data[..|data| - 1]), data[|data| - 1])
  }

  /** The lengths of the chunks that end within a stretch. */
  function Cuts(r: Rule, s: State, data: Bytes): seq<nat>
  {
    if |data| == 0 then []
    else
      var n := |data| - 1;
      var t := Absorb(r, After(r, s, data[..n]), data[n]);
      Cuts(r, s, data[..n]) + if Cut(r, t) then [t.count] else []
  }

  // --- Independence of read sizes ---

  /** Feeding a stream in two stretches gives the cuts of feeding it at once. */
  lemma {:induction false} Splits(r: Rule, s: State, a: Bytes, b: Bytes)
    ensures After(r, s, a + b) == After(r, After(r, s, a), b)
    ensures Cuts(r, s, a + b) == Cuts(r, s, a) + Cuts(r, After(r, s, a), b)
  {
    hide Step, Cut, Absorb;
    if |b| == 0 {
      assert a + b == a;
    } else {
      var n := |b| - 1;
      Splits(r, s, a, b[..n]);
      assert (a + b)[..|a + b| - 1] == a + b[..n];
    }
  }

  // --- Tiling ---

  function Total(lengths: seq<nat>): nat
  {
    if |lengths| == 0 then 0 else Total(lengths[..|lengths| - 1]) + lengths[|lengths| - 1]
  }

  lemma TotalSnoc(lengths: seq<nat>, n: nat)
    ensures Total(lengths + [n]) == Total(lengths) + n
  {
    assert (lengths + [n])[..|lengths|] == lengths;
  }

  /** Chunks and the open remainder add up to the bytes taken in. */
  lemma {:induction false} Tiles(r: Rule, s: State, data: Bytes)
    ensures Total(Cuts(r, s, data)) + After(r, s, data).count == s.count + |data|
  {
    hide Cut;
    if |data| != 0 {
      var n := |data| - 1;
      Tiles(r, s, data[..n]);
      var t := Absorb(r, After(r, s, data[..n]), data[n]);
      if Cut(r, t) {
        TotalSnoc(Cuts(r, s, data[..n]), t.count);
      } else {
        assert Cuts(r, s, data) == Cuts(r, s, data[..n]);
      }
    }
  }

  // --- Chunk lengths ---

  function Shortest(r: Rule): nat
  {
    match r
    case FixedRule(target) => if target == 0 then 1 else target
    case RollingRule(min, max, _, _) => var m := if min < max then min else max; if m == 0 then 1 else m
    case FastRule(low, _, _, _, _, _) => low + 1
  }

  function Longest(r: Rule): nat
  {
    match r
    case FixedRule(target) => if target == 0 then 1 else target
    case RollingRule(_, max, _, _) => if max == 0 then 1 else max
    case FastRule(low, _, high, _, _, _) => if low < high then high else low + 1
  }

  /** A chunk that has not been cut is shorter than the longest chunk. */
  predicate Open(r: Rule, s: State)
  {
    s.count < Longest(r)
  }

  lemma AbsorbCuts(r: Rule, s: State, b: u8)
    requires Open(r, s)
    ensures var t := Absorb(r, s, b);
      if Cut(r, t) then Shortest(r) <= t.count <= Longest(r) else Open(r, t)
  {
    hide Natural;
  }

  /** Every chunk cut from a stream has a length between the rule's bounds, and the remainder is below the upper one. */
  lemma {:induction false} Bounds(r: Rule, s: State, data: Bytes)
    requires Open(r, s)
    ensures Open(r, After(r, s, data))
    ensures forall n :: n in Cuts(r, s, data) ==> Shortest(r) <= n <= Longest(r)
  {
    hide Cut, Absorb, Shortest, Longest, Open;
    if |data| != 0 {
      var n := |data| - 1;
      Bounds(r, s, data[..n]);
      AbsorbCuts(r, After(r, s, data[..n]), data[n]);
      Starts(r);
    }
  }

  lemma Starts(r: Rule)
    ensures Open(r, FRESH)
  {
  }
}
