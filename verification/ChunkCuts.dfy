/** Where streams are cut, in terms of the parameters and of the bytes alone. */
module ChunkCuts {
  import opened Words
  import opened Chunking
  import opened ChunkResync
  import opened Chunkers
  import opened ChunkReader

  /** The position of the highest bit of the target size. */
  predicate HighestBit(target: nat, bits: nat)
  {
    if target <= 1 then bits == 0 else Pow2(bits) <= target < Pow2(bits + 1)
  }

  function Between(low: nat, x: int, high: nat): nat
    requires low <= high
  {
    if x < low then low else if high < x then high else x
  }

  /**
   * A chunk that starts where `data` starts ends after `n` bytes. With Rolling: at the maximum, or from the minimum on
   * where the hash of all its bytes ends in as many zeros as the target has bits. With FastCDC: past the minimum, at
   * the maximum or where the hash of the bytes past the minimum ends in one zero more below the target, one fewer from
   * the target on.
   */
  predicate CutsAt(mode: Mode, p: Params, gear: Gear32, gear64: Gear64, bits: nat, data: Bytes, n: nat)
    requires n <= |data|
  {
    match mode
    case Fixed => n >= p.target
    case Cdc =>
      || n >= p.max
      || (n >= p.min && Fold(4, 32, (b: u8) => gear(b) as nat, 0, data[..n]) % Pow2(Between(1, bits, 32)) == 0)
    case FastCdc =>
      && n > p.min
      && (n >= p.max ||
          Fold(1, 64, (b: u8) => gear64(b) as nat, 0, data[p.min..n]) %
          Pow2(if n < p.target then Between(1, bits + 1, 63) else Between(1, bits - 1, 63)) == 0)
  }

  lemma {:induction false} Log2Range(n: nat)
    requires 1 <= n
    ensures Pow2(Log2(n)) <= n < Pow2(Log2(n) + 1)
  {
    if n != 1 { Log2Range(n / 2); }
  }

  lemma {:induction false} Pow2Grows(a: nat, b: nat)
    requires a <= b
    ensures Pow2(a) <= Pow2(b)
  {
    if a < b { Pow2Grows(a, b - 1); }
  }

  lemma Log2Is(target: nat, bits: nat)
    requires HighestBit(target, bits)
    ensures Log2(target) == bits
  {
    if 1 < target {
      hide Log2, Pow2;
      var log := Log2(target);
      Log2Range(target);
      if bits < log { Pow2Grows(bits + 1, log); }
      if log < bits { Pow2Grows(log + 1, bits); }
    }
  }

  lemma RuleBits(mode: Mode, p: Params, gear: Gear32, gear64: Gear64, bits: nat)
    requires HighestBit(p.target, bits)
    ensures RuleFor(mode, p, gear, gear64) == match mode
      case Fixed => FixedRule(p.target)
      case Cdc => RollingRule(p.min, p.max, Between(1, bits, 32), gear)
      case FastCdc => FastRule(p.min, p.target, p.max, Between(1, bits + 1, 63), Between(1, bits - 1, 63), gear64)
  {
    hide Log2, Pow2;
    Log2Is(p.target, bits);
  }

  /** The state after `n` bytes in which no chunk ends, and whether one ends with the next. */
  lemma NextCut(mode: Mode, p: Params, gear: Gear32, gear64: Gear64, bits: nat, data: Bytes)
    requires HighestBit(p.target, bits) && data != []
    requires Cuts(RuleFor(mode, p, gear, gear64), FRESH, data[..|data| - 1]) == []
    ensures var r, n := RuleFor(mode, p, gear, gear64), |data|;
      && Absorb(r, After(r, FRESH, data[..n - 1]), data[n - 1]).count == n
      && (Cut(r, Absorb(r, After(r, FRESH, data[..n - 1]), data[n - 1])) <==>
           CutsAt(mode, p, gear, gear64, bits, data, n))
  {
    hide HighestBit, After, Cuts, Fold, Pow2, RuleFor;
    RuleBits(mode, p, gear, gear64, bits);
    var r, n := RuleFor(mode, p, gear, gear64), |data|;
    match mode
    case Fixed => FixedUncut(r, data[..n - 1]);
    case Cdc =>
      Uncut(r, FRESH, data[..n - 1]);
      AbsorbedHash(r, FRESH, data[..n - 1], data[n - 1]);
      assert data[..n - 1] + [data[n - 1]] == data == data[..n];
    case FastCdc => FastNext(r, data);
  }

  lemma {:induction false} FixedUncut(r: Rule, data: Bytes)
    requires r.FixedRule? && Cuts(r, FRESH, data) == []
    ensures After(r, FRESH, data).count == |data|
  {
    if data != [] { FixedUncut(r, data[..|data| - 1]); }
  }

  lemma FastNext(r: Rule, data: Bytes)
    requires r.FastRule? && data != [] && Cuts(r, FRESH, data[..|data| - 1]) == []
    ensures var n := |data|; var t := Absorb(r, After(r, FRESH, data[..n - 1]), data[n - 1]);
      t.count == n && (r.low < n ==> t.hash == Fold(1, 64, (b: u8) => r.table(b) as nat, 0, data[r.low..n]))
  {
    hide After, Cuts, Fold;
    var n := |data|;
    if n - 1 <= r.low {
      FastSkip(r, FRESH, data[..n - 1]);
      if r.low == n - 1 {
        var s := State(r.low, 0);
        NoCuts(r, s);
        AbsorbedHash(r, s, [], data[n - 1]);
        assert [] + [data[n - 1]] == data[r.low..n];
      }
    } else {
      var head, tail := data[..r.low], data[r.low..n - 1];
      FastSkip(r, FRESH, head);
      Splits(r, FRESH, head, tail);
      assert data[..n - 1] == head + tail;
      Uncut(r, State(r.low, 0), tail);
      AbsorbedHash(r, State(r.low, 0), tail, data[n - 1]);
      assert tail + [data[n - 1]] == data[r.low..n];
    }
  }

  lemma NoCuts(r: Rule, s: State)
    ensures Cuts(r, s, []) == [] && After(r, s, []) == s
  {
  }

  /** Where no length fits, there is no cut. */
  lemma {:induction false} NoCut(mode: Mode, p: Params, gear: Gear32, gear64: Gear64, bits: nat, data: Bytes)
    requires HighestBit(p.target, bits)
    requires forall n :: 1 <= n <= |data| ==> !CutsAt(mode, p, gear, gear64, bits, data, n)
    ensures Cuts(RuleFor(mode, p, gear, gear64), FRESH, data) == []
  {
    hide HighestBit, RuleFor, CutsAt, Cut, Absorb, After;
    if data != [] {
      var rest := data[..|data| - 1];
      forall n: nat | n <= |rest| ensures
        CutsAt(mode, p, gear, gear64, bits, rest, n) <==> CutsAt(mode, p, gear, gear64, bits, data, n)
      {
        SameStart(mode, p, gear, gear64, bits, rest, data, n);
      }
      NoCut(mode, p, gear, gear64, bits, rest);
      NextCut(mode, p, gear, gear64, bits, data);
    }
  }

  lemma SameStart(mode: Mode, p: Params, gear: Gear32, gear64: Gear64, bits: nat, a: Bytes, b: Bytes, n: nat)
    requires n <= |a| && a <= b
    ensures CutsAt(mode, p, gear, gear64, bits, a, n) <==> CutsAt(mode, p, gear, gear64, bits, b, n)
  {
    hide Fold, Pow2;
    assert a[..n] == b[..n];
    if p.min < n { assert a[p.min..n] == b[p.min..n]; }
  }

  /** Otherwise the least length that fits is the first chunk, and the rest is cut as a stream of its own. */
  lemma FirstCut(mode: Mode, p: Params, gear: Gear32, gear64: Gear64, bits: nat, data: Bytes, n: nat)
    requires HighestBit(p.target, bits) && 1 <= n <= |data| && CutsAt(mode, p, gear, gear64, bits, data, n)
    requires forall m :: 1 <= m < n ==> !CutsAt(mode, p, gear, gear64, bits, data, m)
    ensures var r := RuleFor(mode, p, gear, gear64); Cuts(r, FRESH, data) == [n] + Cuts(r, FRESH, data[n..])
  {
    hide HighestBit, RuleFor, CutsAt, Cuts, After, Absorb, Cut;
    BeforeFirst(mode, p, gear, gear64, bits, data, n);
    StartEnds(mode, p, gear, gear64, bits, data, n);
    Rejoins(RuleFor(mode, p, gear, gear64), data, n);
  }

  lemma StartEnds(mode: Mode, p: Params, gear: Gear32, gear64: Gear64, bits: nat, data: Bytes, n: nat)
    requires HighestBit(p.target, bits) && 1 <= n <= |data| && CutsAt(mode, p, gear, gear64, bits, data, n)
    requires Cuts(RuleFor(mode, p, gear, gear64), FRESH, data[..n][..n - 1]) == []
    ensures var r := RuleFor(mode, p, gear, gear64);
      Cuts(r, FRESH, data[..n]) == [n] && After(r, FRESH, data[..n]) == FRESH
  {
    hide HighestBit, RuleFor, CutsAt, Cuts, After, Absorb, Cut;
    var head := data[..n];
    SameStart(mode, p, gear, gear64, bits, head, data, n);
    EndsHere(mode, p, gear, gear64, bits, head);
  }

  lemma Rejoins(r: Rule, data: Bytes, n: nat)
    requires n <= |data| && Cuts(r, FRESH, data[..n]) == [n] && After(r, FRESH, data[..n]) == FRESH
    ensures Cuts(r, FRESH, data) == [n] + Cuts(r, FRESH, data[n..])
  {
    hide Cuts, After;
    Splits(r, FRESH, data[..n], data[n..]);
    assert data[..n] + data[n..] == data;
  }

  lemma BeforeFirst(mode: Mode, p: Params, gear: Gear32, gear64: Gear64, bits: nat, data: Bytes, n: nat)
    requires HighestBit(p.target, bits) && 1 <= n <= |data|
    requires forall m :: 1 <= m < n ==> !CutsAt(mode, p, gear, gear64, bits, data, m)
    ensures Cuts(RuleFor(mode, p, gear, gear64), FRESH, data[..n][..n - 1]) == []
  {
    hide HighestBit, RuleFor, CutsAt, Cuts;
    var before := data[..n][..n - 1];
    forall m | 1 <= m <= |before| ensures !CutsAt(mode, p, gear, gear64, bits, before, m) {
      SameStart(mode, p, gear, gear64, bits, before, data, m);
    }
    NoCut(mode, p, gear, gear64, bits, before);
  }

  lemma EndsHere(mode: Mode, p: Params, gear: Gear32, gear64: Gear64, bits: nat, head: Bytes)
    requires HighestBit(p.target, bits) && head != [] && CutsAt(mode, p, gear, gear64, bits, head, |head|)
    requires Cuts(RuleFor(mode, p, gear, gear64), FRESH, head[..|head| - 1]) == []
    ensures var r := RuleFor(mode, p, gear, gear64); Cuts(r, FRESH, head) == [|head|] && After(r, FRESH, head) == FRESH
  {
    hide HighestBit, RuleFor, CutsAt, Cuts, After, Absorb, Cut;
    NextCut(mode, p, gear, gear64, bits, head);
    CutHere(RuleFor(mode, p, gear, gear64), head);
  }

  lemma CutHere(r: Rule, head: Bytes)
    requires head != [] && Cuts(r, FRESH, head[..|head| - 1]) == []
    requires var t := Absorb(r, After(r, FRESH, head[..|head| - 1]), head[|head| - 1]); Cut(r, t) && t.count == |head|
    ensures Cuts(r, FRESH, head) == [|head|] && After(r, FRESH, head) == FRESH
  {
    hide Absorb, Cut;
  }
}
