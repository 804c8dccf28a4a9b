/** The three chunkers as they run over read buffers. */
module Chunkers {
  import opened Numbers
  import opened Wrappers
  import opened Words
  import opened Chunking

  datatype Boundary = Boundary(offset: nat, length: nat)

  datatype Error = AfterFinish | ZeroTarget

  /** What a chunker stands for. */
  datatype View = View(rule: Rule, state: State, next: nat, finished: bool)

  /** Consecutive chunks of the given lengths from `at` on. */
  function Located(at: nat, lengths: seq<nat>): seq<Boundary>
  {
    if |lengths| == 0 then []
    else
      var n := |lengths| - 1;
      Located(at, lengths[..n]) + [Boundary(at + Total(lengths[..n]), lengths[n])]
  }

  function Pushed(v: View, buf: Bytes): View
  {
    var cuts := Cuts(v.rule, v.state, buf);
    v.(state := After(v.rule, v.state, buf), next := v.next + Total(cuts))
  }

  function Emitted(v: View, buf: Bytes): seq<Boundary>
  {
    Located(v.next, Cuts(v.rule, v.state, buf))
  }

  function Finished(v: View): View
  {
    v.(state := v.state.(count := 0), next := v.next + v.state.count, finished := true)
  }

  function Trailing(v: View): Option<Boundary>
  {
    if v.state.count == 0 then None else Some(Boundary(v.next, v.state.count))
  }

  lemma LocatedSnoc(at: nat, lengths: seq<nat>, n: nat)
    ensures Located(at, lengths + [n]) == Located(at, lengths) + [Boundary(at + Total(lengths), n)]
    ensures Total(lengths + [n]) == Total(lengths) + n
  {
    assert (lengths + [n])[..|lengths|] == lengths;
  }

  /** One more byte of a buffer. */
  lemma NextByte(v: View, buf: Bytes, i: nat)
    requires i < |buf|
    ensures var p, t := Pushed(v, buf[..i]), Absorb(v.rule, Pushed(v, buf[..i]).state, buf[i]);
      if Cut(v.rule, t) then
        && Emitted(v, buf[..i + 1]) == Emitted(v, buf[..i]) + [Boundary(p.next, t.count)]
        && Pushed(v, buf[..i + 1]) == p.(state := FRESH, next := p.next + t.count)
      else
        Emitted(v, buf[..i + 1]) == Emitted(v, buf[..i]) && Pushed(v, buf[..i + 1]) == p.(state := t)
  {
    hide Cut, Absorb, Total, Located;
    assert buf[..i + 1][..i] == buf[..i];
    var t := Absorb(v.rule, After(v.rule, v.state, buf[..i]), buf[i]);
    if Cut(v.rule, t) {
      LocatedSnoc(v.next, Cuts(v.rule, v.state, buf[..i]), t.count);
    } else {
      assert Cuts(v.rule, v.state, buf[..i + 1]) == Cuts(v.rule, v.state, buf[..i]);
    }
  }

  /** The position of the highest set bit. */
  function Log2(n: nat): nat
  {
    if n <= 1 then 0 else 1 + Log2(n / 2)
  }

  method FloorLog2(target: nat) returns (bits: nat)
    ensures bits == Log2(target)
    ensures if target == 0 then bits == 0 else Pow2(bits) <= target < Pow2(bits + 1)
  {
    var t := target;
    bits := 0;
    while t > 1
      invariant target <= 1 ==> t == target && bits == 0
      invariant bits + Log2(t) == Log2(target)
      invariant 0 < target ==> 0 < t && Pow2(bits) * t <= target < Pow2(bits) * (t + 1)
    {
      Halved(Pow2(bits), t);
      t := t / 2;
      bits := bits + 1;
    }
  }

  lemma Halved(p: nat, t: nat)
    ensures 2 * p * (t / 2) <= p * t && p * (t + 1) <= 2 * p * (t / 2 + 1)
  {
    AtLeast(p, 2 * (t / 2), t);
    AtLeast(p, t + 1, 2 * (t / 2 + 1));
    assert p * (2 * (t / 2)) == 2 * p * (t / 2) && p * (2 * (t / 2 + 1)) == 2 * p * (t / 2 + 1);
  }

  /** Boundaries are emitted back to back. */
  lemma {:induction false} Contiguous(at: nat, lengths: seq<nat>)
    ensures |Located(at, lengths)| == |lengths|
    ensures forall i :: 0 <= i < |lengths| ==> Located(at, lengths)[i].length == lengths[i]
    ensures 0 < |lengths| ==> Located(at, lengths)[0].offset == at
    ensures forall i :: 0 <= i < |lengths| - 1 ==>
      Located(at, lengths)[i + 1].offset == Located(at, lengths)[i].offset + lengths[i]
  {
    if |lengths| != 0 {
      var n := |lengths| - 1;
      Contiguous(at, lengths[..n]);
      if n != 0 {
        var m := n - 1;
        assert lengths[..n][..m] == lengths[..m];
        assert Located(at, lengths[..n]) ==
          Located(at, lengths[..m]) + [Boundary(at + Total(lengths[..m]), lengths[m])];
      }
    }
  }

  // --- Fixed size ---

  /** A block that stays within the chunk, or exactly fills it. */
  lemma {:induction false} FixedBlock(target: nat, s: State, block: Bytes)
    requires s.count < target && s.count + |block| <= target && s.hash == 0
    ensures var r := FixedRule(target);
      if s.count + |block| < target then
        Cuts(r, s, block) == [] && After(r, s, block) == State(s.count + |block|, 0)
      else
        Cuts(r, s, block) == [target] && After(r, s, block) == FRESH
  {
    if |block| != 0 { FixedBlock(target, s, block[..|block| - 1]); }
  }

  class FixedChunker {
    var params: Params
    var inChunk: nat
    var nextOffset: nat
    var finished: bool

    ghost predicate Valid()
      reads this
    {
      inChunk == 0 || inChunk < params.target
    }

    ghost function Value(): View
      reads this
    {
      View(FixedRule(params.target), State(inChunk, 0), nextOffset, finished)
    }

    constructor (params: Params)
      ensures Valid() && Value() == View(FixedRule(params.target), FRESH, 0, false)
    {
      this.params := params;
      inChunk, nextOffset, finished := 0, 0, false;
    }

    method Push(buf: Bytes) returns (r: Result<seq<Boundary>, Error>)
      requires Valid()
      modifies this
      ensures Valid()
      ensures if old(finished) then r == Err(AfterFinish) && Value() == old(Value())
        else if old(params.target) == 0 then r == Err(ZeroTarget) && Value() == old(Value())
        else r == Ok(Emitted(old(Value()), buf)) && Value() == Pushed(old(Value()), buf)
    {
      hide After, Cuts, Located, Total;
      if finished {
        return Err(AfterFinish);
      }
      var out: seq<Boundary> := [];
      var cutAt := params.target;
      if cutAt == 0 {
        return Err(ZeroTarget);
      }
      ghost var v := Value();
      var off := 0;
      NoBytes(v);
      assert buf[..0] == [];
      while off < |buf|
        invariant off <= |buf| && Valid() && params.target == cutAt
        invariant Value() == Pushed(v, buf[..off]) && out == Emitted(v, buf[..off])
      {
        var needed := cutAt - inChunk;
        var available := |buf| - off;
        ghost var next := off + if available < needed then available else needed;
        FixedBlock(cutAt, State(inChunk, 0), buf[off..next]);
        NextBlock(v, buf, off, next);
        if available < needed {
          inChunk := inChunk + available;
          assert buf[..next] == buf;
          break;
        } else {
          inChunk := inChunk + needed;
          off := off + needed;
          out := out + [Boundary(nextOffset, inChunk)];
          nextOffset := nextOffset + inChunk;
          inChunk := 0;
        }
      }
      assert buf[..|buf|] == buf;
      r := Ok(out);
    }

    method Finish() returns (r: Result<Option<Boundary>, Error>)
      requires Valid()
      modifies this
      ensures if old(finished) then r == Err(AfterFinish) && Value() == old(Value())
        else r == Ok(Trailing(old(Value()))) && Value() == Finished(old(Value()))
      ensures Valid()
    {
      if finished {
        return Err(AfterFinish);
      }
      finished := true;
      if inChunk == 0 {
        return Ok(None);
      }
      var b := Boundary(nextOffset, inChunk);
      nextOffset := nextOffset + inChunk;
      inChunk := 0;
      r := Ok(Some(b));
    }
  }

  lemma NoBytes(v: View)
    ensures Pushed(v, []) == v && Emitted(v, []) == []
  {
  }

  /** A block within which at most one chunk ends. */
  lemma NextBlock(v: View, buf: Bytes, i: nat, j: nat)
    requires i <= j <= |buf|
    requires |Cuts(v.rule, Pushed(v, buf[..i]).state, buf[i..j])| <= 1
    ensures var p, cuts := Pushed(v, buf[..i]), Cuts(v.rule, Pushed(v, buf[..i]).state, buf[i..j]);
      var after := After(v.rule, p.state, buf[i..j]);
      if cuts == [] then
        Emitted(v, buf[..j]) == Emitted(v, buf[..i]) && Pushed(v, buf[..j]) == p.(state := after)
      else
        && Emitted(v, buf[..j]) == Emitted(v, buf[..i]) + [Boundary(p.next, cuts[0])]
        && Pushed(v, buf[..j]) == p.(state := after, next := p.next + cuts[0])
  {
    hide After, Cuts, Located, Total;
    var p := Pushed(v, buf[..i]);
    var cuts := Cuts(v.rule, p.state, buf[i..j]);
    assert buf[..j] == buf[..i] + buf[i..j];
    Splits(v.rule, v.state, buf[..i], buf[i..j]);
    var before := Cuts(v.rule, v.state, buf[..i]);
    if cuts == [] {
      assert before + cuts == before;
    } else {
      assert cuts == [cuts[0]];
      LocatedSnoc(v.next, before, cuts[0]);
    }
  }

  // --- Rolling hash ---

  function AtLeastOne(x: nat): nat
  {
    if x == 0 then 1 else x
  }

  lemma MaskZero(x: nat, bits: nat)
    ensures And(x, Pow2(bits) - 1) == 0 <==> x % Pow2(bits) == 0
  {
    hide And, Pow2;
    AndMask(x, bits);
  }

  function RollingRuleFor(p: Params, gear: Gear32): Rule
  {
    RollingRule(p.min, p.max, Min(AtLeastOne(Log2(p.target)), 32), gear)
  }

  class RollingChunker {
    const params: Params
    const gear: Gear32
    const maskBits: nat
    const mask: u64
    var sum: u32
    var inChunk: nat
    var nextOffset: nat
    var finished: bool

    ghost predicate Valid()
      reads this
    {
      0 < maskBits && mask == Pow2(Min(maskBits, 32)) - 1
    }

    ghost function Value(): View
      reads this
    {
      View(RollingRule(params.min, params.max, Min(maskBits, 32), gear), State(inChunk, sum), nextOffset, finished)
    }

    /** The mask has as many ones as the target size has bits below its highest. */
    constructor (params: Params, gear: Gear32)
      ensures Valid() && this.params == params && this.gear == gear
      ensures Value() == View(RollingRuleFor(params, gear), FRESH, 0, false)
      ensures 2 <= params.target ==> Pow2(maskBits) <= params.target < Pow2(maskBits + 1)
      ensures params.target < 2 ==> maskBits == 1
    {
      hide Pow2;
      var bits := FloorLog2(params.target);
      AtLeastTwo(params.target, bits);
      this.params, this.gear := params, gear;
      maskBits := AtLeastOne(bits);
      Powers32(AtLeastOne(bits));
      mask := if AtLeastOne(bits) >= 32 then 0xffff_ffff else Pow2(AtLeastOne(bits)) - 1;
      sum, inChunk, nextOffset, finished := 0, 0, 0, false;
    }

    method Push(buf: Bytes) returns (r: Result<seq<Boundary>, Error>)
      requires Valid()
      modifies this
      ensures Valid()
      ensures if old(finished) then r == Err(AfterFinish) && Value() == old(Value())
        else r == Ok(Emitted(old(Value()), buf)) && Value() == Pushed(old(Value()), buf)
    {
      hide Pow2, And, Pushed, Emitted, Absorb, Cut;
      if finished {
        return Err(AfterFinish);
      }
      var out: seq<Boundary> := [];
      ghost var v := Value();
      NoBytes(v);
      assert buf[..0] == [];
      for i := 0 to |buf|
        invariant Valid() && Value() == Pushed(v, buf[..i]) && out == Emitted(v, buf[..i])
      {
        NextByte(v, buf, i);
        RollingByte(v.rule, State(inChunk, sum), buf[i], mask);
        sum := (sum * 16 % 0x1_0000_0000 + gear(buf[i])) % 0x1_0000_0000;
        inChunk := inChunk + 1;
        var hitNatural := And(sum, mask) == 0 && inChunk >= params.min;
        var hitMax := inChunk >= params.max;
        if hitNatural || hitMax {
          out := out + [Boundary(nextOffset, inChunk)];
          nextOffset := nextOffset + inChunk;
          inChunk := 0;
          sum := 0;
        }
      }
      assert buf[..|buf|] == buf;
      r := Ok(out);
    }

    method Finish() returns (r: Result<Option<Boundary>, Error>)
      requires Valid()
      modifies this
      ensures if old(finished) then r == Err(AfterFinish) && Value() == old(Value())
        else r == Ok(Trailing(old(Value()))) && Value() == Finished(old(Value()))
      ensures Valid()
    {
      if finished {
        return Err(AfterFinish);
      }
      finished := true;
      if inChunk == 0 {
        return Ok(None);
      }
      var b := Boundary(nextOffset, inChunk);
      nextOffset := nextOffset + inChunk;
      inChunk := 0;
      r := Ok(Some(b));
    }
  }

  /** One byte of the loop is one step of the rule. */
  lemma RollingByte(r: Rule, s: State, b: u8, mask: nat)
    requires r.RollingRule? && mask == Pow2(r.bits) - 1
    ensures var sum := (s.hash * 16 % 0x1_0000_0000 + r.gear(b)) % 0x1_0000_0000;
      && Absorb(r, s, b) == State(s.count + 1, sum)
      && (Cut(r, Absorb(r, s, b)) <==> (And(sum, mask) == 0 && s.count + 1 >= r.min) || s.count + 1 >= r.max)
  {
    hide Pow2, And;
    Wrap32(s.hash * 16, r.gear(b));
    MaskZero((s.hash * 16 + r.gear(b)) % 0x1_0000_0000, r.bits);
  }

  lemma Wrap32(x: nat, g: nat)
    ensures (x % 0x1_0000_0000 + g) % 0x1_0000_0000 == (x + g) % 0x1_0000_0000
  {
  }

  lemma Wrap64(x: nat, g: nat)
    ensures (x % 0x1_0000_0000_0000_0000 + g) % 0x1_0000_0000_0000_0000 == (x + g) % 0x1_0000_0000_0000_0000
  {
  }

  lemma AtLeastTwo(target: nat, bits: nat)
    requires if target == 0 then bits == 0 else Pow2(bits) <= target < Pow2(bits + 1)
    ensures 2 <= target ==> 0 < bits
    ensures target < 2 ==> bits == 0
  {
    SmallPowers();
    if 0 < bits { assert Pow2(bits) == 2 * Pow2(bits - 1); }
  }

  lemma Powers32(n: nat)
    ensures Pow2(32) == 0x1_0000_0000 && (n < 32 ==> Pow2(n) <= Pow2(32))
  {
    hide Pow2;
    SmallPowers();
    Pow2Add(8, 8);
    Pow2Add(16, 16);
    if n < 32 {
      Pow2Add(n, 32 - n);
      AtLeast(Pow2(n), 1, Pow2(32 - n));
    }
  }

  // --- FastCDC ---

  /** Bytes below the minimum are taken in without hashing. */
  lemma {:induction false} FastSkip(r: Rule, s: State, block: Bytes)
    requires r.FastRule? && s.count + |block| <= r.low
    ensures Cuts(r, s, block) == [] && After(r, s, block) == State(s.count + |block|, s.hash)
  {
    hide Natural;
    if |block| != 0 { FastSkip(r, s, block[..|block| - 1]); }
  }

  /** One byte past the minimum is one step of the rule. */
  lemma FastByte(r: Rule, s: State, b: u8, maskS: nat, maskL: nat)
    requires r.FastRule? && maskS == Pow2(r.strict) - 1 && maskL == Pow2(r.loose) - 1 && r.low <= s.count
    ensures var hash := (s.hash * 2 % 0x1_0000_0000_0000_0000 + r.table(b)) % 0x1_0000_0000_0000_0000;
      var mask := if s.count + 1 < r.middle then maskS else maskL;
      && Absorb(r, s, b) == State(s.count + 1, hash)
      && (Cut(r, Absorb(r, s, b)) <==> And(hash, mask) == 0 || s.count + 1 >= r.high)
  {
    hide Pow2, And;
    Wrap64(s.hash * 2, r.table(b));
    MaskZero((s.hash * 2 + r.table(b)) % 0x1_0000_0000_0000_0000, if s.count + 1 < r.middle then r.strict else r.loose);
  }

  lemma Powers63(n: nat)
    requires n <= 63
    ensures Pow2(n) < 0x1_0000_0000_0000_0000
  {
    hide Pow2;
    SmallPowers();
    Pow2Add(8, 8);
    Pow2Add(16, 16);
    Pow2Add(32, 32);
    Pow2Add(n, 64 - n);
    PowerGrows(64 - n);
    AtLeast(Pow2(n), 2, Pow2(64 - n));
  }

  lemma PowerGrows(n: nat)
    requires 0 < n
    ensures 2 <= Pow2(n)
  {
  }

  function FastRuleFor(p: Params, gear: Gear64): Rule
  {
    var bits := Log2(p.target);
    FastRule(p.min, p.target, p.max, AtLeastOne(Min(bits + 1, 63)),
             AtLeastOne(Min(if bits == 0 then 0 else bits - 1, 63)), gear)
  }

  class FastCdcChunker {
    const params: Params
    const gear: Gear64
    const maskSBits: nat
    const maskLBits: nat
    const maskS: u64
    const maskL: u64
    var fingerprint: u64
    var inChunk: nat
    var nextOffset: nat
    var finished: bool

    ghost predicate Valid()
      reads this
    {
      && 0 < maskLBits <= maskSBits <= 63
      && maskS == Pow2(maskSBits) - 1 && maskL == Pow2(maskLBits) - 1
    }

    ghost function Value(): View
      reads this
    {
      View(FastRule(params.min, params.target, params.max, maskSBits, maskLBits, gear),
           State(inChunk, fingerprint), nextOffset, finished)
    }

    /** Below the target the mask is one bit stricter than the target size, from the target on one bit looser. */
    constructor (params: Params, gear: Gear64)
      ensures Valid() && this.params == params && this.gear == gear
      ensures Value() == View(FastRuleFor(params, gear), FRESH, 0, false)
      ensures 4 <= params.target < 0x4000_0000_0000_0000 ==>
        maskSBits == maskLBits + 2 && Pow2(maskLBits + 1) <= params.target < Pow2(maskSBits)
    {
      hide Pow2;
      var bits := FloorLog2(params.target);
      AtLeastTwo(params.target, bits);
      BitsRange(params.target, bits);
      this.params, this.gear := params, gear;
      var s, l := AtLeastOne(Min(bits + 1, 63)), AtLeastOne(Min(if bits == 0 then 0 else bits - 1, 63));
      Powers63(s);
      Powers63(l);
      maskSBits, maskLBits := s, l;
      maskS, maskL := Pow2(s) - 1, Pow2(l) - 1;
      fingerprint, inChunk, nextOffset, finished := 0, 0, 0, false;
    }

    method Push(buf: Bytes) returns (r: Result<seq<Boundary>, Error>)
      requires Valid()
      modifies this
      ensures Valid()
      ensures if old(finished) then r == Err(AfterFinish) && Value() == old(Value())
        else r == Ok(Emitted(old(Value()), buf)) && Value() == Pushed(old(Value()), buf)
    {
      hide Pow2, And, Pushed, Emitted, Absorb, Cut, Cuts, After;
      if finished {
        return Err(AfterFinish);
      }
      var out: seq<Boundary> := [];
      ghost var v := Value();
      NoBytes(v);
      assert buf[..0] == [];
      var off := 0;
      while off < |buf|
        invariant off <= |buf| && Valid() && Value() == Pushed(v, buf[..off]) && out == Emitted(v, buf[..off])
      {
        ghost var start := off;
        if inChunk < params.min {
          var needed := params.min - inChunk;
          var available := |buf| - off;
          var toSkip := Min(needed, available);
          FastSkip(v.rule, Value().state, buf[off..off + toSkip]);
          NextBlock(v, buf, off, off + toSkip);
          inChunk := inChunk + toSkip;
          off := off + toSkip;
          if inChunk < params.min {
            break;
          }
        }
        while off < |buf|
          invariant start <= off <= |buf| && params.min <= inChunk && Valid()
          invariant Value() == Pushed(v, buf[..off]) && out == Emitted(v, buf[..off])
        {
          var b := buf[off];
          NextByte(v, buf, off);
          FastByte(v.rule, State(inChunk, fingerprint), b, maskS, maskL);
          off := off + 1;
          fingerprint := (fingerprint * 2 % 0x1_0000_0000_0000_0000 + gear(b)) % 0x1_0000_0000_0000_0000;
          inChunk := inChunk + 1;
          var mask := if inChunk < params.target then maskS else maskL;
          var hitNatural := And(fingerprint, mask) == 0;
          var hitMax := inChunk >= params.max;
          if hitNatural || hitMax {
            out := out + [Boundary(nextOffset, inChunk)];
            nextOffset := nextOffset + inChunk;
            inChunk := 0;
            fingerprint := 0;
            break;
          }
        }
      }
      assert buf[..|buf|] == buf;
      r := Ok(out);
    }

    method Finish() returns (r: Result<Option<Boundary>, Error>)
      requires Valid()
      modifies this
      ensures if old(finished) then r == Err(AfterFinish) && Value() == old(Value())
        else r == Ok(Trailing(old(Value()))) && Value() == Finished(old(Value()))
      ensures Valid()
    {
      if finished {
        return Err(AfterFinish);
      }
      finished := true;
      if inChunk == 0 {
        return Ok(None);
      }
      var b := Boundary(nextOffset, inChunk);
      nextOffset := nextOffset + inChunk;
      inChunk := 0;
      r := Ok(Some(b));
    }
  }

  lemma BitsRange(target: nat, bits: nat)
    requires if target == 0 then bits == 0 else Pow2(bits) <= target < Pow2(bits + 1)
    ensures 4 <= target ==> 2 <= bits
    ensures target < 0x4000_0000_0000_0000 ==> bits <= 61
  {
    SmallPowers();
    assert bits == 0 || bits == 1 || 2 <= bits;
    if target < 0x4000_0000_0000_0000 && 61 < bits { PowerAtLeast62(bits); }
  }

  lemma PowerAtLeast62(n: nat)
    requires 62 <= n
    ensures 0x4000_0000_0000_0000 <= Pow2(n)
  {
    hide Pow2;
    SmallPowers();
    Pow2Add(8, 8);
    Pow2Add(16, 16);
    Pow2Add(32, 16);
    Pow2Add(48, 8);
    Pow2Add(56, 6);
    Pow2Add(62, n - 62);
    AtLeast(Pow2(62), 1, Pow2(n - 62));
  }
}
