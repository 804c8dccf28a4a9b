/** Cut points depend only on nearby bytes, so chunkings of edited streams fall back into step. */
module ChunkResync {
  import opened Words
  import opened Chunking

  /** The hash of `data` mixed in by factor 2^e modulo 2^m, starting from `h`. */
  function Fold(e: nat, m: nat, table: u8 -> nat, h: nat, data: Bytes): nat
  {
    if |data| == 0 then h
    else
      var n := |data| - 1;
      Mix(Fold(e, m, table, h, data[..n]), Pow2(e), table(data[n]), Pow2(m))
  }

  function Mix(h: nat, factor: nat, value: nat, modulus: nat): nat
    requires 0 < modulus
  {
    (h * factor + value) % modulus
  }

  /** If two hashes agree modulo p, mixing the same value into both makes them agree modulo factor times p. */
  lemma MixAgrees(x: nat, y: nat, c: int, factor: nat, value: nat, p: nat, q: nat) returns (d: int)
    requires 0 < factor && 0 < p && 0 < q && x == y + p * c
    ensures 0 < factor * p * q
    ensures Mix(x, factor, value, factor * p * q) == Mix(y, factor, value, factor * p * q) + factor * p * d
  {
    Positive(factor, p);
    Positive(factor * p, q);
    var m := factor * p * q;
    var i, j := (x * factor + value) / m, (y * factor + value) / m;
    var u, v := Mix(x, factor, value, m), Mix(y, factor, value, m);
    assert u == x * factor + value - m * i && v == y * factor + value - m * j;
    d := c - q * (i - j);
    Expand(x, y, c, factor, p, q, i, j);
  }

  lemma Positive(a: nat, b: nat)
    requires 0 < a && 0 < b
    ensures 0 < a * b
  {
  }

  lemma Expand(x: int, y: int, c: int, f: int, p: int, q: int, i: int, j: int)
    requires x == y + p * c
    ensures x * f - f * p * q * i - (y * f - f * p * q * j) == f * p * (c - q * (i - j))
  {
    var g := f * p;
    assert x * f == y * f + g * c by { assert (p * c) * f == g * c; }
    assert g * q * i == g * (q * i) && g * q * j == g * (q * j);
    assert g * (c - q * (i - j)) == g * c - g * (q * i) + g * (q * j) by {
      assert q * (i - j) == q * i - q * j;
      assert g * (c - (q * i - q * j)) == g * c - (g * (q * i) - g * (q * j));
    }
  }

  /** After n bytes, hashes started differently agree modulo 2^(e n). */
  lemma {:induction false} Agrees(e: nat, m: nat, table: u8 -> nat, g: nat, h: nat, data: Bytes) returns (c: int)
    requires e * |data| <= m
    ensures Fold(e, m, table, g, data) == Fold(e, m, table, h, data) + Pow2(e * |data|) * c
  {
    if |data| == 0 {
      c := g - h;
    } else {
      var n := |data| - 1;
      assert e * |data| == e + e * n;
      c := Agrees(e, m, table, g, h, data[..n]);
      c := MixAgrees(Fold(e, m, table, g, data[..n]), Fold(e, m, table, h, data[..n]), c,
                     Pow2(e), table(data[n]), Pow2(e * n), Pow2(m - e * |data|));
      Pow2Add(e, e * n);
      Pow2Add(e * |data|, m - e * |data|);
    }
  }

  lemma FoldBelow(e: nat, m: nat, table: u8 -> nat, h: nat, data: Bytes)
    requires h < Pow2(m)
    ensures Fold(e, m, table, h, data) < Pow2(m)
  {
  }

  /** Once the window is full, the hash no longer depends on where it started. */
  lemma Forgets(e: nat, window: nat, table: u8 -> nat, g: nat, h: nat, data: Bytes)
    requires window <= |data| && g < Pow2(e * window) && h < Pow2(e * window)
    ensures Fold(e, e * window, table, g, data) == Fold(e, e * window, table, h, data)
  {
    hide Fold, Pow2;
    var m := e * window;
    var cut := |data| - window;
    FoldConcat(e, m, table, g, data[..cut], data[cut..]);
    FoldConcat(e, m, table, h, data[..cut], data[cut..]);
    assert data == data[..cut] + data[cut..];
    var x, y := Fold(e, m, table, g, data[..cut]), Fold(e, m, table, h, data[..cut]);
    var c := Agrees(e, m, table, x, y, data[cut..]);
    FoldBelow(e, m, table, g, data);
    FoldBelow(e, m, table, h, data);
    SmallMultiple(Pow2(m), c);
  }

  lemma {:induction false} FoldConcat(e: nat, m: nat, table: u8 -> nat, h: nat, a: Bytes, b: Bytes)
    ensures Fold(e, m, table, h, a + b) == Fold(e, m, table, Fold(e, m, table, h, a), b)
  {
    hide Mix, Pow2;
    if |b| == 0 {
      assert a + b == a;
    } else {
      FoldConcat(e, m, table, h, a, b[..|b| - 1]);
      assert (a + b)[..|a + b| - 1] == a + b[..|b| - 1];
    }
  }

  // --- From hashes to cuts ---

  /** The rule looks at a hash, and `h` is one. */
  predicate Hashes(r: Rule, h: nat)
  {
    match r
    case FixedRule(_) => false
    case RollingRule(_, _, _, _) => h < 0x1_0000_0000
    case FastRule(_, _, _, _, _, _) => h < 0x1_0000_0000_0000_0000
  }

  /** The chunk is long enough for every further byte to be hashed. */
  predicate Hashing(r: Rule, s: State)
  {
    Hashes(r, s.hash) && (r.FastRule? ==> r.low <= s.count)
  }

  /** How many bytes the hash remembers. */
  function Window(r: Rule): nat
  {
    if r.FastRule? then 64 else 8
  }

  function HashOf(r: Rule, h: nat, data: Bytes): nat
    requires !r.FixedRule?
  {
    match r
    case RollingRule(_, _, _, gear) => Fold(4, 32, (b: u8) => gear(b) as nat, h, data)
    case FastRule(_, _, _, _, _, table) => Fold(1, 64, (b: u8) => table(b) as nat, h, data)
  }

  lemma Modulus()
    ensures Pow2(1) == 2 && Pow2(4) == 16 && Pow2(32) == 0x1_0000_0000 && Pow2(64) == 0x1_0000_0000_0000_0000
  {
    hide Pow2;
    SmallPowers();
    Pow2Add(8, 8);
    Pow2Add(16, 16);
    Pow2Add(32, 32);
  }

  lemma HashUnfolds(r: Rule, h: nat, data: Bytes)
    requires !r.FixedRule? && |data| != 0
    ensures var before := HashOf(r, h, data[..|data| - 1]);
      HashOf(r, h, data) == match r
        case RollingRule(_, _, _, gear) => (before * 16 + gear(data[|data| - 1])) % 0x1_0000_0000
        case FastRule(_, _, _, _, _, table) => (before * 2 + table(data[|data| - 1])) % 0x1_0000_0000_0000_0000
  {
    hide Pow2;
    Modulus();
  }

  /** While no chunk ends, the state is the count and the hash of the bytes since the start. */
  lemma {:induction false} Uncut(r: Rule, s: State, data: Bytes)
    requires Hashing(r, s) && Cuts(r, s, data) == []
    ensures After(r, s, data) == State(s.count + |data|, HashOf(r, s.hash, data))
    ensures Hashing(r, After(r, s, data))
  {
    hide Cut;
    if |data| == 0 {
      assert HashOf(r, s.hash, data) == s.hash;
    } else {
      hide HashOf;
      Uncut(r, s, data[..|data| - 1]);
      HashUnfolds(r, s.hash, data);
    }
  }

  lemma SameHash(r: Rule, g: nat, h: nat, data: Bytes)
    requires Hashes(r, g) && Hashes(r, h) && Window(r) <= |data|
    ensures HashOf(r, g, data) == HashOf(r, h, data)
  {
    hide Fold, Pow2;
    Modulus();
    match r
    case RollingRule(_, _, _, gear) => Forgets(4, 8, (b: u8) => gear(b) as nat, g, h, data);
    case FastRule(_, _, _, _, _, table) => Forgets(1, 64, (b: u8) => table(b) as nat, g, h, data);
  }

  /** The hash after one more byte is the hash of all bytes since the start. */
  lemma AbsorbedHash(r: Rule, s: State, data: Bytes, b: u8)
    requires Hashing(r, s) && Cuts(r, s, data) == []
    ensures Absorb(r, After(r, s, data), b).hash == HashOf(r, s.hash, data + [b])
  {
    hide After, Cuts, HashOf;
    Uncut(r, s, data);
    assert (data + [b])[..|data|] == data;
    HashUnfolds(r, s.hash, data + [b]);
  }

  /** A chunker in state `t` is ready to cut wherever one in state `s` cuts on the hash. */
  predicate Ready(r: Rule, s: State, t: State)
  {
    match r
    case FixedRule(_) => false
    case RollingRule(min, _, _, _) => min <= t.count
    case FastRule(low, middle, _, strict, loose, _) =>
      low < t.count && loose <= strict && (s.count < middle || middle <= t.count)
  }

  lemma CoarserMask(h: nat, loose: nat, strict: nat)
    requires loose <= strict && h % Pow2(strict) == 0
    ensures h % Pow2(loose) == 0
  {
    hide Pow2;
    var p, q := Pow2(loose), Pow2(strict - loose);
    Pow2Add(loose, strict - loose);
    var k := h / (p * q);
    assert h == p * q * k == p * (q * k);
    Remainder(h, p, q * k, 0);
  }

  lemma CutTogether(r: Rule, s: State, t: State)
    requires s.hash == t.hash && Natural(r, s) && Ready(r, s, t)
    ensures Cut(r, t)
  {
    hide Pow2;
    if r.FastRule? && s.count < r.middle <= t.count {
      CoarserMask(s.hash, r.loose, r.strict);
    }
  }

  /**
   * Resynchronisation. Two streams share the stretch `data + [b] + rest`; neither chunker cuts within
   * `data`, which with `b` fills the window. If the first cuts on the hash after `b` and the second is
   * ready, both cut there, and from then on they cut the shared stretch identically.
   */
  lemma Resynchronises(r: Rule, s: State, t: State, data: Bytes, b: u8, rest: Bytes)
    requires Hashing(r, s) && Hashing(r, t) && Cuts(r, s, data) == [] && Cuts(r, t, data) == []
    requires Window(r) <= |data| + 1
    requires var x, y := Absorb(r, After(r, s, data), b), Absorb(r, After(r, t, data), b);
      Natural(r, x) && Cut(r, x) && Ready(r, x, y)
    ensures After(r, s, data + [b]) == FRESH == After(r, t, data + [b])
    ensures Cuts(r, After(r, s, data + [b]), rest) == Cuts(r, After(r, t, data + [b]), rest)
  {
    hide After, Cuts, Cut, Ready, Natural, Absorb, HashOf;
    AbsorbedHash(r, s, data, b);
    AbsorbedHash(r, t, data, b);
    SameHash(r, s.hash, t.hash, data + [b]);
    CutTogether(r, Absorb(r, After(r, s, data), b), Absorb(r, After(r, t, data), b));
    AfterSnoc(r, s, data, b);
    AfterSnoc(r, t, data, b);
  }

  lemma AfterSnoc(r: Rule, s: State, data: Bytes, b: u8)
    ensures After(r, s, data + [b]) == Step(r, After(r, s, data), b)
  {
    hide Step;
    assert (data + [b])[..|data|] == data;
  }

  /** Two streams with a cut, or their start, where a shared suffix starts are cut alike from there on. */
  lemma SharedCutCoincides(r: Rule, s: State, t: State, a: Bytes, b: Bytes, suffix: Bytes)
    requires After(r, s, a) == FRESH && After(r, t, b) == FRESH
    ensures Cuts(r, s, a + suffix) == Cuts(r, s, a) + Cuts(r, FRESH, suffix)
    ensures Cuts(r, t, b + suffix) == Cuts(r, t, b) + Cuts(r, FRESH, suffix)
    ensures After(r, s, a + suffix) == After(r, t, b + suffix)
  {
    hide After, Cuts;
    Splits(r, s, a, suffix);
    Splits(r, t, b, suffix);
  }
}
