/** Cutting a stream into chunks as it is read, with bounded memory. */
module ChunkReader {
  import opened Wrappers
  import opened Words
  import opened Chunking
  import opened Chunkers

  // --- Zero detection by words ---

  lemma {:induction false} LeZero(s: Bytes)
    ensures Le(s) == 0 <==> forall i :: 0 <= i < |s| ==> s[i] == 0
  {
    if |s| != 0 {
      LeZero(s[1..]);
      assert forall i :: 1 <= i < |s| ==> s[i] == s[1..][i - 1];
    }
  }

  method IsAllZeros(slice: Bytes) returns (zeros: bool)
    ensures zeros <==> forall i :: 0 <= i < |slice| ==> slice[i] == 0
  {
    hide Le;
    var at := 0;
    while at + 8 <= |slice|
      invariant at <= |slice| && forall i :: 0 <= i < at ==> slice[i] == 0
    {
      var word := slice[at..at + 8];
      LeZero(word);
      if Le(word) != 0 {
        ghost var i :| 0 <= i < 8 && word[i] != 0;
        assert slice[at + i] != 0;
        return false;
      }
      assert forall i :: at <= i < at + 8 ==> slice[i] == word[i - at];
      at := at + 8;
    }
    while at < |slice|
      invariant at <= |slice| && forall i :: 0 <= i < at ==> slice[i] == 0
    {
      if slice[at] != 0 {
        return false;
      }
      at := at + 1;
    }
    zeros := true;
  }

  // --- Pieces of a stream ---

  function Pieces(data: Bytes, lengths: seq<nat>): (p: seq<Bytes>)
    requires Total(lengths) <= |data|
    ensures |p| == |lengths|
  {
    if |lengths| == 0 then []
    else
      var n := |lengths| - 1;
      Pieces(data, lengths[..n]) + [data[Total(lengths[..n])..Total(lengths)]]
  }

  function Concat(parts: seq<Bytes>): Bytes
  {
    if |parts| == 0 then [] else Concat(parts[..|parts| - 1]) + parts[|parts| - 1]
  }

  lemma {:induction false} PiecesJoin(data: Bytes, lengths: seq<nat>)
    requires Total(lengths) <= |data|
    ensures Concat(Pieces(data, lengths)) == data[..Total(lengths)]
  {
    if |lengths| != 0 {
      var n := |lengths| - 1;
      PiecesJoin(data, lengths[..n]);
      assert Pieces(data, lengths)[..n] == Pieces(data, lengths[..n]);
    }
  }

  lemma {:induction false} PiecesExtend(data: Bytes, more: Bytes, lengths: seq<nat>)
    requires Total(lengths) <= |data|
    ensures Pieces(data + more, lengths) == Pieces(data, lengths)
  {
    if |lengths| != 0 {
      var n := |lengths| - 1;
      PiecesExtend(data, more, lengths[..n]);
      assert (data + more)[Total(lengths[..n])..Total(lengths)] == data[Total(lengths[..n])..Total(lengths)];
    }
  }

  lemma PiecesSnoc(data: Bytes, lengths: seq<nat>, n: nat)
    requires Total(lengths) + n <= |data|
    ensures Total(lengths + [n]) == Total(lengths) + n
    ensures Pieces(data, lengths + [n]) == Pieces(data, lengths) + [data[Total(lengths)..Total(lengths) + n]]
  {
    hide Total, Pieces;
    var longer := lengths + [n];
    assert longer[..|longer| - 1] == lengths;
    TotalSnoc(lengths, n);
    PiecesUnfolds(data, longer, lengths);
  }

  lemma PiecesUnfolds(data: Bytes, longer: seq<nat>, lengths: seq<nat>)
    requires |longer| != 0 && longer[..|longer| - 1] == lengths && Total(longer) <= |data|
    ensures Total(lengths) <= Total(longer)
    ensures Pieces(data, longer) == Pieces(data, lengths) + [data[Total(lengths)..Total(longer)]]
  {
  }

  // --- Any chunker ---

  datatype AnyChunker =
    | AnyFixed(fixed: FixedChunker)
    | AnyRolling(rolling: RollingChunker)
    | AnyFast(fast: FastCdcChunker)

  function Target(c: AnyChunker): object
  {
    match c
    case AnyFixed(f) => f
    case AnyRolling(r) => r
    case AnyFast(f) => f
  }

  ghost predicate Valid(c: AnyChunker)
    reads Target(c)
  {
    match c
    case AnyFixed(f) => f.Valid()
    case AnyRolling(r) => r.Valid()
    case AnyFast(f) => f.Valid()
  }

  ghost function Value(c: AnyChunker): View
    reads Target(c)
  {
    match c
    case AnyFixed(f) => f.Value()
    case AnyRolling(r) => r.Value()
    case AnyFast(f) => f.Value()
  }

  /** Pushing fails only on a fixed chunker of size zero or after the end. */
  predicate Pushable(v: View)
  {
    !v.finished && v.rule != FixedRule(0)
  }

  method Push(c: AnyChunker, buf: Bytes) returns (r: Result<seq<Boundary>, Error>)
    requires Valid(c)
    modifies Target(c)
    ensures Valid(c) && (r.Ok? <==> Pushable(old(Value(c))))
    ensures r.Ok? ==> r.value == Emitted(old(Value(c)), buf) && Value(c) == Pushed(old(Value(c)), buf)
  {
    hide Pushed, Emitted;
    match c
    case AnyFixed(f) => r := f.Push(buf);
    case AnyRolling(g) => r := g.Push(buf);
    case AnyFast(f) => r := f.Push(buf);
  }

  method Finish(c: AnyChunker) returns (r: Result<Option<Boundary>, Error>)
    requires Valid(c)
    modifies Target(c)
    ensures Valid(c) && (r.Ok? <==> !old(Value(c)).finished)
    ensures r.Ok? ==> r.value == Trailing(old(Value(c))) && Value(c) == Finished(old(Value(c)))
  {
    match c
    case AnyFixed(f) => r := f.Finish();
    case AnyRolling(g) => r := g.Finish();
    case AnyFast(f) => r := f.Finish();
  }

  datatype Mode = Cdc | Fixed | FastCdc

  function RuleFor(mode: Mode, params: Params, gear: Gear32, gear64: Gear64): Rule
  {
    match mode
    case Fixed => FixedRule(params.target)
    case Cdc => RollingRuleFor(params, gear)
    case FastCdc => FastRuleFor(params, gear64)
  }

  method CreateChunker(mode: Mode, params: Params, gear: Gear32, gear64: Gear64) returns (c: AnyChunker)
    ensures fresh(Target(c)) && Valid(c) && Value(c) == View(RuleFor(mode, params, gear, gear64), FRESH, 0, false)
  {
    match mode
    case Fixed => var f := new FixedChunker(params); c := AnyFixed(f);
    case Cdc => var r := new RollingChunker(params, gear); c := AnyRolling(r);
    case FastCdc => var f := new FastCdcChunker(params, gear64); c := AnyFast(f);
  }

  // --- Reading a stream ---

  type Hash = Bytes -> Bytes

  datatype Desc = Hole(length: nat) | Stored(length: nat, digest: Bytes)

  datatype Chunk = Chunk(desc: Desc, bytes: Bytes)

  predicate AllZero(b: Bytes)
  {
    forall i :: 0 <= i < |b| ==> b[i] == 0
  }

  function Described(hash: Hash, b: Bytes): Chunk
  {
    Chunk(if AllZero(b) then Hole(|b|) else Stored(|b|, hash(b)), b)
  }

  /** The chunks handed out are the pieces, each described by its own bytes. */
  predicate Delivers(hash: Hash, chunks: seq<Chunk>, pieces: seq<Bytes>)
  {
    |chunks| == |pieces| && forall i :: 0 <= i < |chunks| ==> chunks[i] == Described(hash, pieces[i])
  }

  method Describe(hash: Hash, b: Bytes) returns (c: Chunk)
    ensures c == Described(hash, b)
  {
    var zeros := IsAllZeros(b);
    c := Chunk(if zeros then Hole(|b|) else Stored(|b|, hash(b)), b);
  }

  /** Hands out the chunks that end within what has been read, and keeps the rest. */
  method Drain(hash: Hash, pending: Bytes, at: nat, boundaries: seq<Boundary>, chunks: seq<Chunk>,
               ghost stream: Bytes, ghost done: seq<nat>, ghost lengths: seq<nat>)
    returns (rest: Bytes, next: nat, more: seq<Chunk>)
    requires at == Total(done) && Total(done) + Total(lengths) <= |stream| && pending == stream[at..]
    requires boundaries == Located(at, lengths) && Delivers(hash, chunks, Pieces(stream, done))
    ensures next == Total(done + lengths) == Total(done) + Total(lengths) && rest == stream[next..]
    ensures Delivers(hash, more, Pieces(stream, done + lengths))
  {
    hide Pieces, Described, Total, Located;
    rest, next, more := pending, at, chunks;
    Contiguous(at, lengths);
    ghost var sofar := done;
    NoneYet(lengths);
    assert done + lengths[..0] == done;
    for i := 0 to |boundaries|
      invariant |boundaries| == |lengths| && sofar == done + lengths[..i]
      invariant next == Total(sofar) == Total(done) + Total(lengths[..i]) <= |stream|
      invariant i < |lengths| ==> boundaries[i].offset == next
      invariant rest == stream[next..] && Delivers(hash, more, Pieces(stream, sofar))
    {
      var target := boundaries[i].offset + boundaries[i].length;
      var need := target - next;
      OneMore(stream, done, lengths, i);
      var c := Describe(hash, rest[..need]);
      assert rest[..need] == stream[next..next + need];
      more := more + [c];
      rest := rest[need..];
      next := target;
      sofar := done + lengths[..i + 1];
    }
    assert lengths[..|lengths|] == lengths;
  }

  lemma NoneYet(lengths: seq<nat>)
    ensures Total(lengths[..0]) == 0 && 0 <= Total(lengths)
  {
  }

  lemma {:induction false} TotalMonotone(lengths: seq<nat>, i: nat)
    requires i <= |lengths|
    ensures Total(lengths[..i]) <= Total(lengths)
  {
    if i < |lengths| {
      var n := |lengths| - 1;
      TotalMonotone(lengths[..n], i);
      assert lengths[..n][..i] == lengths[..i];
    } else {
      assert lengths[..i] == lengths;
    }
  }

  lemma OneMore(stream: Bytes, done: seq<nat>, lengths: seq<nat>, i: nat)
    requires i < |lengths| && Total(done) + Total(lengths) <= |stream|
    requires Total(done + lengths[..i]) == Total(done) + Total(lengths[..i])
    ensures Total(lengths[..i + 1]) == Total(lengths[..i]) + lengths[i] <= Total(lengths)
    ensures Total(done + lengths[..i + 1]) == Total(done + lengths[..i]) + lengths[i] <= |stream|
    ensures Pieces(stream, done + lengths[..i + 1]) == Pieces(stream, done + lengths[..i])
      + [stream[Total(done + lengths[..i])..Total(done + lengths[..i]) + lengths[i]]]
  {
    hide Total, Pieces;
    assert lengths[..i + 1] == lengths[..i] + [lengths[i]];
    assert done + lengths[..i + 1] == done + lengths[..i] + [lengths[i]];
    TotalSnoc(lengths[..i], lengths[i]);
    TotalMonotone(lengths, i + 1);
    TotalSnoc(done + lengths[..i], lengths[i]);
    PiecesSnoc(stream, done + lengths[..i], lengths[i]);
  }

  /** What a reader yields before its first empty read. */
  function Stream(buffers: seq<Bytes>): Bytes
  {
    if |buffers| == 0 || buffers[0] == [] then [] else buffers[0] + Stream(buffers[1..])
  }

  /** The lengths of all chunks of a whole stream, the trailing one included. */
  function Lengths(r: Rule, stream: Bytes): seq<nat>
  {
    var rest := After(r, FRESH, stream).count;
    Cuts(r, FRESH, stream) + if rest == 0 then [] else [rest]
  }

  lemma LengthsTile(r: Rule, stream: Bytes)
    ensures Total(Lengths(r, stream)) == |stream|
  {
    hide After, Cuts, Total;
    Tiles(r, FRESH, stream);
    TotalSnoc(Cuts(r, FRESH, stream), After(r, FRESH, stream).count);
    assert Cuts(r, FRESH, stream) + [] == Cuts(r, FRESH, stream);
  }

  datatype Summary = Summary(chunks: seq<Chunk>, whole: Bytes, total: nat)

  /** The reader's state after the bytes `s` have been read and their chunks handed out. */
  ghost predicate Progress(hash: Hash, rule: Rule, s: Bytes, v: View, pending: Bytes, at: nat, chunks: seq<Chunk>)
  {
    var done := Cuts(rule, FRESH, s);
    && v == Pushed(View(rule, FRESH, 0, false), s) && at == v.next == Total(done) <= |s|
    && pending == s[at..] && |pending| == v.state.count && Open(rule, v.state)
    && Delivers(hash, chunks, Pieces(s, done))
  }

  lemma NoProgress(hash: Hash, rule: Rule)
    ensures Progress(hash, rule, [], View(rule, FRESH, 0, false), [], 0, [])
  {
    NoBytes(View(rule, FRESH, 0, false));
    Starts(rule);
  }

  /** What one more read adds. */
  lemma MoreRead(rule: Rule, s: Bytes, slice: Bytes)
    ensures var v0, t := View(rule, FRESH, 0, false), After(rule, FRESH, s);
      && Cuts(rule, FRESH, s + slice) == Cuts(rule, FRESH, s) + Cuts(rule, t, slice)
      && Pushed(v0, s + slice) == Pushed(Pushed(v0, s), slice)
      && Total(Cuts(rule, FRESH, s)) + Total(Cuts(rule, t, slice)) == Total(Cuts(rule, FRESH, s + slice)) <= |s + slice|
      && |s + slice| - Total(Cuts(rule, FRESH, s + slice)) == After(rule, FRESH, s + slice).count
      && Open(rule, After(rule, FRESH, s + slice))
  {
    hide After, Cuts, Total, Open;
    var t := After(rule, FRESH, s);
    Splits(rule, FRESH, s, slice);
    Tiles(rule, FRESH, s);
    Tiles(rule, t, slice);
    Tiles(rule, FRESH, s + slice);
    Starts(rule);
    Bounds(rule, FRESH, s + slice);
  }

  method ReadOnce(hash: Hash, c: AnyChunker, slice: Bytes, pending: Bytes, at: nat, chunks: seq<Chunk>,
                  ghost rule: Rule, ghost s: Bytes)
    returns (ok: bool, rest: Bytes, next: nat, more: seq<Chunk>)
    requires Valid(c) && Progress(hash, rule, s, Value(c), pending, at, chunks)
    modifies Target(c)
    ensures Valid(c) && (ok <==> rule != FixedRule(0))
    ensures |pending| < Longest(rule) && |pending| == After(rule, FRESH, s).count
    ensures ok ==> Progress(hash, rule, s + slice, Value(c), rest, next, more)
    ensures ok ==> |rest| < Longest(rule) && |rest| == After(rule, FRESH, s + slice).count
  {
    hide After, Cuts, Total, Open, Pieces, Delivers, Located, Longest;
    OpenIs(rule, After(rule, FRESH, s));
    OpenIs(rule, After(rule, FRESH, s + slice));
    ghost var done, t := Cuts(rule, FRESH, s), After(rule, FRESH, s);
    rest, next, more := pending + slice, at, chunks;
    var boundaries := Push(c, slice);
    if boundaries.Err? {
      return false, rest, next, more;
    }
    MoreRead(rule, s, slice);
    PiecesExtend(s, slice, done);
    assert (s + slice)[at..] == pending + slice;
    rest, next, more := Drain(hash, rest, at, boundaries.value, chunks, s + slice, done, Cuts(rule, t, slice));
    ok := true;
  }

  lemma OpenIs(rule: Rule, s: State)
    ensures Open(rule, s) <==> s.count < Longest(rule)
  {
  }

  /** How many reads yield data before the first empty one. */
  function Reads(buffers: seq<Bytes>): nat
  {
    if |buffers| == 0 || buffers[0] == [] then 0 else 1 + Reads(buffers[1..])
  }

  /** What the pending buffer holds right after read `k`: the open chunk so far and the bytes just read. */
  function Holding(rule: Rule, buffers: seq<Bytes>, k: nat): nat
    requires k < |buffers|
  {
    After(rule, FRESH, Stream(buffers[..k])).count + |buffers[k]|
  }

  /**
   * The whole pass over a reader. The chunks are the pieces of the stream, cut as if it had been read at
   * once. `held` lists the size of the pending buffer after each read; it never reaches one longest chunk
   * plus one read.
   */
  method ChunkAll(hash: Hash, buffers: seq<Bytes>, bufferSize: nat, mode: Mode, params: Params,
                  gear: Gear32, gear64: Gear64)
    returns (r: Result<Summary, Error>, ghost held: seq<nat>)
    requires forall i :: 0 <= i < |buffers| ==> |buffers[i]| <= bufferSize
    ensures r.Err? <==> RuleFor(mode, params, gear, gear64) == FixedRule(0) && Stream(buffers) != []
    ensures r.Ok? ==> r.value.total == |Stream(buffers)| && r.value.whole == hash(Stream(buffers))
    ensures r.Ok? ==> Total(Lengths(RuleFor(mode, params, gear, gear64), Stream(buffers))) == |Stream(buffers)|
    ensures r.Ok? ==> Delivers(hash, r.value.chunks,
                               Pieces(Stream(buffers), Lengths(RuleFor(mode, params, gear, gear64), Stream(buffers))))
    ensures |held| == (if r.Ok? then Reads(buffers) else 1) <= |buffers|
    ensures forall k :: 0 <= k < |held| ==>
      && held[k] == Holding(RuleFor(mode, params, gear, gear64), buffers, k)
      && held[k] < Longest(RuleFor(mode, params, gear, gear64)) + bufferSize
  {
    hide After, Cuts, Total, Pieces, Delivers, Longest, Progress, RuleFor, Lengths, Stream;
    ghost var rule := RuleFor(mode, params, gear, gear64);
    var c := CreateChunker(mode, params, gear, gear64);
    var pending: Bytes, at, chunks: seq<Chunk>, total, whole: Bytes := [], 0, [], 0, [];
    NoProgress(hash, rule);
    held := [];
    var i := 0;
    NothingRead(buffers);
    while i < |buffers|
      invariant i <= |buffers| && Valid(c) && fresh(Target(c))
      invariant Progress(hash, rule, whole, Value(c), pending, at, chunks)
      invariant whole == Stream(buffers[..i]) && whole + Stream(buffers[i..]) == Stream(buffers) && total == |whole|
      invariant |held| == i && i + Reads(buffers[i..]) == Reads(buffers) && (0 < i ==> rule != FixedRule(0))
      invariant forall k :: 0 <= k < i ==> buffers[k] != []
      invariant forall k :: 0 <= k < i ==> held[k] == Holding(rule, buffers, k) < Longest(rule) + bufferSize
    {
      var slice := buffers[i];
      if slice == [] {
        break;
      }
      NextRead(buffers, i);
      held := held + [|pending| + |slice|];
      var ok;
      ok, pending, at, chunks := ReadOnce(hash, c, slice, pending, at, chunks, rule, whole);
      if !ok {
        return Err(ZeroTarget), held;
      }
      whole := whole + slice;
      total := total + |slice|;
      i := i + 1;
    }
    LastRead(buffers, i);
    chunks := LastChunk(hash, c, pending, at, chunks, rule, whole);
    LengthsTile(rule, whole);
    r := Ok(Summary(chunks, hash(whole), total));
  }

  lemma NothingRead(buffers: seq<Bytes>)
    ensures Stream(buffers[..0]) == [] && Stream(buffers[0..]) == Stream(buffers) &&
      Reads(buffers[0..]) == Reads(buffers)
  {
    assert buffers[0..] == buffers;
  }

  lemma LastRead(buffers: seq<Bytes>, i: nat)
    requires i <= |buffers| && (i < |buffers| ==> buffers[i] == [])
    requires Stream(buffers[..i]) + Stream(buffers[i..]) == Stream(buffers)
    ensures Stream(buffers[..i]) == Stream(buffers) && Reads(buffers[i..]) == 0
  {
    assert Stream(buffers[i..]) == [];
  }

  lemma {:induction false} StreamSnoc(buffers: seq<Bytes>, more: Bytes)
    requires more != [] && forall k :: 0 <= k < |buffers| ==> buffers[k] != []
    ensures Stream(buffers + [more]) == Stream(buffers) + more
  {
    if |buffers| == 0 {
      assert buffers + [more] == [more] && [more][1..] == [];
    } else {
      StreamSnoc(buffers[1..], more);
      assert (buffers + [more])[1..] == buffers[1..] + [more];
    }
  }

  lemma StreamCons(first: Bytes, rest: seq<Bytes>)
    requires first != []
    ensures Stream([first] + rest) == first + Stream(rest) && Reads([first] + rest) == 1 + Reads(rest)
  {
    assert ([first] + rest)[1..] == rest;
  }

  lemma Regroup(a: Bytes, b: Bytes, c: Bytes)
    ensures a + (b + c) == a + b + c
  {
  }

  lemma SplitAt(buffers: seq<Bytes>, i: nat)
    requires i < |buffers|
    ensures buffers[..i + 1] == buffers[..i] + [buffers[i]] && buffers[i..] == [buffers[i]] + buffers[i + 1..]
  {
  }

  /** One read that yields data adds it to the stream. */
  lemma NextRead(buffers: seq<Bytes>, i: nat)
    requires i < |buffers| && buffers[i] != [] && forall k :: 0 <= k < i ==> buffers[k] != []
    requires Stream(buffers[..i]) + Stream(buffers[i..]) == Stream(buffers)
    ensures Reads(buffers[i..]) == 1 + Reads(buffers[i + 1..])
    ensures Stream(buffers[..i + 1]) == Stream(buffers[..i]) + buffers[i]
    ensures Stream(buffers[..i + 1]) + Stream(buffers[i + 1..]) == Stream(buffers) != []
  {
    hide Stream, Reads;
    SplitAt(buffers, i);
    StreamSnoc(buffers[..i], buffers[i]);
    StreamCons(buffers[i], buffers[i + 1..]);
    Regroup(Stream(buffers[..i]), buffers[i], Stream(buffers[i + 1..]));
  }

  /** Hands out what is left when the stream ends. */
  method LastChunk(hash: Hash, c: AnyChunker, pending: Bytes, at: nat, chunks: seq<Chunk>,
                   ghost rule: Rule, ghost s: Bytes)
    returns (all: seq<Chunk>)
    requires Valid(c) && Progress(hash, rule, s, Value(c), pending, at, chunks)
    modifies Target(c)
    ensures Total(Lengths(rule, s)) == |s| && Delivers(hash, all, Pieces(s, Lengths(rule, s)))
  {
    hide After, Cuts, Total, Pieces, Described, Open;
    ghost var done := Cuts(rule, FRESH, s);
    LengthsTile(rule, s);
    all := chunks;
    var last := Finish(c);
    match last
    case Ok(Some(b)) =>
      var need := b.offset + b.length - at;
      var chunk := Describe(hash, pending[..need]);
      PiecesSnoc(s, done, need);
      assert pending[..need] == s[at..at + need];
      all := all + [chunk];
    case Ok(None) =>
      assert done + [] == done;
  }
}
