/** The append-only audit accumulator with its sorted index. */
module MerkleAuditTree {
  import opened Wrappers
  import opened MerkleProofs

  datatype InclusionProof = InclusionProof(
    leafIndex: nat,
    leafHash: Digest,
    path: seq<ProofStep>,
    expectedRoot: Digest,
    treeSize: nat)

  datatype ExclusionProof = ExclusionProof(
    targetHash: Digest,
    lowerBound: Option<InclusionProof>,
    upperBound: Option<InclusionProof>,
    expectedRoot: Digest)

  datatype Error = OutOfBounds | EmptyTree | TargetPresent

  /** A leaf and the position it was inserted at. */
  type Entry = (Digest, nat)

  // --- Verification ---

  method VerifyInclusionProof(combine: Combine, proof: InclusionProof) returns (ok: bool)
    ensures ok <==> Climb(combine, proof.leafHash, proof.path) == proof.expectedRoot
  {
    var current: Digest := proof.leafHash;
    assert proof.path[0..] == proof.path;
    for i := 0 to |proof.path|
      invariant Climb(combine, current, proof.path[i..]) == Climb(combine, proof.leafHash, proof.path)
    {
      var step := proof.path[i];
      assert proof.path[i..][1..] == proof.path[i + 1..];
      current := match step.direction
        case Left => combine(step.sibling, current)
        case Right => combine(current, step.sibling);
    }
    ok := current == proof.expectedRoot;
  }

  predicate Included(combine: Combine, proof: InclusionProof)
  {
    Climb(combine, proof.leafHash, proof.path) == proof.expectedRoot
  }

  /** What an exclusion proof is checked for. */
  predicate Excludes(combine: Combine, p: ExclusionProof)
  {
    && (p.lowerBound.Some? ==>
      Included(combine, p.lowerBound.value) && p.lowerBound.value.leafHash < p.targetHash
      && p.lowerBound.value.expectedRoot == p.expectedRoot)
    && (p.upperBound.Some? ==>
      Included(combine, p.upperBound.value) && p.targetHash < p.upperBound.value.leafHash
      && p.upperBound.value.expectedRoot == p.expectedRoot)
    && (p.lowerBound.Some? && p.upperBound.Some? ==> p.upperBound.value.leafIndex == p.lowerBound.value.leafIndex + 1)
    && (p.lowerBound.Some? || p.upperBound.Some?)
  }

  method VerifyExclusionProof(combine: Combine, p: ExclusionProof) returns (ok: bool)
    ensures ok <==> Excludes(combine, p)
  {
    if p.lowerBound.Some? {
      var lower := p.lowerBound.value;
      var verified := VerifyInclusionProof(combine, lower);
      if !verified || lower.leafHash >= p.targetHash || lower.expectedRoot != p.expectedRoot {
        return false;
      }
    }
    if p.upperBound.Some? {
      var upper := p.upperBound.value;
      var verified := VerifyInclusionProof(combine, upper);
      if !verified || upper.leafHash <= p.targetHash || upper.expectedRoot != p.expectedRoot {
        return false;
      }
    }
    if p.lowerBound.Some? && p.upperBound.Some? {
      if p.upperBound.value.leafIndex != p.lowerBound.value.leafIndex + 1 {
        return false;
      }
    }
    ok := p.lowerBound.Some? || p.upperBound.Some?;
  }

  // --- The sorted index ---

  function Pairs(leaves: seq<Digest>): seq<Entry>
  {
    seq(|leaves|, i requires 0 <= i < |leaves| => (leaves[i], i))
  }

  predicate Sorted(s: seq<Entry>)
  {
    forall i, j :: 0 <= i < j < |s| ==> s[i].0 <= s[j].0
  }

  /** The index lists every leaf with its position, in order of the leaves. */
  predicate Indexes(sorted: seq<Entry>, leaves: seq<Digest>)
  {
    Sorted(sorted) && multiset(sorted) == multiset(Pairs(leaves))
  }

  /** Everything before `pos` is smaller and nothing from it on is. */
  predicate Splits(s: seq<Entry>, target: Digest, pos: nat)
  {
    pos <= |s| && (forall i :: 0 <= i < pos ==> s[i].0 < target) && (forall i :: pos <= i < |s| ==> target < s[i].0)
  }

  method BinarySearch(s: seq<Entry>, target: Digest) returns (found: bool, pos: nat)
    requires Sorted(s)
    ensures found ==> pos < |s| && s[pos].0 == target
    ensures !found ==> Splits(s, target, pos)
  {
    var lo, hi := 0, |s|;
    while lo < hi
      invariant lo <= hi <= |s|
      invariant forall i :: 0 <= i < lo ==> s[i].0 < target
      invariant forall i :: hi <= i < |s| ==> target < s[i].0
    {
      var mid := (lo + hi) / 2;
      if s[mid].0 < target {
        lo := mid + 1;
      } else if target < s[mid].0 {
        hi := mid;
      } else {
        return true, mid;
      }
    }
    return false, lo;
  }

  function Inserted(s: seq<Entry>, pos: nat, e: Entry): seq<Entry>
    requires pos <= |s|
  {
    s[..pos] + [e] + s[pos..]
  }

  lemma InsertedSorted(s: seq<Entry>, pos: nat, e: Entry)
    requires Sorted(s) && pos <= |s|
    requires (forall i :: 0 <= i < pos ==> s[i].0 <= e.0) && (forall i :: pos <= i < |s| ==> e.0 <= s[i].0)
    ensures Sorted(Inserted(s, pos, e)) && multiset(Inserted(s, pos, e)) == multiset(s) + multiset{e}
  {
    assert s == s[..pos] + s[pos..];
  }

  lemma PairsGrow(leaves: seq<Digest>, leaf: Digest)
    ensures Pairs(leaves + [leaf]) == Pairs(leaves) + [(leaf, |leaves|)]
  {
  }

  lemma EntryIsPair(sorted: seq<Entry>, leaves: seq<Digest>, p: nat)
    requires Indexes(sorted, leaves) && p < |sorted|
    ensures sorted[p].1 < |leaves| && leaves[sorted[p].1] == sorted[p].0
  {
    assert sorted[p] in multiset(sorted);
    assert sorted[p] in Pairs(leaves);
  }

  lemma LeafIsIndexed(sorted: seq<Entry>, leaves: seq<Digest>, i: nat)
    requires Indexes(sorted, leaves) && i < |leaves|
    ensures (leaves[i], i) in sorted
  {
    assert Pairs(leaves)[i] in multiset(Pairs(leaves));
  }

  // --- Proofs that the tree hands out ---

  function ProofFor(combine: Combine, leaves: seq<Digest>, i: nat): InclusionProof
    requires i < |leaves|
  {
    InclusionProof(i, leaves[i], Path(combine, leaves, i), Root(combine, leaves), |leaves|)
  }

  /** Every proof the tree hands out verifies and has one step per level below the top. */
  lemma ProofVerifies(combine: Combine, leaves: seq<Digest>, i: nat)
    requires i < |leaves|
    ensures Included(combine, ProofFor(combine, leaves, i))
    ensures |ProofFor(combine, leaves, i).path| == Height(|leaves|) - 1
  {
    PathLeadsToRoot(combine, leaves, i);
  }

  /** The proof of a greatest leaf below the target, or none if there is no such leaf. */
  predicate LowerBound(combine: Combine, leaves: seq<Digest>, target: Digest, o: Option<InclusionProof>)
  {
    match o
    case None => forall i :: 0 <= i < |leaves| ==> target < leaves[i]
    case Some(p) =>
      && p.leafIndex < |leaves| && p == ProofFor(combine, leaves, p.leafIndex) && p.leafHash < target
      && forall i :: 0 <= i < |leaves| ==> leaves[i] <= p.leafHash || target < leaves[i]
  }

  /** The proof of a least leaf above the target, or none if there is no such leaf. */
  predicate UpperBound(combine: Combine, leaves: seq<Digest>, target: Digest, o: Option<InclusionProof>)
  {
    match o
    case None => forall i :: 0 <= i < |leaves| ==> leaves[i] < target
    case Some(p) =>
      && p.leafIndex < |leaves| && p == ProofFor(combine, leaves, p.leafIndex) && target < p.leafHash
      && forall i :: 0 <= i < |leaves| ==> leaves[i] < target || p.leafHash <= leaves[i]
  }

  predicate Nearest(combine: Combine, leaves: seq<Digest>, target: Digest, p: ExclusionProof)
  {
    && 0 < |leaves| && p.targetHash == target && p.expectedRoot == Root(combine, leaves)
    && LowerBound(combine, leaves, target, p.lowerBound) && UpperBound(combine, leaves, target, p.upperBound)
  }

  predicate Consecutive(p: ExclusionProof)
  {
    p.lowerBound.Some? && p.upperBound.Some? ==> p.upperBound.value.leafIndex == p.lowerBound.value.leafIndex + 1
  }

  /**
   * A generated exclusion proof verifies exactly when a bound is missing or the two were inserted one
   * after the other.
   */
  lemma NearestVerifiesIff(combine: Combine, leaves: seq<Digest>, target: Digest, p: ExclusionProof)
    requires Nearest(combine, leaves, target, p)
    ensures Excludes(combine, p) <==> Consecutive(p)
  {
    hide Included, ProofFor;
    var first := leaves[0];
    if p.lowerBound.Some? { BoundVerifies(combine, leaves, p.lowerBound.value); }
    if p.upperBound.Some? { BoundVerifies(combine, leaves, p.upperBound.value); }
  }

  lemma BoundVerifies(combine: Combine, leaves: seq<Digest>, q: InclusionProof)
    requires q.leafIndex < |leaves| && q == ProofFor(combine, leaves, q.leafIndex)
    ensures Included(combine, q) && q.expectedRoot == Root(combine, leaves)
  {
    hide Included;
    ProofVerifies(combine, leaves, q.leafIndex);
  }

  predicate Ascending(leaves: seq<Digest>)
  {
    forall i, j :: 0 <= i < j < |leaves| ==> leaves[i] < leaves[j]
  }

  /** Leaves inserted in ascending order make every generated exclusion proof verify. */
  lemma AscendingVerifies(combine: Combine, leaves: seq<Digest>, target: Digest, p: ExclusionProof)
    requires Ascending(leaves) && Nearest(combine, leaves, target, p)
    ensures Excludes(combine, p)
  {
    hide ProofFor, Excludes, Root;
    NearestVerifiesIff(combine, leaves, target, p);
    if p.lowerBound.Some? && p.upperBound.Some? {
      LeafOf(combine, leaves, p.lowerBound.value);
      LeafOf(combine, leaves, p.upperBound.value);
      Gap(leaves, target, p.lowerBound.value.leafIndex, p.upperBound.value.leafIndex);
    }
  }

  lemma LeafOf(combine: Combine, leaves: seq<Digest>, q: InclusionProof)
    requires q.leafIndex < |leaves| && q == ProofFor(combine, leaves, q.leafIndex)
    ensures q.leafHash == leaves[q.leafIndex]
  {
  }

  lemma Gap(leaves: seq<Digest>, target: Digest, i: nat, j: nat)
    requires Ascending(leaves) && i < |leaves| && j < |leaves| && leaves[i] < target < leaves[j]
    requires forall k :: 0 <= k < |leaves| ==> leaves[k] <= leaves[i] || leaves[j] <= leaves[k]
    ensures j == i + 1
  {
    if i + 1 < |leaves| {
      var next := leaves[i + 1];
    }
  }

  method NextLevel(combine: Combine, level: seq<Digest>) returns (above: seq<Digest>)
    ensures above == Up(combine, level)
  {
    above := [];
    var i := 0;
    while i < |level|
      invariant i <= |level| + 1 && i % 2 == 0 && |above| == i / 2 <= (|level| + 1) / 2
      invariant forall j :: 0 <= j < i / 2 ==> above[j] == Parent(combine, level, j)
    {
      assert Parent(combine, level, i / 2) == combine(level[i], Partner(level, i));
      if i + 1 < |level| {
        above := above + [combine(level[i], level[i + 1])];
      } else {
        above := above + [combine(level[i], level[i])];
      }
      i := i + 2;
    }
  }

  method BuildPath(combine: Combine, leaves: seq<Digest>, leafIndex: nat) returns (path: seq<ProofStep>)
    requires leafIndex < |leaves|
    ensures path == Path(combine, leaves, leafIndex)
  {
    hide Path, Up;
    path := [];
    var level: seq<Digest>, index: nat := leaves, leafIndex;
    while |level| > 1
      invariant index < |level| && path + Path(combine, level, index) == Path(combine, leaves, leafIndex)
      decreases |level|
    {
      var isRight := index % 2 == 1;
      var siblingIndex := if isRight then index - 1 else if index + 1 < |level| then index + 1 else index;
      var step := ProofStep(level[siblingIndex], if isRight then Left else Right);
      assert step == Sibling(level, index);
      PathUnfolds(combine, level, index);
      level := NextLevel(combine, level);
      index := index / 2;
      assert path + ([step] + Path(combine, level, index)) == path + [step] + Path(combine, level, index);
      path := path + [step];
    }
    PathEnds(combine, level, index);
    assert path + [] == path;
  }

  lemma PathUnfolds(combine: Combine, level: seq<Digest>, i: nat)
    requires i < |level| && 1 < |level|
    ensures Path(combine, level, i) == [Sibling(level, i)] + Path(combine, Up(combine, level), i / 2)
  {
  }

  lemma PathEnds(combine: Combine, level: seq<Digest>, i: nat)
    requires i < |level| == 1
    ensures Path(combine, level, i) == []
  {
  }

  class AuditTree {
    const epoch: nat
    var leaves: seq<Digest>
    var sorted: seq<Entry>

    predicate Valid()
      reads this
    {
      Indexes(sorted, leaves)
    }

    constructor (epoch: nat)
      ensures Valid() && leaves == [] && this.epoch == epoch
    {
      this.epoch := epoch;
      leaves, sorted := [], [];
      assert Pairs([]) == [];
    }

    method InsertLeaf(leaf: Digest) returns (index: nat)
      requires Valid()
      modifies this
      ensures Valid() && leaves == old(leaves) + [leaf] && index == |old(leaves)|
    {
      index := |leaves|;
      PairsGrow(leaves, leaf);
      leaves := leaves + [leaf];
      var found, pos := BinarySearch(sorted, leaf);
      InsertedSorted(sorted, pos, (leaf, index));
      sorted := sorted[..pos] + [(leaf, index)] + sorted[pos..];
    }

    method TreeHeight() returns (h: nat)
      ensures h == if |leaves| == 0 then 0 else Height(|leaves|)
    {
      if |leaves| == 0 {
        return 0;
      }
      var count := |leaves|;
      h := 1;
      while count > 1
        invariant 0 < count && h + Height(count) == Height(|leaves|) + 1
      {
        count := (count + 1) / 2;
        h := h + 1;
      }
    }

    method RootHash(combine: Combine, emptyRoot: Digest) returns (root: Digest)
      ensures root == if |leaves| == 0 then emptyRoot else Root(combine, leaves)
    {
      if |leaves| == 0 {
        return emptyRoot;
      }
      var level: seq<Digest> := leaves;
      while |level| > 1
        invariant 0 < |level| && Root(combine, level) == Root(combine, leaves)
        decreases |level|
      {
        level := NextLevel(combine, level);
      }
      root := level[0];
    }

    method GenerateInclusionProof(combine: Combine, leafIndex: nat) returns (r: Result<InclusionProof, Error>)
      ensures r == if leafIndex < |leaves| then Ok(ProofFor(combine, leaves, leafIndex)) else Err(OutOfBounds)
    {
      if leafIndex >= |leaves| {
        return Err(OutOfBounds);
      }
      var expectedRoot := RootHash(combine, 0);
      var path := BuildPath(combine, leaves, leafIndex);
      r := Ok(InclusionProof(leafIndex, leaves[leafIndex], path, expectedRoot, |leaves|));
    }

    method GenerateExclusionProof(combine: Combine, target: Digest) returns (r: Result<ExclusionProof, Error>)
      requires Valid()
      ensures |leaves| == 0 ==> r == Err(EmptyTree)
      ensures |leaves| != 0 ==> (r == Err(TargetPresent) <==> target in leaves)
      ensures |leaves| != 0 && target !in leaves ==> r.Ok? && Nearest(combine, leaves, target, r.value)
    {
      if |leaves| == 0 {
        return Err(EmptyTree);
      }
      var found, pos := BinarySearch(sorted, target);
      if found {
        EntryIsPair(sorted, leaves, pos);
        return Err(TargetPresent);
      }
      SplitsLeaves(sorted, leaves, target, pos);
      var lower: Option<InclusionProof> := None;
      if pos > 0 {
        EntryIsPair(sorted, leaves, pos - 1);
        var q := GenerateInclusionProof(combine, sorted[pos - 1].1);
        lower := Some(q.value);
      }
      var upper: Option<InclusionProof> := None;
      if pos < |sorted| {
        EntryIsPair(sorted, leaves, pos);
        var q := GenerateInclusionProof(combine, sorted[pos].1);
        upper := Some(q.value);
      }
      var root := RootHash(combine, 0);
      r := Ok(ExclusionProof(target, lower, upper, root));
    }
  }

  /** The neighbours of a split are the nearest leaves on either side. */
  lemma SplitsLeaves(sorted: seq<Entry>, leaves: seq<Digest>, target: Digest, pos: nat)
    requires Indexes(sorted, leaves) && Splits(sorted, target, pos)
    ensures forall i :: 0 <= i < |leaves| ==>
      || (leaves[i] < target && 0 < pos && leaves[i] <= sorted[pos - 1].0)
      || (target < leaves[i] && pos < |sorted| && sorted[pos].0 <= leaves[i])
  {
    forall i | 0 <= i < |leaves|
      ensures || (leaves[i] < target && 0 < pos && leaves[i] <= sorted[pos - 1].0)
              || (target < leaves[i] && pos < |sorted| && sorted[pos].0 <= leaves[i])
    {
      LeafIsIndexed(sorted, leaves, i);
      var p :| 0 <= p < |sorted| && sorted[p] == (leaves[i], i);
    }
  }
}
