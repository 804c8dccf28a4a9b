/** When exclusion proofs verify, and what their acceptance says about the target. */
module MerkleExclusion {
  import opened Numbers
  import opened Wrappers
  import opened MerkleProofs
  import opened MerkleAuditTree

  // --- Generated proofs ---

  /** Leaves `i` and `j` are the nearest below and above the target. */
  predicate Neighbours(leaves: seq<Digest>, target: Digest, i: nat, j: nat)
  {
    && i < |leaves| && j < |leaves| && leaves[i] < target < leaves[j]
    && forall k :: 0 <= k < |leaves| ==> leaves[k] <= leaves[i] || leaves[j] <= leaves[k]
  }

  /** All leaves that surround the target most closely were inserted one right after the other. */
  predicate Adjacent(leaves: seq<Digest>, target: Digest)
  {
    forall i, j :: 0 <= i < |leaves| && 0 <= j < |leaves| && Neighbours(leaves, target, i, j) ==> j == i + 1
  }

  function Both(combine: Combine, leaves: seq<Digest>, target: Digest, i: nat, j: nat): ExclusionProof
    requires i < |leaves| && j < |leaves|
  {
    ExclusionProof(target, Some(ProofFor(combine, leaves, i)), Some(ProofFor(combine, leaves, j)),
                   Root(combine, leaves))
  }

  lemma BoundsAreNeighbours(combine: Combine, leaves: seq<Digest>, target: Digest, p: ExclusionProof)
    requires Nearest(combine, leaves, target, p) && target !in leaves && p.lowerBound.Some? && p.upperBound.Some?
    ensures p.lowerBound.value.leafIndex < |leaves| && p.upperBound.value.leafIndex < |leaves|
    ensures Neighbours(leaves, target, p.lowerBound.value.leafIndex, p.upperBound.value.leafIndex)
  {
    hide ProofFor, Root;
    LeafOf(combine, leaves, p.lowerBound.value);
    LeafOf(combine, leaves, p.upperBound.value);
  }

  lemma NeighboursAreBounds(combine: Combine, leaves: seq<Digest>, target: Digest, i: nat, j: nat)
    requires target !in leaves && Neighbours(leaves, target, i, j)
    ensures Nearest(combine, leaves, target, Both(combine, leaves, target, i, j))
  {
    hide Root, Path;
  }

  /** If the nearest leaves were inserted one after the other, whatever proof is generated verifies. */
  lemma AdjacentVerifies(combine: Combine, leaves: seq<Digest>, target: Digest, p: ExclusionProof)
    requires Nearest(combine, leaves, target, p) && target !in leaves && Adjacent(leaves, target)
    ensures Excludes(combine, p)
  {
    hide Nearest, Excludes, Neighbours;
    NearestVerifiesIff(combine, leaves, target, p);
    if p.lowerBound.Some? && p.upperBound.Some? { BoundsAreNeighbours(combine, leaves, target, p); }
  }

  /**
   * For an absent target, every proof that can be generated verifies if and only if the nearest leaves were inserted
   * one right after the other.
   */
  lemma AllVerifyIff(combine: Combine, leaves: seq<Digest>, target: Digest)
    requires target !in leaves
    ensures (forall p :: Nearest(combine, leaves, target, p) ==> Excludes(combine, p)) <==> Adjacent(leaves, target)
  {
    hide Nearest, Excludes, Neighbours;
    if Adjacent(leaves, target) {
      forall p | Nearest(combine, leaves, target, p) ensures Excludes(combine, p) {
        AdjacentVerifies(combine, leaves, target, p);
      }
    }
    if forall p :: Nearest(combine, leaves, target, p) ==> Excludes(combine, p) {
      forall i, j | 0 <= i < |leaves| && 0 <= j < |leaves| && Neighbours(leaves, target, i, j) ensures j == i + 1 {
        var p := Both(combine, leaves, target, i, j);
        NeighboursAreBounds(combine, leaves, target, i, j);
        NearestVerifiesIff(combine, leaves, target, p);
      }
    }
  }

  /** With distinct leaves the generated proof is unique, and the condition decides it. */
  lemma DistinctVerifiesIff(combine: Combine, leaves: seq<Digest>, target: Digest, p: ExclusionProof)
    requires Nearest(combine, leaves, target, p) && target !in leaves && Distinct(leaves)
    ensures Excludes(combine, p) <==> Adjacent(leaves, target)
  {
    hide Nearest, Excludes;
    if Adjacent(leaves, target) {
      AdjacentVerifies(combine, leaves, target, p);
    } else {
      var i, j :| 0 <= i < |leaves| && 0 <= j < |leaves| && Neighbours(leaves, target, i, j) && j != i + 1;
      NearestVerifiesIff(combine, leaves, target, p);
      TwoBounds(combine, leaves, target, p, i, j);
      BoundsAreNeighbours(combine, leaves, target, p);
      SameNeighbours(leaves, target, i, j, p.lowerBound.value.leafIndex, p.upperBound.value.leafIndex);
    }
  }

  lemma TwoBounds(combine: Combine, leaves: seq<Digest>, target: Digest, p: ExclusionProof, i: nat, j: nat)
    requires Nearest(combine, leaves, target, p) && Neighbours(leaves, target, i, j)
    ensures p.lowerBound.Some? && p.upperBound.Some?
  {
    hide ProofFor, Root;
    var below, above := leaves[i], leaves[j];
  }

  lemma SameNeighbours(leaves: seq<Digest>, target: Digest, i: nat, j: nat, k: nat, l: nat)
    requires Distinct(leaves) && Neighbours(leaves, target, i, j) && Neighbours(leaves, target, k, l)
    ensures k == i && l == j
  {
    assert leaves[i] == leaves[k] && leaves[j] == leaves[l];
  }

  /** Insertion order matters: with leaves 9 and 1, in that order, the proof generated for 5 is rejected. */
  lemma OutOfOrderRejected(combine: Combine, p: ExclusionProof)
    requires Nearest(combine, [9, 1], 5, p)
    ensures !Excludes(combine, p)
  {
    hide Nearest, Excludes;
    DistinctVerifiesIff(combine, [9, 1], 5, p);
    assert Neighbours([9, 1], 5, 1, 0);
  }

  // --- What acceptance says ---

  /** The code accepts the proof, and it is against this tree's root. */
  predicate Accepts(combine: Combine, leaves: seq<Digest>, p: ExclusionProof)
  {
    0 < |leaves| && Excludes(combine, p) && p.expectedRoot == Root(combine, leaves)
  }

  predicate TwoSided(p: ExclusionProof)
  {
    p.lowerBound.Some? && p.upperBound.Some?
  }

  /** The bounds' paths have at most one step per level below the top. */
  predicate WithinTree(leaves: seq<Digest>, p: ExclusionProof)
  {
    && 0 < |leaves|
    && (p.lowerBound.Some? ==> |p.lowerBound.value.path| < Height(|leaves|))
    && (p.upperBound.Some? ==> |p.upperBound.value.path| < Height(|leaves|))
  }

  /** The bounds' paths have exactly one step per level below the top. */
  predicate FullPaths(leaves: seq<Digest>, p: ExclusionProof)
  {
    && 0 < |leaves|
    && (p.lowerBound.Some? ==> |p.lowerBound.value.path| == Height(|leaves|) - 1)
    && (p.upperBound.Some? ==> |p.upperBound.value.path| == Height(|leaves|) - 1)
  }

  /** And the bounds claim the indices that their paths spell. */
  predicate OwnIndices(leaves: seq<Digest>, p: ExclusionProof)
    requires FullPaths(leaves, p)
  {
    && (p.lowerBound.Some? ==> p.lowerBound.value.leafIndex == Position(|leaves|, p.lowerBound.value.path))
    && (p.upperBound.Some? ==> p.upperBound.value.leafIndex == Position(|leaves|, p.upperBound.value.path))
  }

  /** The proof that claims indices 0 and 1 for any two starting points. */
  function Claiming(combine: Combine, leaves: seq<Digest>, target: Digest, a: Digest, below: seq<ProofStep>,
                    b: Digest, above: seq<ProofStep>): ExclusionProof
    requires 0 < |leaves|
  {
    var root := Root(combine, leaves);
    ExclusionProof(target, Some(InclusionProof(0, a, below, root, |leaves|)),
                   Some(InclusionProof(1, b, above, root, |leaves|)), root)
  }

  lemma ClaimingAccepted(combine: Combine, leaves: seq<Digest>, target: Digest, a: Digest, below: seq<ProofStep>,
                         b: Digest, above: seq<ProofStep>)
    requires 0 < |leaves| && a < target < b
    requires Climb(combine, a, below) == Root(combine, leaves) == Climb(combine, b, above)
    ensures Accepts(combine, leaves, Claiming(combine, leaves, target, a, below, b, above))
  {
    hide Climb, Root;
  }

  /** Some path of any length leads from `d` to the tree's root. */
  ghost predicate Starts(combine: Combine, leaves: seq<Digest>, d: Digest)
    requires 0 < |leaves|
  {
    exists n: nat :: Reaches(combine, d, n, Root(combine, leaves))
  }

  /** No leaf lies strictly between two digests from which a path leads to the root. */
  ghost predicate NoneBetweenStarts(combine: Combine, leaves: seq<Digest>)
    requires 0 < |leaves|
  {
    forall a: Digest, k, b: Digest :: 0 <= k < |leaves| && Starts(combine, leaves, a) && Starts(combine, leaves, b) ==>
      !(a < leaves[k] < b)
  }

  lemma BoundStarts(combine: Combine, leaves: seq<Digest>, q: InclusionProof)
    requires 0 < |leaves| && Included(combine, q) && q.expectedRoot == Root(combine, leaves)
    ensures Reaches(combine, q.leafHash, |q.path|, Root(combine, leaves)) && Starts(combine, leaves, q.leafHash)
  {
    hide Climb, Root;
  }

  /** All that the code accepts with two bounds is absent exactly when no leaf lies between two starting points. */
  lemma TwoBoundsAcceptedIff(combine: Combine, leaves: seq<Digest>)
    requires 0 < |leaves|
    ensures (forall p :: Accepts(combine, leaves, p) && TwoSided(p) ==> p.targetHash !in leaves) <==>
      NoneBetweenStarts(combine, leaves)
  {
    hide Climb, Root, Included;
    if NoneBetweenStarts(combine, leaves) {
      hide Starts;
      forall p | Accepts(combine, leaves, p) && TwoSided(p) ensures p.targetHash !in leaves {
        BoundStarts(combine, leaves, p.lowerBound.value);
        BoundStarts(combine, leaves, p.upperBound.value);
      }
    } else {
      var a: Digest, k, b: Digest :| 0 <= k < |leaves| && Starts(combine, leaves, a) && Starts(combine, leaves, b) &&
        a < leaves[k] < b;
      var below: seq<ProofStep> :| Climb(combine, a, below) == Root(combine, leaves);
      var above: seq<ProofStep> :| Climb(combine, b, above) == Root(combine, leaves);
      ClaimingAccepted(combine, leaves, leaves[k], a, below, b, above);
      assert Claiming(combine, leaves, leaves[k], a, below, b, above).targetHash in leaves;
    }
  }

  /** `d` is a node of the tree, on any level. */
  predicate IsNode(combine: Combine, leaves: seq<Digest>, d: Digest)
    requires 0 < |leaves|
  {
    exists up :: 0 <= up < Height(|leaves|) && d in Level(combine, leaves, up)
  }

  /** No leaf lies strictly between two nodes. */
  ghost predicate NoneBetweenNodes(combine: Combine, leaves: seq<Digest>)
    requires 0 < |leaves|
  {
    forall a: Digest, k, b: Digest :: 0 <= k < |leaves| && IsNode(combine, leaves, a) && IsNode(combine, leaves, b) ==>
      !(a < leaves[k] < b)
  }

  lemma BoundIsNode(combine: Combine, leaves: seq<Digest>, q: InclusionProof)
    requires Injective(combine) && 0 < |leaves| && |q.path| < Height(|leaves|)
    requires Included(combine, q) && q.expectedRoot == Root(combine, leaves)
    ensures IsNode(combine, leaves, q.leafHash)
  {
    hide Injective, Included, Root, Level, Height, Reaches, Starts;
    BoundStarts(combine, leaves, q);
    ShortPathIff(combine, leaves, q.leafHash, |q.path|);
  }

  lemma NodeHasPath(combine: Combine, leaves: seq<Digest>, d: Digest) returns (path: seq<ProofStep>)
    requires Injective(combine) && 0 < |leaves| && IsNode(combine, leaves, d)
    ensures |path| < Height(|leaves|) && Climb(combine, d, path) == Root(combine, leaves)
  {
    hide Injective, Climb, Root, Level, Height;
    var up :| 0 <= up < Height(|leaves|) && d in Level(combine, leaves, up);
    var n := Height(|leaves|) - 1 - up;
    ShortPathIff(combine, leaves, d, n);
    path :| |path| == n && Climb(combine, d, path) == Root(combine, leaves);
  }

  /** With paths no longer than the tree is high, the starting points are the nodes of the tree. */
  lemma TwoBoundsWithinTreeIff(combine: Combine, leaves: seq<Digest>)
    requires Injective(combine) && 0 < |leaves|
    ensures (forall p :: Accepts(combine, leaves, p) && TwoSided(p) && WithinTree(leaves, p) ==>
      p.targetHash !in leaves) <==> NoneBetweenNodes(combine, leaves)
  {
    hide Injective, Climb, Root, Included, IsNode, Height;
    if NoneBetweenNodes(combine, leaves) {
      forall p | Accepts(combine, leaves, p) && TwoSided(p) && WithinTree(leaves, p) ensures p.targetHash !in leaves {
        BoundIsNode(combine, leaves, p.lowerBound.value);
        BoundIsNode(combine, leaves, p.upperBound.value);
      }
    } else {
      var a: Digest, k, b: Digest :| 0 <= k < |leaves| && IsNode(combine, leaves, a) && IsNode(combine, leaves, b) &&
        a < leaves[k] < b;
      var below := NodeHasPath(combine, leaves, a);
      var above := NodeHasPath(combine, leaves, b);
      ClaimingAccepted(combine, leaves, leaves[k], a, below, b, above);
      assert WithinTree(leaves, Claiming(combine, leaves, leaves[k], a, below, b, above));
      assert Claiming(combine, leaves, leaves[k], a, below, b, above).targetHash in leaves;
    }
  }

  predicate Surrounded(leaves: seq<Digest>, i: nat, k: nat, j: nat)
    requires i < |leaves| && k < |leaves| && j < |leaves|
  {
    leaves[i] < leaves[k] < leaves[j]
  }

  /** No leaf lies strictly between two others: the leaves take at most two values. */
  predicate NoneSurrounded(leaves: seq<Digest>)
  {
    forall i, k, j :: 0 <= i < |leaves| && 0 <= k < |leaves| && 0 <= j < |leaves| ==> !Surrounded(leaves, i, k, j)
  }

  lemma BoundIsLeaf(combine: Combine, leaves: seq<Digest>, q: InclusionProof)
    requires Injective(combine) && 0 < |leaves| && |q.path| == Height(|leaves|) - 1 && Included(combine, q)
    requires q.expectedRoot == Root(combine, leaves)
    ensures q.leafHash == leaves[Position(|leaves|, q.path)]
  {
    AcceptedIsPresent(combine, leaves, q.leafHash, q.path);
  }

  /**
   * With paths of full length and the indices only claimed, as the code leaves them, acceptance with both bounds means
   * absence exactly for trees in which no leaf lies strictly between two others.
   */
  lemma TwoBoundsFullPathsIff(combine: Combine, leaves: seq<Digest>)
    requires Injective(combine) && 0 < |leaves|
    ensures (forall p :: Accepts(combine, leaves, p) && TwoSided(p) && FullPaths(leaves, p) ==>
      p.targetHash !in leaves) <==> NoneSurrounded(leaves)
  {
    hide Injective, Climb, Root, Included, Height, Surrounded, Position;
    if NoneSurrounded(leaves) {
      forall p | Accepts(combine, leaves, p) && TwoSided(p) && FullPaths(leaves, p) ensures p.targetHash !in leaves {
        FullBoundsSurround(combine, leaves, p);
      }
    } else {
      var i, k, j :| 0 <= i < |leaves| && 0 <= k < |leaves| && 0 <= j < |leaves| && Surrounded(leaves, i, k, j);
      SurroundedAccepted(combine, leaves, i, k, j);
      var p := Claimed(combine, leaves, i, k, j);
      assert Accepts(combine, leaves, p) && TwoSided(p) && FullPaths(leaves, p) && p.targetHash in leaves;
    }
  }

  lemma FullBoundsSurround(combine: Combine, leaves: seq<Digest>, p: ExclusionProof)
    requires Injective(combine) && Accepts(combine, leaves, p) && TwoSided(p) && FullPaths(leaves, p)
    requires NoneSurrounded(leaves)
    ensures p.targetHash !in leaves
  {
    hide Injective, Root, Included, Height, Position;
    BoundIsLeaf(combine, leaves, p.lowerBound.value);
    BoundIsLeaf(combine, leaves, p.upperBound.value);
    var i := Position(|leaves|, p.lowerBound.value.path);
    var j := Position(|leaves|, p.upperBound.value.path);
    forall k | 0 <= k < |leaves| ensures leaves[k] != p.targetHash {
      assert !Surrounded(leaves, i, k, j);
    }
  }

  /** The generated proofs of leaves `i` and `j` with their indices replaced by 0 and 1. */
  function Claimed(combine: Combine, leaves: seq<Digest>, i: nat, k: nat, j: nat): ExclusionProof
    requires i < |leaves| && k < |leaves| && j < |leaves|
  {
    Claiming(combine, leaves, leaves[k], leaves[i], Path(combine, leaves, i), leaves[j], Path(combine, leaves, j))
  }

  lemma SurroundedAccepted(combine: Combine, leaves: seq<Digest>, i: nat, k: nat, j: nat)
    requires i < |leaves| && k < |leaves| && j < |leaves| && Surrounded(leaves, i, k, j)
    ensures var p := Claimed(combine, leaves, i, k, j); Accepts(combine, leaves, p) && FullPaths(leaves, p)
  {
    hide Climb, Root, Path, Height;
    PathLeadsToRoot(combine, leaves, i);
    PathLeadsToRoot(combine, leaves, j);
    ClaimingAccepted(combine, leaves, leaves[k], leaves[i], Path(combine, leaves, i),
                     leaves[j], Path(combine, leaves, j));
  }

  /** On the ascending leaves 1, 5 and 9, the code accepts 5 as absent between 1 and 9 with the indices 0 and 1. */
  lemma PresentWithClaimedIndex(combine: Combine)
    ensures var p := Claimed(combine, [1, 5, 9], 0, 1, 2);
      && Ascending([1, 5, 9]) && Accepts(combine, [1, 5, 9], p) && FullPaths([1, 5, 9], p)
      && p.targetHash == 5 && p.targetHash in [1, 5, 9]
  {
    hide Accepts, FullPaths, Path;
    SurroundedAccepted(combine, [1, 5, 9], 0, 1, 2);
  }

  // --- When the indices are checked as well ---

  /** Leaf `k` lies strictly between leaf `i` and the one inserted after it. */
  predicate Between(leaves: seq<Digest>, i: nat, k: nat)
    requires i < |leaves| && k < |leaves|
  {
    i + 1 < |leaves| && leaves[i] < leaves[k] < leaves[i + 1]
  }

  /** No leaf lies strictly between two leaves inserted one after the other. */
  predicate NoneBetween(leaves: seq<Digest>)
  {
    forall i, k :: 0 <= i < |leaves| && 0 <= k < |leaves| ==> !Between(leaves, i, k)
  }

  /** For a caller who checks the indices too, an accepted proof with both bounds means that the target is absent. */
  lemma AcceptedMeansAbsent(combine: Combine, leaves: seq<Digest>, p: ExclusionProof)
    requires Injective(combine) && NoneBetween(leaves)
    requires Accepts(combine, leaves, p) && TwoSided(p) && FullPaths(leaves, p) && OwnIndices(leaves, p)
    ensures p.targetHash !in leaves
  {
    hide Injective, Included, Root;
    BoundIsLeaf(combine, leaves, p.lowerBound.value);
    BoundIsLeaf(combine, leaves, p.upperBound.value);
    var i := p.lowerBound.value.leafIndex;
    forall k | 0 <= k < |leaves| ensures leaves[k] != p.targetHash { assert !Between(leaves, i, k); }
  }

  /** So it does for every tree whose leaves were inserted in ascending order. */
  lemma AscendingMeansAbsent(combine: Combine, leaves: seq<Digest>, p: ExclusionProof)
    requires Injective(combine) && Ascending(leaves)
    requires Accepts(combine, leaves, p) && TwoSided(p) && FullPaths(leaves, p) && OwnIndices(leaves, p)
    ensures p.targetHash !in leaves
  {
    hide Accepts, FullPaths, OwnIndices, Injective;
    assert NoneBetween(leaves);
    AcceptedMeansAbsent(combine, leaves, p);
  }

  /** With indices checked, acceptance means absence exactly where no leaf lies between consecutive ones. */
  lemma TwoBoundsSoundIff(combine: Combine, leaves: seq<Digest>)
    requires Injective(combine) && 0 < |leaves|
    ensures (forall p :: Accepts(combine, leaves, p) && TwoSided(p) && FullPaths(leaves, p) && OwnIndices(leaves, p) ==>
      p.targetHash !in leaves) <==> NoneBetween(leaves)
  {
    hide Accepts, FullPaths, OwnIndices, Injective, ProofFor, Root, Between;
    if NoneBetween(leaves) {
      forall p | Accepts(combine, leaves, p) && TwoSided(p) && FullPaths(leaves, p) && OwnIndices(leaves, p)
        ensures p.targetHash !in leaves
      {
        AcceptedMeansAbsent(combine, leaves, p);
      }
    } else {
      var i, k :| 0 <= i < |leaves| && 0 <= k < |leaves| && Between(leaves, i, k);
      BothAccepted(combine, leaves, i, k);
      var p := Both(combine, leaves, leaves[k], i, i + 1);
      assert Accepts(combine, leaves, p) && TwoSided(p) && p.targetHash in leaves;
    }
  }

  lemma GeneratedPath(combine: Combine, leaves: seq<Digest>, i: nat)
    requires i < |leaves|
    ensures var q := ProofFor(combine, leaves, i);
      Included(combine, q) && |q.path| == Height(|leaves|) - 1 && q.leafIndex == Position(|leaves|, q.path)
  {
    PathSpells(combine, leaves, i);
    PathLeadsToRoot(combine, leaves, i);
  }

  lemma BothAccepted(combine: Combine, leaves: seq<Digest>, i: nat, k: nat)
    requires i < |leaves| && k < |leaves| && Between(leaves, i, k)
    ensures i + 1 < |leaves|
    ensures var p := Both(combine, leaves, leaves[k], i, i + 1);
      Accepts(combine, leaves, p) && FullPaths(leaves, p) && OwnIndices(leaves, p)
  {
    hide Included, Root, Path, Position, Height;
    GeneratedPath(combine, leaves, i);
    GeneratedPath(combine, leaves, i + 1);
  }

  /** With leaves 1, 9 and 5, two genuine and consecutive bounds are accepted for 5, which is in the tree. */
  lemma PresentWithTwoBounds(combine: Combine)
    ensures var p := Both(combine, [1, 9, 5], 5, 0, 1);
      && Accepts(combine, [1, 9, 5], p) && FullPaths([1, 9, 5], p) && OwnIndices([1, 9, 5], p)
      && p.targetHash in [1, 9, 5]
  {
    hide Accepts, FullPaths, OwnIndices;
    BothAccepted(combine, [1, 9, 5], 0, 2);
  }

  // --- One bound alone ---

  function LowerOnly(combine: Combine, leaves: seq<Digest>, target: Digest, i: nat): ExclusionProof
    requires i < |leaves|
  {
    ExclusionProof(target, Some(ProofFor(combine, leaves, i)), None, Root(combine, leaves))
  }

  lemma LowerAccepted(combine: Combine, leaves: seq<Digest>, i: nat, target: Digest)
    requires i < |leaves| && leaves[i] < target
    ensures var p := LowerOnly(combine, leaves, target, i); Accepts(combine, leaves, p) && FullPaths(leaves, p)
  {
    hide Included, Root, Path, Position, Height;
    GeneratedPath(combine, leaves, i);
  }

  predicate AllEqual(leaves: seq<Digest>)
  {
    forall i, k :: 0 <= i < |leaves| && 0 <= k < |leaves| ==> leaves[i] <= leaves[k]
  }

  /** Acceptance with one bound alone means absence only for trees whose leaves are all the same. */
  lemma OneBoundSoundIff(combine: Combine, leaves: seq<Digest>)
    requires Injective(combine) && 0 < |leaves|
    ensures (forall p :: Accepts(combine, leaves, p) && !TwoSided(p) && FullPaths(leaves, p) ==>
      p.targetHash !in leaves) <==> AllEqual(leaves)
  {
    hide Injective, Included, Root, Position, Height;
    if AllEqual(leaves) {
      forall p | Accepts(combine, leaves, p) && !TwoSided(p) && FullPaths(leaves, p) ensures p.targetHash !in leaves {
        BoundIsLeaf(combine, leaves, if p.lowerBound.Some? then p.lowerBound.value else p.upperBound.value);
      }
    } else {
      var i, k :| 0 <= i < |leaves| && 0 <= k < |leaves| && leaves[k] < leaves[i];
      LowerAccepted(combine, leaves, k, leaves[i]);
      assert LowerOnly(combine, leaves, leaves[i], k).targetHash in leaves;
    }
  }

  /** All that the code accepts with one bound is absent exactly when every starting point equals every leaf. */
  lemma OneBoundAcceptedIff(combine: Combine, leaves: seq<Digest>)
    requires 0 < |leaves|
    ensures (forall p :: Accepts(combine, leaves, p) && !TwoSided(p) ==> p.targetHash !in leaves) <==>
      forall d: Digest, k :: 0 <= k < |leaves| && Starts(combine, leaves, d) ==> d == leaves[k]
  {
    hide Climb, Root, Included;
    if forall d: Digest, k :: 0 <= k < |leaves| && Starts(combine, leaves, d) ==> d == leaves[k] {
      hide Starts;
      forall p | Accepts(combine, leaves, p) && !TwoSided(p) ensures p.targetHash !in leaves {
        BoundStarts(combine, leaves, if p.lowerBound.Some? then p.lowerBound.value else p.upperBound.value);
      }
    } else {
      var d: Digest, k :| 0 <= k < |leaves| && Starts(combine, leaves, d) && d != leaves[k];
      var path: seq<ProofStep> :| Climb(combine, d, path) == Root(combine, leaves);
      var p := Alone(combine, leaves, leaves[k], d, path);
      AloneAccepted(combine, leaves, leaves[k], d, path);
      assert Accepts(combine, leaves, p) && !TwoSided(p) && p.targetHash in leaves;
    }
  }

  /** The proof with one bound, on whichever side of the target it lies. */
  function Alone(combine: Combine, leaves: seq<Digest>, target: Digest, d: Digest, path: seq<ProofStep>): ExclusionProof
    requires 0 < |leaves|
  {
    var root := Root(combine, leaves);
    var q := Some(InclusionProof(0, d, path, root, |leaves|));
    ExclusionProof(target, if d < target then q else None, if d < target then None else q, root)
  }

  lemma AloneAccepted(combine: Combine, leaves: seq<Digest>, target: Digest, d: Digest, path: seq<ProofStep>)
    requires 0 < |leaves| && d != target && Climb(combine, d, path) == Root(combine, leaves)
    ensures Accepts(combine, leaves, Alone(combine, leaves, target, d, path))
  {
    hide Climb, Root;
  }

  /** With leaves 1 and 5 a lower bound alone is accepted for 5, which is in the tree. */
  lemma PresentWithOneBound(combine: Combine)
    ensures var p := LowerOnly(combine, [1, 5], 5, 0);
      Accepts(combine, [1, 5], p) && FullPaths([1, 5], p) && p.targetHash in [1, 5]
  {
    hide Accepts, FullPaths;
    LowerAccepted(combine, [1, 5], 0, 5);
  }
}
