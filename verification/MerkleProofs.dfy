/** Merkle levels, roots and inclusion proofs over a list of leaves. */
module MerkleProofs {
  import opened Numbers
  import opened Words

  /** A 32-byte digest as a number; byte order on arrays is numeric order here. */
  type Digest = nat

  type Combine = (Digest, Digest) -> Digest

  datatype Direction = Left | Right

  datatype ProofStep = ProofStep(sibling: Digest, direction: Direction)

  /** The right partner of node `i`: its neighbour, or itself at an odd end. */
  function Partner(level: seq<Digest>, i: nat): Digest
    requires i < |level|
  {
    if i + 1 < |level| then level[i + 1] else level[i]
  }

  function Parent(combine: Combine, level: seq<Digest>, j: nat): Digest
    requires 2 * j < |level|
  {
    combine(level[2 * j], Partner(level, 2 * j))
  }

  /** The level above. */
  function Up(combine: Combine, level: seq<Digest>): (above: seq<Digest>)
    ensures |above| == (|level| + 1) / 2
  {
    seq((|level| + 1) / 2, j requires 0 <= j < (|level| + 1) / 2 => Parent(combine, level, j))
  }

  function Root(combine: Combine, level: seq<Digest>): Digest
    requires 0 < |level|
    decreases |level|
  {
    if |level| == 1 then level[0] else Root(combine, Up(combine, level))
  }

  /** The first two leaves are combined in order, and an odd end with itself. */
  lemma SmallRoots(combine: Combine, a: Digest, b: Digest, c: Digest)
    ensures Root(combine, [a]) == a && Root(combine, [a, b]) == combine(a, b)
    ensures Root(combine, [a, b, c]) == combine(combine(a, b), combine(c, c))
  {
    assert Up(combine, [a, b]) == [combine(a, b)];
    var above := [combine(a, b), combine(c, c)];
    assert Up(combine, [a, b, c]) == above;
    assert Up(combine, above) == [combine(above[0], above[1])];
    assert Root(combine, above) == Root(combine, [combine(above[0], above[1])]);
  }

  /** One level up, node j combines nodes 2j and 2j + 1 of the level below, in this order. */
  lemma LevelUp(combine: Combine, level: seq<Digest>, j: nat)
    requires 2 * j + 1 < |level|
    ensures Up(combine, level)[j] == combine(level[2 * j], level[2 * j + 1])
  {
  }

  function Height(n: nat): nat
    requires 0 < n
  {
    if n == 1 then 1 else 1 + Height((n + 1) / 2)
  }

  function Sibling(level: seq<Digest>, i: nat): ProofStep
    requires i < |level|
  {
    if i % 2 == 1 then ProofStep(level[i - 1], Left) else ProofStep(Partner(level, i), Right)
  }

  /** The siblings on the way from leaf `i` to the root. */
  function Path(combine: Combine, level: seq<Digest>, i: nat): seq<ProofStep>
    requires i < |level|
    decreases |level|
  {
    if |level| == 1 then [] else [Sibling(level, i)] + Path(combine, Up(combine, level), i / 2)
  }

  /** The first step names the other child: to the left of an odd position, to the right of an even one. */
  lemma FirstStep(combine: Combine, level: seq<Digest>, i: nat)
    requires i < |level| && 1 < |level|
    ensures var step := Path(combine, level, i)[0];
      if i % 2 == 1 then step == ProofStep(level[i - 1], Left)
      else step == ProofStep(if i + 1 < |level| then level[i + 1] else level[i], Right)
  {
  }

  function Apply(combine: Combine, current: Digest, step: ProofStep): Digest
  {
    match step.direction
    case Left => combine(step.sibling, current)
    case Right => combine(current, step.sibling)
  }

  /** The root that a leaf and a path lead to. */
  function Climb(combine: Combine, leaf: Digest, path: seq<ProofStep>): Digest
    decreases |path|
  {
    if |path| == 0 then leaf else Climb(combine, Apply(combine, leaf, path[0]), path[1..])
  }

  /** A generated path leads from its leaf to the root, and has one step per level below the top. */
  lemma {:induction false} PathLeadsToRoot(combine: Combine, level: seq<Digest>, i: nat)
    requires i < |level|
    ensures Climb(combine, level[i], Path(combine, level, i)) == Root(combine, level)
    ensures |Path(combine, level, i)| == Height(|level|) - 1
    decreases |level|
  {
    if |level| != 1 {
      var above, path := Up(combine, level), Path(combine, level, i);
      PathLeadsToRoot(combine, above, i / 2);
      assert path[1..] == Path(combine, above, i / 2);
      assert Apply(combine, level[i], path[0]) == above[i / 2];
    }
  }

  /** The leaf position that a path's directions spell, an odd end standing for both of its copies. */
  function Position(n: nat, path: seq<ProofStep>): (i: nat)
    requires 0 < n && |path| == Height(n) - 1
    ensures i < n
    decreases |path|
  {
    if |path| == 0 then 0
    else
      var j := Position((n + 1) / 2, path[1..]);
      Min(if path[0].direction == Left then 2 * j + 1 else 2 * j, n - 1)
  }

  ghost predicate Injective(combine: Combine)
  {
    forall a: Digest, b: Digest, c: Digest, d: Digest :: combine(a, b) == combine(c, d) ==> a == c && b == d
  }

  /** A path of the right length that reaches the root starts from the leaf at the position it spells. */
  lemma {:induction false} AcceptedIsPresent(combine: Combine, level: seq<Digest>, leaf: Digest, path: seq<ProofStep>)
    requires Injective(combine) && 0 < |level| && |path| == Height(|level|) - 1
    requires Climb(combine, leaf, path) == Root(combine, level)
    ensures level[Position(|level|, path)] == leaf
    decreases |path|
  {
    if |path| != 0 {
      var above := Up(combine, level);
      AcceptedIsPresent(combine, above, Apply(combine, leaf, path[0]), path[1..]);
      var j := Position(|above|, path[1..]);
      assert above[j] == Parent(combine, level, j);
    }
  }

  // --- Paths of any length ---

  /** The level that is `up` steps above the given one. */
  function Level(combine: Combine, level: seq<Digest>, up: nat): (r: seq<Digest>)
    requires 0 < |level| && up < Height(|level|)
    ensures 0 < |r| && Height(|r|) == Height(|level|) - up
    decreases up
  {
    if up == 0 then level else Level(combine, Up(combine, level), up - 1)
  }

  lemma {:induction false} SameRoot(combine: Combine, level: seq<Digest>, up: nat)
    requires 0 < |level| && up < Height(|level|)
    ensures Root(combine, Level(combine, level, up)) == Root(combine, level)
    decreases up
  {
    if up != 0 { SameRoot(combine, Up(combine, level), up - 1); }
  }

  /** Some path of `n` steps leads to the root. */
  ghost predicate Reaches(combine: Combine, start: Digest, n: nat, root: Digest)
  {
    exists path: seq<ProofStep> :: |path| == n && Climb(combine, start, path) == root
  }

  /** Paths of full length start exactly from the nodes of the lowest level. */
  lemma ReachesFromLeaves(combine: Combine, level: seq<Digest>, start: Digest)
    requires Injective(combine) && 0 < |level|
    ensures Reaches(combine, start, Height(|level|) - 1, Root(combine, level)) <==> start in level
  {
    hide Injective, Climb, Root, Path;
    if Reaches(combine, start, Height(|level|) - 1, Root(combine, level)) {
      var path: seq<ProofStep> :| |path| == Height(|level|) - 1 && Climb(combine, start, path) == Root(combine, level);
      AcceptedIsPresent(combine, level, start, path);
    }
    if start in level {
      var i :| 0 <= i < |level| && level[i] == start;
      PathLeadsToRoot(combine, level, i);
    }
  }

  /** A path shorter than the tree is high is accepted exactly for the nodes that many steps below the root. */
  lemma ShortPathIff(combine: Combine, leaves: seq<Digest>, start: Digest, n: nat)
    requires Injective(combine) && 0 < |leaves| && n < Height(|leaves|)
    ensures Reaches(combine, start, n, Root(combine, leaves)) <==>
      start in Level(combine, leaves, Height(|leaves|) - 1 - n)
  {
    hide Injective, Reaches, Root, Level;
    var up := Height(|leaves|) - 1 - n;
    SameRoot(combine, leaves, up);
    ReachesFromLeaves(combine, Level(combine, leaves, up), start);
  }

  lemma {:induction false} ClimbConcat(combine: Combine, start: Digest, a: seq<ProofStep>, b: seq<ProofStep>)
    ensures Climb(combine, start, a + b) == Climb(combine, Climb(combine, start, a), b)
    decreases |a|
  {
    if |a| == 0 {
      assert a + b == b;
    } else {
      ClimbConcat(combine, Apply(combine, start, a[0]), a[1..], b);
      assert (a + b)[1..] == a[1..] + b;
    }
  }

  /** A longer path is accepted exactly where its extra steps lead to a leaf. */
  lemma LongPathIff(combine: Combine, leaves: seq<Digest>, start: Digest, extra: nat)
    requires Injective(combine) && 0 < |leaves|
    ensures Reaches(combine, start, extra + Height(|leaves|) - 1, Root(combine, leaves)) <==>
      exists leaf :: leaf in leaves && Reaches(combine, start, extra, leaf)
  {
    hide Injective, Climb, Root;
    var n, root := extra + Height(|leaves|) - 1, Root(combine, leaves);
    if Reaches(combine, start, n, root) {
      var path: seq<ProofStep> :| |path| == n && Climb(combine, start, path) == root;
      var leaf := Climb(combine, start, path[..extra]);
      assert path == path[..extra] + path[extra..];
      ClimbConcat(combine, start, path[..extra], path[extra..]);
      assert Reaches(combine, leaf, Height(|leaves|) - 1, root);
      ReachesFromLeaves(combine, leaves, leaf);
      assert leaf in leaves && Reaches(combine, start, extra, leaf);
    }
    if leaf :| leaf in leaves && Reaches(combine, start, extra, leaf) {
      ReachesFromLeaves(combine, leaves, leaf);
      var a: seq<ProofStep> :| |a| == extra && Climb(combine, start, a) == leaf;
      var b: seq<ProofStep> :| |b| == Height(|leaves|) - 1 && Climb(combine, leaf, b) == root;
      ClimbConcat(combine, start, a, b);
      assert |a + b| == n;
    }
  }

  /** A generated path spells its own leaf's position. */
  lemma {:induction false} PathSpells(combine: Combine, level: seq<Digest>, i: nat)
    requires i < |level|
    ensures |Path(combine, level, i)| == Height(|level|) - 1
    ensures Position(|level|, Path(combine, level, i)) == i
    decreases |level|
  {
    if |level| != 1 {
      var above, path := Up(combine, level), Path(combine, level, i);
      PathSpells(combine, above, i / 2);
      assert path[1..] == Path(combine, above, i / 2);
    }
  }

  /** The height is the smallest whose full tree has room for the leaves. */
  lemma {:induction false} HeightIsLeast(n: nat)
    requires 0 < n
    ensures 0 < Height(n) && n <= Pow2(Height(n) - 1)
    ensures 1 < n ==> 1 < Height(n) && Pow2(Height(n) - 2) < n
  {
    if n != 1 {
      HeightIsLeast((n + 1) / 2);
      assert Pow2(Height(n) - 1) == 2 * Pow2(Height(n) - 2);
    }
  }
}
