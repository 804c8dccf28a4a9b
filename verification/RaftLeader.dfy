/** Sending, tallying acknowledgements and committing keep the invariant. */
module RaftLeader {
  import opened FiniteSets
  import opened Wrappers
  import opened ClusterMetadata
  import opened RaftNode
  import opened RaftCluster
  import opened RaftInvariant
  import opened RaftFrame
  import opened RaftLedger

  /** Sending what is in order. */
  lemma SendInv(c: Cluster, h: History, i: NodeId, sent: set<Message>)
    requires Inv(c, h) && i in c.nodes && forall m :: m in sent ==> MessageOk(c, h, m)
    ensures Inv(Update(c, i, c.nodes[i], sent), h)
  {
    hide Chosen, LedgersOk, LogsOk, AcksOk, NetOk, CommitsOk, ElectedOk, CommitOk, MessageOk, KnownCandidacy;
    var n := c.nodes[i];
    var c' := Update(c, i, n, sent);
    assert c'.nodes == c.nodes;
    Unmoved(c, c', h, i, sent);
    QuietCommit(c, h, i, n);
    QuietInv(c, h, c', i, n, sent);
  }

  lemma Unmoved(c: Cluster, c': Cluster, h: History, i: NodeId, sent: set<Message>)
    requires i in c.nodes && c'.nodes == c.nodes && forall m :: m in sent ==> MessageOk(c, h, m)
    ensures KnownCandidacy(h, c.nodes[i], c.nodes[i]) && forall m :: m in sent ==> MessageOk(c', h, m)
    ensures RoleOk(c, h, i) ==> RoleOk(c', h, i)
  {
    assert forall m :: m in sent ==> MessageOk(c, h, m) ==> MessageOk(c', h, m);
  }

  /** The request a leader builds for a peer ends where its log ends. */
  lemma CreatedShape(n: Node, peer: NodeId)
    requires n.role == Leader && peer in n.peers && n.peers[peer].next <= |n.log| + 1
    ensures var next := n.peers[peer].next;
      CreateAppend(n, peer) ==
      Some(AppendRequest(n.term, n.id, next - 1, if next == 1 then 0 else n.log[next - 2].term,
                         n.log[next - 1..|n.log|], n.commit))
  {
    var next := n.peers[peer].next;
    if next <= |n.log| {
      assert n.log[next - 1..] == n.log[next - 1..|n.log|];
    } else {
      assert n.log[|n.log|..|n.log|] == [];
    }
  }

  lemma CreatedOk(c: Cluster, h: History, i: NodeId, peer: NodeId)
    requires MembersOk(c) && LedgersOk(h) && RolesOk(c, h) && CommitsOk(c, h)
    requires i in c.nodes && c.nodes[i].role == Leader && peer in c.nodes[i].peers
    ensures CreateAppend(c.nodes[i], peer).Some?
    ensures AppendOk(c.nodes.Keys, h, peer, CreateAppend(c.nodes[i], peer).value)
  {
    hide CommitsOk, LedgersOk, Backed, AppendOk, CreateAppend, LogOk, TermsUpTo;
    assert RoleOk(c, h, i);
    CommitIsBacked(c, h, i);
    OwnTermLast(h, c.nodes[i].term);
    LeaderAppendOk(c.nodes.Keys, h, c.nodes[i], peer);
  }

  lemma OwnTermLast(h: History, t: nat)
    requires LedgersOk(h) && t in h.ledger
    ensures h.ledger[t] != [] && LastTerm(h.ledger[t]) == t
  {
    assert LedgerAt(h, t);
  }

  lemma LeaderAppendOk(ids: set<NodeId>, h: History, n: Node, peer: NodeId)
    requires n.role == Leader && LeaderOk(n, h) && n.log != [] && LastTerm(n.log) == n.term
    requires peer in n.peers && peer != n.id && Backed(ids, h, n.term, n.commit)
    ensures CreateAppend(n, peer).Some?
    ensures AppendOk(ids, h, peer, CreateAppend(n, peer).value)
  {
    hide Backed, CreateAppend, AppendOk;
    CreatedShape(n, peer);
    var next: nat := n.peers[peer].next;
    RestOk(ids, h, n, peer, next);
  }

  lemma RestOk(ids: set<NodeId>, h: History, n: Node, peer: NodeId, next: nat)
    requires n.term in h.ledger && n.term in h.leader && h.leader[n.term] == n.id && h.ledger[n.term] == n.log
    requires n.log != [] && LastTerm(n.log) == n.term && 1 <= next <= |n.log| + 1
    requires peer != n.id && Backed(ids, h, n.term, n.commit)
    ensures AppendOk(ids, h, peer,
      AppendRequest(n.term, n.id, next - 1, if next == 1 then 0 else n.log[next - 2].term,
                    n.log[next - 1..|n.log|], n.commit))
  {
    hide Backed;
  }

  lemma CommitIsBacked(c: Cluster, h: History, i: NodeId)
    requires CommitsOk(c, h) && i in c.nodes
    ensures Backed(c.nodes.Keys, h, c.nodes[i].term, c.nodes[i].commit)
  {
    assert CommitOk(c.nodes.Keys, h, c.nodes[i]);
  }

  // --- Tallying ---

  /** A peer's reply moves only that peer's progress, and never past what it acknowledged. */
  lemma TallyInv(c: Cluster, h: History, i: NodeId, ack: AppendReply)
    requires Inv(c, h) && i in c.nodes && c.nodes[i].role == Leader && ack.term == c.nodes[i].term
    requires ack.responder in c.nodes[i].peers && MessageOk(c, h, AppendReplied(i, ack))
    ensures var n := c.nodes[i];
      Inv(Update(c, i, n.(peers := n.peers[ack.responder := Advanced(n.peers[ack.responder], ack)]), {}), h)
  {
    hide Chosen, LedgersOk, LogsOk, AcksOk, NetOk, CommitsOk, ElectedOk, CommitOk;
    var p, was := ack.responder, c.nodes[i];
    var n := was.(peers := was.peers[p := Advanced(was.peers[p], ack)]);
    assert RoleOk(c, h, i);
    AckBound(c, h, was.term, p);
    assert LeaderOk(n, h);
    QuietCommit(c, h, i, n);
    QuietInv(c, h, Update(c, i, n, {}), i, n, {});
  }

  // --- Committing ---

  lemma QuorumIndexSound(n: Node, top: nat)
    requires top <= |n.log|
    ensures var r := QuorumIndex(n, top); r == n.commit || (n.commit < r <= top && Committable(n, r))
  {
  }

  /** The leader's count of matching peers is a majority of real acknowledgements. */
  lemma QuorumCommits(c: Cluster, h: History, i: NodeId, index: nat)
    requires MembersOk(c) && RolesOk(c, h) && ElectedOk(c, h)
    requires i in c.nodes && c.nodes[i].role == Leader && 1 <= index <= |c.nodes[i].log| &&
      Committable(c.nodes[i], index)
    ensures CommitBacked(c.nodes.Keys, h, c.nodes[i].term, c.nodes[i].log, index)
  {
    var n, ids := c.nodes[i], c.nodes.Keys;
    assert RoleOk(c, h, i) && ElectedAt(c, h, n.term);
    MatchesAcked(c, h, i, index);
    assert Slot(h, n.term, index);
    assert CommittedAt(ids, h, n.term, index);
  }

  lemma MatchesAcked(c: Cluster, h: History, i: NodeId, index: nat)
    requires MembersOk(c) && i in c.nodes && Quorum(c.nodes[i]) <= Matches(c.nodes[i], index)
    requires LeaderOk(c.nodes[i], h) && index <= Ack(h, c.nodes[i].term, i)
    ensures Majority(c.nodes.Keys, Ackers(c.nodes.Keys, h, c.nodes[i].term, index))
  {
    var n, ids := c.nodes[i], c.nodes.Keys;
    var matched := set p | p in n.peers && index <= n.peers[p].matched;
    assert ({i} + matched) <= Ackers(ids, h, n.term, index);
    Larger({i} + matched, Ackers(ids, h, n.term, index));
    MemberCount(c, i);
  }

  lemma MemberCount(c: Cluster, i: NodeId)
    requires MembersOk(c) && i in c.nodes
    ensures |c.nodes.Keys| == |c.nodes[i].peers| + 1
  {
    assert |c.nodes[i].peers.Keys| == |c.nodes[i].peers|;
  }

  /** Advancing the commit index to what is backed, and applying it. */
  lemma CommitInv(c: Cluster, h: History, i: NodeId, index: nat, now: nat)
    requires Inv(c, h) && i in c.nodes && c.nodes[i].commit <= index <= |c.nodes[i].log|
    requires CommitBacked(c.nodes.Keys, h, c.nodes[i].term, c.nodes[i].log, index)
    ensures Inv(Update(c, i, CommitTo(c.nodes[i], index, now), {}), h)
  {
    hide Chosen, LedgersOk, LogsOk, AcksOk, NetOk, CommitsOk, ElectedOk, CommitOk, KnownCandidacy, RoleOk, VoteOf,
         VotesOk;
    var n := CommitTo(c.nodes[i], index, now);
    var c' := Update(c, i, n, {});
    CommitToOk(c, h, i, index, now);
    CommitToRole(c, c', h, i, n);
    QuietInv(c, h, c', i, n, {});
  }

  lemma CommitToOk(c: Cluster, h: History, i: NodeId, index: nat, now: nat)
    requires CommitsOk(c, h) && i in c.nodes && c.nodes[i].commit <= index <= |c.nodes[i].log|
    requires CommitBacked(c.nodes.Keys, h, c.nodes[i].term, c.nodes[i].log, index)
    ensures CommitOk(c.nodes.Keys, h, CommitTo(c.nodes[i], index, now))
  {
    hide CommitBacked;
    var was := c.nodes[i];
    assert CommitOk(c.nodes.Keys, h, was);
    ApplyEntriesMeaning(was.state, was.log, was.applied, index, now);
  }

  lemma CommitToRole(c: Cluster, c': Cluster, h: History, i: NodeId, n: Node)
    requires RolesOk(c, h) && VotesOk(c, h) && i in c.nodes && c'.nodes == c.nodes[i := n]
    requires n == c.nodes[i].(commit := n.commit, applied := n.applied, state := n.state)
    ensures RoleOk(c', h, i) && KnownCandidacy(h, c.nodes[i], n) && n.votedFor == VoteOf(h, n.term, i)
  {
    assert c'.nodes.Keys == c.nodes.Keys;
    assert RoleOk(c, h, i);
  }
}
