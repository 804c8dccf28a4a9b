/** Terms, votes and elections keep the invariant. */
module RaftElection {
  import opened FiniteSets
  import opened Wrappers
  import opened ClusterMetadata
  import opened RaftNode
  import opened RaftCluster
  import opened RaftInvariant
  import opened RaftFrame

  /** Moving to a later term as a follower. */
  lemma AdvanceInv(c: Cluster, h: History, i: NodeId, n: Node, term: nat)
    requires Inv(c, h) && i in c.nodes && c.nodes[i].term < term
    requires n.(leaderId := None) == Advance(c.nodes[i], term).(leaderId := None)
    ensures Inv(Update(c, i, n, {}), h)
  {
    hide Chosen, LedgersOk, LogsOk, AcksOk, NetOk, CommitsOk, ElectedOk, RolesOk, VotesOk, CommitOk;
    NoVoteAhead(c, h, i, term);
    QuietCommit(c, h, i, n);
    QuietInv(c, h, Update(c, i, n, {}), i, n, {});
  }

  lemma NoVoteAhead(c: Cluster, h: History, i: NodeId, term: nat)
    requires VotesOk(c, h) && i in c.nodes && c.nodes[i].term < term
    ensures VoteOf(h, term, i) == None
  {
  }

  // --- Casting a vote ---

  function WithVote(h: History, t: nat, v: NodeId, candidate: NodeId): History
  {
    h.(votes := h.votes[(t, v) := candidate])
  }

  /** An up-to-date log holds all that the voter acknowledged and that may have been committed. */
  lemma UpToDateHolds(c: Cluster, h: History, v: NodeId, log: Log, t: nat, k: nat)
    requires LedgersOk(h) && LogsOk(c, h) && Complete(c, h) && Retained(c, h)
    requires v in c.nodes && Slot(h, t, k) && k <= Ack(h, t, v) && Choosable(c, h, t, k)
    requires LogOk(h, log) && LastTerm(c.nodes[v].log) <= LastTerm(log)
    requires LastTerm(c.nodes[v].log) == LastTerm(log) ==> |c.nodes[v].log| <= |log|
    ensures Agree(log, h.ledger[t], k)
  {
    var mine := c.nodes[v].log;
    assert Agree(mine, h.ledger[t], k);
    assert mine[k - 1] == mine[..k][k - 1] == h.ledger[t][..k][k - 1];
    TermsMonotone(h, mine, k - 1, |mine| - 1);
    var last := LastTerm(log);
    if last == LastTerm(mine) {
      assert EntryOk(h, mine, |mine| - 1) && EntryOk(h, log, |log| - 1);
      AgreeLess(log, h.ledger[last], |log|, |mine|);
      AgreeLess(mine, h.ledger[last], |mine|, |mine|);
      AgreeThrough(log, h.ledger[last], mine, |mine|, |mine|);
      AgreeThrough(log, mine, h.ledger[t], |mine|, k);
    } else {
      assert EntryOk(h, log, |log| - 1);
      assert Agree(h.ledger[t], h.ledger[last], k);
      assert log[|log| - 1] == log[..|log|][|log| - 1] == h.ledger[last][..|log|][|log| - 1];
      OwnEntriesAbove(h, t, last, k, |log|);
      AgreeLess(h.ledger[t], h.ledger[last], k, k);
      AgreeThrough(log, h.ledger[last], h.ledger[t], |log|, k);
    }
  }

  /** Granting a vote. */
  lemma GrantInv(c: Cluster, h: History, i: NodeId, req: VoteRequest) returns (h': History)
    requires Inv(c, h) && i in c.nodes && VoteRequested(req) in c.net && c.nodes[i].term == req.term
    requires c.nodes[i].votedFor == None || c.nodes[i].votedFor == Some(req.candidate)
    requires UpToDate(req, c.nodes[i].log)
    ensures Extends(h, h') && h'.acks == h.acks
    ensures var n := c.nodes[i].(votedFor := Some(req.candidate));
      Inv(Update(c, i, n, {VoteReplied(req.candidate, VoteReply(req.term, true, i))}), h')
  {
    hide Chosen, LedgersOk, LogsOk, AcksOk, CommitsOk, ElectedOk, RolesOk, ElectedAt, AckAt, LogOk, TermsUpTo,
         CommitOk, RoleOk, Local;
    var n := c.nodes[i].(votedFor := Some(req.candidate));
    var sent := {VoteReplied(req.candidate, VoteReply(req.term, true, i))};
    var c' := Update(c, i, n, sent);
    h' := WithVote(h, req.term, i, req.candidate);
    assert MessageOk(c, h, VoteRequested(req));
    assert c.nodes[i].votedFor == VoteOf(h, req.term, i);
    VotedFacts(c, h, c', h', i, n, sent);
    GrantRole(c, h, c', h', i, n, req);
    FrameBase(c, h, c', h', i, n, sent);
    GrantChosen(c, h, c', h', i, n, sent, req);
  }

  /** What a new vote of node `i` leaves in order about it. */
  lemma VotedFacts(c: Cluster, h: History, c': Cluster, h': History, i: NodeId, n: Node, sent: set<Message>)
    requires LedgersOk(h) && VotesOk(c, h) && ElectedOk(c, h) && LogsOk(c, h) && AcksOk(c, h) && CommitsOk(c, h)
    requires Moves(c, c', i, n, sent) && n.votedFor.Some? && h' == WithVote(h, n.term, i, n.votedFor.value)
    requires c.nodes[i].votedFor == None || c.nodes[i].votedFor == n.votedFor
    requires n == c.nodes[i].(role := n.role, votedFor := n.votedFor, votes := n.votes)
    requires VoteOf(h', n.term, n.votedFor.value) == n.votedFor
    ensures Local(h, h', i) && LedgersOk(h') && LogOk(h', n.log) && TermsUpTo(n.log, n.term)
    ensures CommitOk(c.nodes.Keys, h', n)
    ensures forall t :: t in h'.leader ==> ElectedAt(c', h', t)
    ensures forall t :: (t, i) in h'.acks ==> AckAt(c', h', t, i)
    ensures n.votedFor == VoteOf(h', n.term, i)
    ensures forall t :: (t, i) in h'.votes ==>
      t <= n.term && VoteOf(h', t, h'.votes[(t, i)]) == Some(h'.votes[(t, i)])
  {
    hide LogOk, LedgerAt, TermsUpTo, CommitOk, ElectedAt, AckAt;
    VotedLocal(c, h, h', i, n);
    LedgersKept(h, h');
    QuietLog(c, h, i, n);
    QuietCommit(c, h, i, n);
    ExtendsLogOk(h, h', n.log);
    ExtendsCommitOk(c.nodes.Keys, h, h', n);
    ElectedMore(c, h, c', h', i, n, sent);
    QuietAcks(c, h, c', i, n, sent);
    KeptAcks(c', h, h', i);
  }

  lemma VotedLocal(c: Cluster, h: History, h': History, i: NodeId, n: Node)
    requires VotesOk(c, h) && h.ledger.Keys == h.leader.Keys && i in c.nodes && n.term == c.nodes[i].term
    requires n.votedFor.Some? && h' == WithVote(h, n.term, i, n.votedFor.value)
    requires c.nodes[i].votedFor == None || c.nodes[i].votedFor == n.votedFor
    requires VoteOf(h', n.term, n.votedFor.value) == n.votedFor
    ensures Local(h, h', i)
    ensures forall t :: (t, i) in h'.votes ==>
      t <= n.term && VoteOf(h', t, h'.votes[(t, i)]) == Some(h'.votes[(t, i)])
  {
    assert c.nodes[i].votedFor == VoteOf(h, n.term, i);
  }

  lemma ExtendsCommitOk(ids: set<NodeId>, h: History, h': History, n: Node)
    requires Extends(h, h') && CommitOk(ids, h, n)
    ensures CommitOk(ids, h', n)
  {
    ExtendsCommitBacked(ids, h, h', n.term, n.term, n.log, n.log, n.commit);
  }

  lemma KeptAcks(c: Cluster, h: History, h': History, i: NodeId)
    requires h'.acks == h.acks && h'.ledger == h.ledger
    requires forall t :: (t, i) in h.acks ==> AckAt(c, h, t, i)
    ensures forall t :: (t, i) in h'.acks ==> AckAt(c, h', t, i)
  {
    forall t | (t, i) in h'.acks ensures AckAt(c, h', t, i) { assert AckAt(c, h, t, i); }
  }

  lemma LedgersKept(h: History, h': History)
    requires LedgersOk(h) && Extends(h, h') && h'.ledger == h.ledger
    ensures LedgersOk(h')
  {
    forall t | t in h'.ledger ensures LedgerAt(h', t) {
      assert LedgerAt(h, t);
      ExtendsLogOk(h, h', h.ledger[t]);
    }
  }

  /** Further votes keep every past election. */
  lemma ElectedMore(c: Cluster, h: History, c': Cluster, h': History, i: NodeId, n: Node, sent: set<Message>)
    requires ElectedOk(c, h) && Moves(c, c', i, n, sent) && Extends(h, h')
    requires h'.ledger == h.ledger && h'.leader == h.leader && h'.acks == h.acks
    ensures forall t :: t in h'.leader ==> ElectedAt(c', h', t)
  {
    assert c'.nodes.Keys == c.nodes.Keys;
    forall t | t in h'.leader ensures ElectedAt(c', h', t) {
      assert ElectedAt(c, h, t);
      ExtendsAck(h, h');
      var ids, l := c.nodes.Keys, h.leader[t];
      assert Voters(ids, h, t, l) <= Voters(ids, h', t, l);
      Larger(Voters(ids, h, t, l), Voters(ids, h', t, l));
    }
  }

  lemma GrantRole(c: Cluster, h: History, c': Cluster, h': History, i: NodeId, n: Node, req: VoteRequest)
    requires RolesOk(c, h) && VotesOk(c, h) && MembersOk(c) && i in c.nodes && c'.nodes == c.nodes[i := n] &&
      Extends(h, h')
    requires n == c.nodes[i].(votedFor := Some(req.candidate)) && n.term == req.term
    requires c.nodes[i].votedFor == None || c.nodes[i].votedFor == Some(req.candidate)
    requires h'.ledger == h.ledger && h'.leader == h.leader && h'.acks == h.acks
    ensures RoleOk(c', h', i)
  {
    assert RoleOk(c, h, i);
    ExtendsAck(h, h');
    assert c'.nodes.Keys == c.nodes.Keys;
    if n.role == Leader {
      assert LeaderOk(n, h');
    } else if n.role == Candidate {
      assert CandidateOk(c, c.nodes[i], h);
      assert Voters(c.nodes.Keys, h, n.term, i) <= Voters(c.nodes.Keys, h', n.term, i);
      assert CandidateOk(c', n, h');
    }
  }

  lemma StandRole(c: Cluster, h: History, c': Cluster, h': History, i: NodeId, n: Node)
    requires ElectedOk(c, h) && MembersOk(c) && i in c.nodes && c'.nodes == c.nodes[i := n]
    requires n == c.nodes[i].(role := Candidate, votedFor := Some(i), votes := {i})
    requires h' == WithVote(h, n.term, i, i) && VoteOf(h, n.term, i) == None
    ensures RoleOk(c', h', i)
  {
    assert n.term in h.leader ==> ElectedAt(c, h, n.term);
    assert c'.nodes.Keys == c.nodes.Keys;
    assert CandidateOk(c', n, h');
  }

  lemma GrantChosen(c: Cluster, h: History, c': Cluster, h': History, i: NodeId, n: Node, sent: set<Message>,
                    req: VoteRequest)
    requires LedgersOk(h) && LogsOk(c, h) && Chosen(c, h)
    requires Moves(c, c', i, n, sent) && n == c.nodes[i].(votedFor := Some(req.candidate)) && n.term == req.term
    requires h' == WithVote(h, req.term, i, req.candidate) && Extends(h, h')
    requires MessageOk(c, h, VoteRequested(req)) && UpToDate(req, n.log)
    ensures Chosen(c', h')
  {
    hide Choosable;
    FrameShrinks(c, h, c', h', i, n, sent);
    FrameComplete(c, h, c', h');
    forall j, v, t: nat, k: nat |
      && j in c'.nodes && c'.nodes[j].role == Candidate && VoteOf(h', c'.nodes[j].term, v) == Some(j)
      && Slot(h', t, k) && t < c'.nodes[j].term && k <= Ack(h', t, v) && Choosable(c', h', t, k)
      ensures Agree(c'.nodes[j].log, h'.ledger[t], k)
    {
      if v == i && j == req.candidate && c.nodes[j].term == req.term {
        UpToDateHolds(c, h, i, c.nodes[j].log, t, k);
      } else {
        assert VoteOf(h, c.nodes[j].term, v) == Some(j);
      }
    }
  }

  // --- Standing for election ---

  /** A follower that has not voted in its term becomes a candidate and votes for itself. */
  lemma StandInv(c: Cluster, h: History, i: NodeId) returns (h': History)
    requires Inv(c, h) && i in c.nodes && c.nodes[i].votedFor == None && c.nodes[i].role == Follower
    ensures Extends(h, h') && h'.acks == h.acks
    ensures var n := c.nodes[i].(role := Candidate, votedFor := Some(i), votes := {i});
      Inv(Update(c, i, n, {VoteRequested(VoteRequest(n.term, i, |n.log|, LastTerm(n.log)))}), h')
  {
    hide Chosen, LedgersOk, LogsOk, AcksOk, CommitsOk, ElectedOk, RolesOk, ElectedAt, AckAt, LogOk, TermsUpTo,
         CommitOk, RoleOk, NetOk, Local;
    var n := c.nodes[i].(role := Candidate, votedFor := Some(i), votes := {i});
    var req := VoteRequest(n.term, i, |n.log|, LastTerm(n.log));
    var sent := {VoteRequested(req)};
    var c' := Update(c, i, n, sent);
    h' := WithVote(h, n.term, i, i);
    assert VoteOf(h, n.term, i) == None;
    VotedFacts(c, h, c', h', i, n, sent);
    StandRole(c, h, c', h', i, n);
    FrameBase(c, h, c', h', i, n, sent);
    StandChosen(c, h, c', h', i, n, sent);
  }

  lemma StandChosen(c: Cluster, h: History, c': Cluster, h': History, i: NodeId, n: Node, sent: set<Message>)
    requires VotesOk(c, h) && Chosen(c, h)
    requires Moves(c, c', i, n, sent) && n.log == c.nodes[i].log && n.term == c.nodes[i].term
    requires h' == WithVote(h, n.term, i, i) && Extends(h, h') && VoteOf(h, n.term, i) == None
    ensures Chosen(c', h')
  {
    hide Choosable;
    FrameShrinks(c, h, c', h', i, n, sent);
    FrameComplete(c, h, c', h');
    forall j, v, t: nat, k: nat |
      && j in c'.nodes && c'.nodes[j].role == Candidate && VoteOf(h', c'.nodes[j].term, v) == Some(j)
      && Slot(h', t, k) && t < c'.nodes[j].term && k <= Ack(h', t, v) && Choosable(c', h', t, k)
      ensures Agree(c'.nodes[j].log, h'.ledger[t], k)
    {
      if j == i {
        assert v != i ==> VoteOf(h, n.term, v) == Some(i);
        assert Agree(c.nodes[i].log, h.ledger[t], k);
      } else {
        assert VoteOf(h, c.nodes[j].term, v) == Some(j);
      }
    }
  }

  /** Counting a vote that was really cast. */
  lemma CountInv(c: Cluster, h: History, i: NodeId, v: NodeId)
    requires Inv(c, h) && i in c.nodes && c.nodes[i].role == Candidate && VoteOf(h, c.nodes[i].term, v) == Some(i)
    ensures Inv(Update(c, i, c.nodes[i].(votes := c.nodes[i].votes + {v}), {}), h)
  {
    hide Chosen, LedgersOk, LogsOk, AcksOk, NetOk, CommitsOk, ElectedOk, CommitOk;
    var n := c.nodes[i].(votes := c.nodes[i].votes + {v});
    var c' := Update(c, i, n, {});
    assert RoleOk(c, h, i);
    assert (n.term, v) in h.votes;
    assert c'.nodes.Keys == c.nodes.Keys;
    assert CandidateOk(c', n, h);
    QuietCommit(c, h, i, n);
    QuietInv(c, h, c', i, n, {});
  }
}
