/** What survives when one node changes and history grows only in what concerns that node. */
module RaftFrame {
  import opened FiniteSets
  import opened Wrappers
  import opened RaftNode
  import opened RaftCluster
  import opened RaftInvariant

  /** History grows, and all that is new in it was done by node `i`. */
  ghost predicate Local(h: History, h': History, i: NodeId)
  {
    && Extends(h, h')
    && h'.ledger.Keys == h'.leader.Keys
    && (forall t :: t in h.ledger && t in h.leader && h'.ledger[t] != h.ledger[t] ==> h.leader[t] == i)
    && (forall t :: t in h'.leader && t !in h.leader ==> h'.leader[t] == i)
    && (forall t, v :: (t, v) in h'.votes && (t, v) !in h.votes ==> v == i)
    && (forall t, v :: Ack(h', t, v) != Ack(h, t, v) ==> v == i)
    && (forall t, v :: (t, v) in h'.acks && (t, v) !in h.acks ==> v == i)
  }

  /** Node `i` becomes `n` and sends `sent`; its identity stays and its term does not go back. */
  predicate Moves(c: Cluster, c': Cluster, i: NodeId, n: Node, sent: set<Message>)
  {
    && i in c.nodes && c' == Update(c, i, n, sent)
    && n.id == i && n.peers.Keys == c.nodes[i].peers.Keys && c.nodes[i].term <= n.term
  }

  /** A candidacy of `n` is the one `was` already held, or one nobody has heard of. */
  predicate KnownCandidacy(h: History, was: Node, n: Node)
  {
    n.role == Candidate ==>
      (was.role == Candidate && was.term == n.term && was.log == n.log) || VoteOf(h, n.term, n.id) == None
  }

  lemma FrameMembers(c: Cluster, c': Cluster, i: NodeId, n: Node, sent: set<Message>)
    requires MembersOk(c) && Moves(c, c', i, n, sent)
    ensures MembersOk(c') && c'.nodes.Keys == c.nodes.Keys
  {
    assert c'.nodes.Keys == c.nodes.Keys;
  }

  lemma FrameLogs(c: Cluster, h: History, c': Cluster, h': History, i: NodeId, n: Node, sent: set<Message>)
    requires LogsOk(c, h) && Moves(c, c', i, n, sent) && Extends(h, h')
    requires LogOk(h', n.log) && TermsUpTo(n.log, n.term)
    ensures LogsOk(c', h')
  {
    forall j | j in c'.nodes ensures LogOk(h', c'.nodes[j].log) && TermsUpTo(c'.nodes[j].log, c'.nodes[j].term) {
      if j != i { ExtendsLogOk(h, h', c.nodes[j].log); }
    }
  }

  lemma FrameCommits(c: Cluster, h: History, c': Cluster, h': History, i: NodeId, n: Node, sent: set<Message>)
    requires CommitsOk(c, h) && Moves(c, c', i, n, sent) && Extends(h, h')
    requires CommitOk(c.nodes.Keys, h', n)
    ensures CommitsOk(c', h')
  {
    assert c'.nodes.Keys == c.nodes.Keys;
    forall j | j in c'.nodes ensures CommitOk(c'.nodes.Keys, h', c'.nodes[j]) {
      if j != i {
        var m := c.nodes[j];
        assert CommitOk(c.nodes.Keys, h, m);
        ExtendsCommitBacked(c.nodes.Keys, h, h', m.term, m.term, m.log, m.log, m.commit);
      }
    }
  }

  lemma FrameRoles(c: Cluster, h: History, c': Cluster, h': History, i: NodeId, n: Node, sent: set<Message>)
    requires RolesOk(c, h) && MembersOk(c) && Moves(c, c', i, n, sent) && Local(h, h', i)
    requires RoleOk(c', h', i)
    ensures RolesOk(c', h')
  {
    assert c'.nodes.Keys == c.nodes.Keys;
    forall j | j in c'.nodes ensures RoleOk(c', h', j) {
      if j != i {
        var m := c.nodes[j];
        assert RoleOk(c, h, j);
        ExtendsAck(h, h');
        if m.role == Leader {
          assert LeaderOk(m, h);
          assert h'.ledger[m.term] == h.ledger[m.term];
          assert LeaderOk(m, h');
        } else if m.role == Candidate {
          assert CandidateOk(c, m, h);
          assert Voters(c.nodes.Keys, h, m.term, j) <= Voters(c.nodes.Keys, h', m.term, j);
          assert CandidateOk(c', m, h');
        }
      }
    }
  }

  lemma FrameMessage(c: Cluster, h: History, c': Cluster, h': History, i: NodeId, n: Node, sent: set<Message>,
                     m: Message)
    requires MembersOk(c) && Moves(c, c', i, n, sent) && Extends(h, h') && KnownCandidacy(h, c.nodes[i], n)
    requires MessageOk(c, h, m)
    ensures MessageOk(c', h', m)
  {
    ExtendsAck(h, h');
    assert c'.nodes.Keys == c.nodes.Keys;
    match m
    case AppendRequested(dest, req) => ExtendsAppendOk(c.nodes.Keys, h, h', dest, req);
    case AppendReplied(dest, ack) =>
      assert Ack(h, ack.term, ack.responder) <= Ack(h', ack.term, ack.responder);
    case VoteRequested(req) =>
      assert VoteOf(h', req.term, req.candidate) == VoteOf(h, req.term, req.candidate);
    case VoteReplied(dest, vote) =>
  }

  lemma FrameNet(c: Cluster, h: History, c': Cluster, h': History, i: NodeId, n: Node, sent: set<Message>)
    requires NetOk(c, h) && MembersOk(c) && Moves(c, c', i, n, sent) && Extends(h, h')
    requires KnownCandidacy(h, c.nodes[i], n)
    requires forall m :: m in sent ==> MessageOk(c', h', m)
    ensures NetOk(c', h')
  {
    forall m | m in c'.net ensures MessageOk(c', h', m) {
      if m !in sent { FrameMessage(c, h, c', h', i, n, sent, m); }
    }
  }

  lemma FrameAcks(c: Cluster, h: History, c': Cluster, h': History, i: NodeId, n: Node, sent: set<Message>)
    requires AcksOk(c, h) && ElectedOk(c, h) && Moves(c, c', i, n, sent) && Local(h, h', i)
    requires forall t :: (t, i) in h'.acks ==> AckAt(c', h', t, i)
    ensures AcksOk(c', h')
  {
    forall t, v | (t, v) in h'.acks ensures AckAt(c', h', t, v) {
      if v != i {
        assert AckAt(c, h, t, v);
        assert Ack(h', t, v) == Ack(h, t, v);
        if t == c.nodes[v].term {
          AgreeExtends(c.nodes[v].log, h.ledger[t], h'.ledger[t], Ack(h, t, v));
        }
      }
    }
  }

  lemma FrameElected(c: Cluster, h: History, c': Cluster, h': History, i: NodeId, n: Node, sent: set<Message>)
    requires ElectedOk(c, h) && Moves(c, c', i, n, sent) && Local(h, h', i)
    requires forall t :: t in h'.leader && h'.leader[t] == i ==> ElectedAt(c', h', t)
    ensures ElectedOk(c', h')
  {
    assert c'.nodes.Keys == c.nodes.Keys;
    forall t | t in h'.leader ensures ElectedAt(c', h', t) {
      if h'.leader[t] != i {
        assert ElectedAt(c, h, t);
        ExtendsAck(h, h');
        var ids, l := c.nodes.Keys, h.leader[t];
        assert Voters(ids, h, t, l) <= Voters(ids, h', t, l);
        Larger(Voters(ids, h, t, l), Voters(ids, h', t, l));
      }
    }
  }

  lemma FrameVotes(c: Cluster, h: History, c': Cluster, h': History, i: NodeId, n: Node, sent: set<Message>)
    requires VotesOk(c, h) && Moves(c, c', i, n, sent) && Local(h, h', i)
    requires forall t :: (t, i) in h'.votes ==>
      t <= n.term && VoteOf(h', t, h'.votes[(t, i)]) == Some(h'.votes[(t, i)])
    requires n.votedFor == VoteOf(h', n.term, i)
    ensures VotesOk(c', h')
  {
    ExtendsAck(h, h');
    forall t, v | (t, v) in h'.votes
      ensures v in c'.nodes && t <= c'.nodes[v].term && VoteOf(h', t, h'.votes[(t, v)]) == Some(h'.votes[(t, v)])
    {
      if v != i {
        assert VoteOf(h, t, h.votes[(t, v)]) == Some(h.votes[(t, v)]);
      }
    }
    forall j | j in c'.nodes ensures c'.nodes[j].votedFor == VoteOf(h', c'.nodes[j].term, j) {
      if j != i {
        assert c.nodes[j].votedFor == VoteOf(h, c.nodes[j].term, j);
      }
    }
  }

  /** All but the safety core survives, once it holds of node `i` and of what `i` sent. */
  lemma FrameBase(c: Cluster, h: History, c': Cluster, h': History, i: NodeId, n: Node, sent: set<Message>)
    requires Base(c, h) && Moves(c, c', i, n, sent) && Local(h, h', i) && KnownCandidacy(h, c.nodes[i], n)
    requires LedgersOk(h') && LogOk(h', n.log) && TermsUpTo(n.log, n.term)
    requires forall t :: (t, i) in h'.votes ==>
      t <= n.term && VoteOf(h', t, h'.votes[(t, i)]) == Some(h'.votes[(t, i)])
    requires n.votedFor == VoteOf(h', n.term, i)
    requires forall t :: t in h'.leader && h'.leader[t] == i ==> ElectedAt(c', h', t)
    requires forall t :: (t, i) in h'.acks ==> AckAt(c', h', t, i)
    requires RoleOk(c', h', i) && CommitOk(c.nodes.Keys, h', n)
    requires forall m :: m in sent ==> MessageOk(c', h', m)
    ensures Base(c', h')
  {
    hide LedgersOk, VotesOk, ElectedOk, LogsOk, AcksOk, RolesOk, NetOk, CommitsOk, MembersOk;
    hide LogOk, TermsUpTo, ElectedAt, AckAt, RoleOk, CommitOk, MessageOk, VoteOf, KnownCandidacy;
    FrameMembers(c, c', i, n, sent);
    FrameVotes(c, h, c', h', i, n, sent);
    FrameElected(c, h, c', h', i, n, sent);
    FrameLogs(c, h, c', h', i, n, sent);
    FrameAcks(c, h, c', h', i, n, sent);
    FrameRoles(c, h, c', h', i, n, sent);
    FrameNet(c, h, c', h', i, n, sent);
    FrameCommits(c, h, c', h', i, n, sent);
  }

  /** Choosability is lost, never gained. */
  ghost predicate Shrinks(c: Cluster, h: History, c': Cluster, h': History)
  {
    && c'.nodes.Keys == c.nodes.Keys
    && forall t: nat, k: nat :: Slot(h, t, k) && Choosable(c', h', t, k) ==> Choosable(c, h, t, k)
  }

  lemma FrameShrinks(c: Cluster, h: History, c': Cluster, h': History, i: NodeId, n: Node, sent: set<Message>)
    requires Moves(c, c', i, n, sent)
    requires forall t, v :: Ack(h, t, v) < Ack(h', t, v) ==> v == i && c.nodes[i].term <= t
    ensures Shrinks(c, h, c', h')
  {
    assert c'.nodes.Keys == c.nodes.Keys;
    forall t: nat, k: nat | Choosable(c', h', t, k) ensures Choosable(c, h, t, k) {
      SupportShrinks(c, h, c', h', t, k);
    }
  }

  lemma FrameComplete(c: Cluster, h: History, c': Cluster, h': History)
    requires Complete(c, h) && Shrinks(c, h, c', h') && h'.ledger == h.ledger
    ensures Complete(c', h')
  {
    hide Choosable;
  }

  /** The safety core survives when nothing is acknowledged, no ledger grows and node `i` keeps its log. */
  lemma FrameChosen(c: Cluster, h: History, c': Cluster, h': History, i: NodeId, n: Node, sent: set<Message>)
    requires Chosen(c, h) && Moves(c, c', i, n, sent) && h'.ledger == h.ledger && h'.acks == h.acks &&
      h'.votes == h.votes
    requires n.log == c.nodes[i].log
    requires n.role == Candidate ==> c.nodes[i].role == Candidate && c.nodes[i].term == n.term
    ensures Chosen(c', h')
  {
    hide Choosable;
    FrameShrinks(c, h, c', h', i, n, sent);
    FrameComplete(c, h, c', h');
  }

  /** A step that adds no history keeps past elections, ... */
  lemma QuietElected(c: Cluster, h: History, c': Cluster, i: NodeId, n: Node, sent: set<Message>)
    requires ElectedOk(c, h) && Moves(c, c', i, n, sent)
    ensures forall t :: t in h.leader ==> ElectedAt(c', h, t)
  {
    assert c'.nodes.Keys == c.nodes.Keys;
    forall t | t in h.leader ensures ElectedAt(c', h, t) { assert ElectedAt(c, h, t); }
  }

  /** ... and acknowledgements and votes, ... */
  lemma QuietAcks(c: Cluster, h: History, c': Cluster, i: NodeId, n: Node, sent: set<Message>)
    requires AcksOk(c, h) && VotesOk(c, h) && Moves(c, c', i, n, sent) && n.log == c.nodes[i].log
    ensures forall t :: (t, i) in h.acks ==> AckAt(c', h, t, i)
    ensures forall t :: (t, i) in h.votes ==>
      t <= n.term && VoteOf(h, t, h.votes[(t, i)]) == Some(h.votes[(t, i)])
  {
    forall t | (t, i) in h.acks ensures AckAt(c', h, t, i) { assert AckAt(c, h, t, i); }
  }

  /** ... and a kept log stays in order, ... */
  lemma QuietLog(c: Cluster, h: History, i: NodeId, n: Node)
    requires LogsOk(c, h) && i in c.nodes && c.nodes[i].term <= n.term && n.log == c.nodes[i].log
    ensures LogOk(h, n.log) && TermsUpTo(n.log, n.term)
  {
  }

  /** ... and a kept commit, too. */
  lemma QuietCommit(c: Cluster, h: History, i: NodeId, n: Node)
    requires CommitsOk(c, h) && i in c.nodes && c.nodes[i].term <= n.term
    requires n.log == c.nodes[i].log && n.commit == c.nodes[i].commit && n.applied == c.nodes[i].applied &&
      n.state == c.nodes[i].state
    ensures CommitOk(c.nodes.Keys, h, n)
  {
    assert CommitOk(c.nodes.Keys, h, c.nodes[i]);
    ExtendsCommitBacked(c.nodes.Keys, h, h, c.nodes[i].term, n.term, n.log, n.log, n.commit);
  }

  /** Such a step keeps the invariant, once it holds of the node's vote, role and commit and of what it sent. */
  lemma QuietInv(c: Cluster, h: History, c': Cluster, i: NodeId, n: Node, sent: set<Message>)
    requires Inv(c, h) && Moves(c, c', i, n, sent) && KnownCandidacy(h, c.nodes[i], n)
    requires n.log == c.nodes[i].log && CommitOk(c.nodes.Keys, h, n)
    requires n.role == Candidate ==> c.nodes[i].role == Candidate && c.nodes[i].term == n.term
    requires n.votedFor == VoteOf(h, n.term, i) && RoleOk(c', h, i)
    requires forall m :: m in sent ==> MessageOk(c', h, m)
    ensures Inv(c', h)
  {
    hide LedgersOk, VotesOk, LogsOk, AcksOk, RolesOk, NetOk, CommitsOk, MembersOk, Chosen;
    hide LogOk, TermsUpTo, ElectedAt, AckAt, RoleOk, CommitOk, MessageOk, VoteOf, KnownCandidacy;
    QuietElected(c, h, c', i, n, sent);
    QuietAcks(c, h, c', i, n, sent);
    QuietLog(c, h, i, n);
    FrameBase(c, h, c', h, i, n, sent);
    FrameChosen(c, h, c', h, i, n, sent);
  }
}
