/** Winning an election and proposing: the two steps that write a ledger. */
module RaftLedger {
  import opened FiniteSets
  import opened Wrappers
  import opened ClusterMetadata
  import opened RaftNode
  import opened RaftCluster
  import opened RaftInvariant
  import opened RaftFrame

  /** Node `i` leads term `t` and its ledger is now `log`. */
  function Led(h: History, t: nat, i: NodeId, log: Log): History
  {
    h.(ledger := h.ledger[t := log], leader := h.leader[t := i], acks := h.acks[(t, i) := |log|])
  }

  /** A leader of term `n.term`, or a candidate with a majority, appends an entry of that term. */
  ghost predicate Writes(c: Cluster, h: History, i: NodeId, n: Node)
  {
    && i in c.nodes
    && var was := c.nodes[i];
       && n == was.(role := Leader, leaderId := n.leaderId, peers := n.peers, log := n.log)
       && n.peers.Keys == was.peers.Keys
       && |n.log| == |was.log| + 1 && n.log[..|was.log|] == was.log
       && n.log[|was.log|].index == |n.log| && n.log[|was.log|].term == n.term
       && (|| (was.role == Leader && n.peers == was.peers)
           || (&& was.role == Candidate && Majority(c.nodes.Keys, was.votes) && n.term !in h.ledger
               && forall p :: p in n.peers ==> n.peers[p] == Progress(|n.log|, 0)))
  }

  /** Nobody else can have won the term of a candidate that holds a majority. */
  lemma TermIsFree(c: Cluster, h: History, i: NodeId)
    requires MembersOk(c) && ElectedOk(c, h) && RolesOk(c, h)
    requires i in c.nodes && c.nodes[i].role == Candidate && Majority(c.nodes.Keys, c.nodes[i].votes)
    ensures c.nodes[i].term !in h.ledger
  {
    hide Majority;
    var n, ids := c.nodes[i], c.nodes.Keys;
    assert RoleOk(c, h, i);
    if n.term in h.leader {
      assert ElectedAt(c, h, n.term);
      var v := MajoritiesMeet(ids, n.votes, Voters(ids, h, n.term, h.leader[n.term]));
    }
  }

  /** The term is the writer's own, or nobody's yet. */
  ghost predicate Owns(c: Cluster, h: History, i: NodeId)
  {
    && i in c.nodes
    && var was := c.nodes[i];
       if was.term in h.ledger then
         was.term in h.leader && h.leader[was.term] == i && h.ledger[was.term] == was.log &&
         Ack(h, was.term, i) == |was.log|
       else
         was.role == Candidate && Majority(c.nodes.Keys, was.votes) && (was.term, i) !in h.acks
  }

  lemma WriterOwns(c: Cluster, h: History, i: NodeId, n: Node)
    requires MembersOk(c) && ElectedOk(c, h) && RolesOk(c, h) && AcksOk(c, h) && Writes(c, h, i, n)
    ensures Owns(c, h, i)
  {
    hide Majority, Voters, VoteOf, Agree;
    assert RoleOk(c, h, i);
    if c.nodes[i].role == Leader {
      assert ElectedAt(c, h, n.term);
    }
  }

  lemma WritesLocal(c: Cluster, h: History, h': History, i: NodeId, n: Node)
    requires h.ledger.Keys == h.leader.Keys && Owns(c, h, i) && Writes(c, h, i, n) && h' == Led(h, n.term, i, n.log)
    ensures Local(h, h', i)
  {
    hide Majority;
  }

  lemma WritesLogOk(c: Cluster, h: History, h': History, i: NodeId, n: Node)
    requires LogsOk(c, h) && Writes(c, h, i, n) && h' == Led(h, n.term, i, n.log) && Extends(h, h')
    ensures LogOk(h', n.log) && TermsUpTo(n.log, n.term)
  {
    var was := c.nodes[i];
    ExtendsLogOk(h, h', was.log);
    forall k | 0 <= k < |n.log| ensures EntryOk(h', n.log, k) && n.log[k].term <= n.term {
      if k < |was.log| {
        assert n.log[k] == n.log[..|was.log|][k] == was.log[k];
        assert EntryOk(h', was.log, k);
        assert n.log[..k + 1] == was.log[..k + 1];
      }
    }
  }

  lemma WritesLedgers(h: History, h': History, t: nat, i: NodeId, log: Log)
    requires LedgersOk(h) && h' == Led(h, t, i, log) && Extends(h, h')
    requires log != [] && LastTerm(log) == t && TermsUpTo(log, t) && LogOk(h', log)
    ensures LedgersOk(h')
  {
    forall t' | t' in h'.ledger ensures LedgerAt(h', t') {
      if t' != t {
        assert LedgerAt(h, t');
        ExtendsLogOk(h, h', h.ledger[t']);
      }
    }
  }

  lemma WritesElected(c: Cluster, h: History, c': Cluster, h': History, i: NodeId, n: Node)
    requires MembersOk(c) && VotesOk(c, h) && ElectedOk(c, h) && RolesOk(c, h) && Writes(c, h, i, n) && Owns(c, h, i)
    requires c'.nodes == c.nodes[i := n] && h' == Led(h, n.term, i, n.log)
    ensures forall t :: t in h'.leader && h'.leader[t] == i ==> ElectedAt(c', h', t)
  {
    hide MembersOk, VotesOk, RolesOk, Voters, Majority, VoteOf;
    assert c'.nodes.Keys == c.nodes.Keys;
    var ids := c.nodes.Keys;
    forall t | t in h'.leader && h'.leader[t] == i ensures ElectedAt(c', h', t) {
      SameVotes(ids, h, h', t, i);
      if t in h.leader {
        assert ElectedAt(c, h, t);
      } else {
        WonVotes(c, h, i);
      }
    }
  }

  lemma SameVotes(ids: set<NodeId>, h: History, h': History, t: nat, i: NodeId)
    requires h'.votes == h.votes
    ensures Voters(ids, h', t, i) == Voters(ids, h, t, i) && VoteOf(h', t, i) == VoteOf(h, t, i)
  {
  }

  lemma WonVotes(c: Cluster, h: History, i: NodeId)
    requires MembersOk(c) && VotesOk(c, h) && RolesOk(c, h)
    requires i in c.nodes && c.nodes[i].role == Candidate && Majority(c.nodes.Keys, c.nodes[i].votes)
    ensures Majority(c.nodes.Keys, Voters(c.nodes.Keys, h, c.nodes[i].term, i)) &&
      VoteOf(h, c.nodes[i].term, i) == Some(i)
  {
    assert RoleOk(c, h, i);
    assert c.nodes[i].votedFor == VoteOf(h, c.nodes[i].term, i);
    Larger(c.nodes[i].votes, Voters(c.nodes.Keys, h, c.nodes[i].term, i));
  }

  lemma WritesAcks(c: Cluster, h: History, c': Cluster, h': History, i: NodeId, n: Node)
    requires AcksOk(c, h) && Writes(c, h, i, n)
    requires c'.nodes == c.nodes[i := n] && h' == Led(h, n.term, i, n.log)
    ensures forall t :: (t, i) in h'.acks ==> AckAt(c', h', t, i)
  {
    forall t | (t, i) in h'.acks ensures AckAt(c', h', t, i) {
      if t != n.term { assert AckAt(c, h, t, i); }
    }
  }

  lemma WritesRole(c: Cluster, h: History, c': Cluster, h': History, i: NodeId, n: Node)
    requires MembersOk(c) && RolesOk(c, h) && Writes(c, h, i, n) && n.id == i
    requires c'.nodes == c.nodes[i := n] && h' == Led(h, n.term, i, n.log)
    ensures RoleOk(c', h', i)
  {
    assert RoleOk(c, h, i);
    forall p | p in n.peers ensures n.peers[p].next <= |n.log| + 1 && n.peers[p].matched <= Ack(h', n.term, p) {
      assert p != i;
    }
    assert LeaderOk(n, h');
  }

  lemma WritesCommit(c: Cluster, h: History, h': History, i: NodeId, n: Node)
    requires CommitsOk(c, h) && Writes(c, h, i, n) && Extends(h, h')
    ensures CommitOk(c.nodes.Keys, h', n)
  {
    var was := c.nodes[i];
    assert CommitOk(c.nodes.Keys, h, was);
    assert was.log <= n.log;
    assert n.log[..n.commit] == was.log[..n.commit];
    ExtendsCommitBacked(c.nodes.Keys, h, h', was.term, n.term, was.log, n.log, n.commit);
  }

  lemma WritesBase(c: Cluster, h: History, i: NodeId, n: Node)
    requires Base(c, h) && Writes(c, h, i, n)
    ensures Base(Update(c, i, n, {}), Led(h, n.term, i, n.log)) && Local(h, Led(h, n.term, i, n.log), i)
    ensures Owns(c, h, i)
  {
    hide LedgersOk, ElectedOk, LogsOk, AcksOk, RolesOk, NetOk, CommitsOk;
    hide LogOk, TermsUpTo, ElectedAt, AckAt, RoleOk, CommitOk, MessageOk, VoteOf, Local, Majority, Led;
    var c', h' := Update(c, i, n, {}), Led(h, n.term, i, n.log);
    WriterOwns(c, h, i, n);
    WritesLocal(c, h, h', i, n) by { assert ElectedOk(c, h); KeysMatch(c, h); }
    LocalExtends(h, h', i);
    WritesLogOk(c, h, h', i, n);
    WritesLedgers(h, h', n.term, i, n.log);
    WritesElected(c, h, c', h', i, n);
    WritesAcks(c, h, c', h', i, n);
    WritesRole(c, h, c', h', i, n);
    WritesCommit(c, h, h', i, n);
    WritesVotes(c, h, h', i, n);
    FrameBase(c, h, c', h', i, n, {});
  }

  lemma LocalExtends(h: History, h': History, i: NodeId)
    requires Local(h, h', i)
    ensures Extends(h, h')
  {
  }

  lemma KeysMatch(c: Cluster, h: History)
    requires ElectedOk(c, h)
    ensures h.ledger.Keys == h.leader.Keys
  {
  }

  lemma WritesVotes(c: Cluster, h: History, h': History, i: NodeId, n: Node)
    requires VotesOk(c, h) && Writes(c, h, i, n) && h' == Led(h, n.term, i, n.log)
    ensures n.votedFor == VoteOf(h', n.term, i)
    ensures forall t :: (t, i) in h'.votes ==>
      t <= n.term && VoteOf(h', t, h'.votes[(t, i)]) == Some(h'.votes[(t, i)])
  {
    assert c.nodes[i].votedFor == VoteOf(h, n.term, i);
  }

  // --- What may be chosen ---

  /** Among any majority of possible supporters of term `t` is one that voted in a later elected term. */
  lemma VoterOfLater(c: Cluster, h: History, s: set<NodeId>, t': nat) returns (v: NodeId)
    requires VotesOk(c, h) && ElectedOk(c, h) && t' in h.ledger && s <= c.nodes.Keys && Majority(c.nodes.Keys, s)
    ensures v in s && t' <= c.nodes[v].term
  {
    hide Majority;
    assert ElectedAt(c, h, t');
    v := MajoritiesMeet(c.nodes.Keys, s, Voters(c.nodes.Keys, h, t', h.leader[t']));
    assert VoteOf(h, t', v).Some?;
  }

  /** A later term's voters have all left the term in which a new entry appears, so it cannot be chosen. */
  lemma TooLate(c: Cluster, h: History, c': Cluster, h': History, i: NodeId, n: Node, t': nat)
    requires VotesOk(c, h) && ElectedOk(c, h) && AcksOk(c, h) && Writes(c, h, i, n) && Owns(c, h, i)
    requires c'.nodes == c.nodes[i := n] && h' == Led(h, n.term, i, n.log)
    requires t' in h'.ledger && n.term < t'
    ensures !Choosable(c', h', n.term, |n.log|)
  {
    hide Majority, VotesOk, ElectedOk, AcksOk;
    assert c'.nodes.Keys == c.nodes.Keys;
    if Choosable(c', h', n.term, |n.log|) {
      var v := VoterOfLater(c, h, Supporters(c', h', n.term, |n.log|), t');
      AckBound(c, h, n.term, v);
    }
  }

  /** A winner's log holds everything that may have been committed before. */
  lemma WinnerHolds(c: Cluster, h: History, i: NodeId, t: nat, k: nat)
    requires RolesOk(c, h) && VotesOk(c, h) && Vouched(c, h) && MembersOk(c)
    requires i in c.nodes && c.nodes[i].role == Candidate && Majority(c.nodes.Keys, c.nodes[i].votes)
    requires t < c.nodes[i].term && Slot(h, t, k) && Choosable(c, h, t, k)
    ensures Agree(c.nodes[i].log, h.ledger[t], k)
  {
    hide Majority;
    assert RoleOk(c, h, i);
    var v := MajoritiesMeet(c.nodes.Keys, c.nodes[i].votes, Supporters(c, h, t, k));
    assert VoteOf(h, c.nodes[i].term, v) == Some(i);
    assert c.nodes[i].term <= c.nodes[v].term;
  }

  lemma WritesShrinks(c: Cluster, h: History, c': Cluster, h': History, i: NodeId, n: Node)
    requires Writes(c, h, i, n) && c'.nodes == c.nodes[i := n] && h' == Led(h, n.term, i, n.log) &&
      n.id == c.nodes[i].id == i
    ensures Shrinks(c, h, c', h')
  {
    forall t, v | Ack(h, t, v) < Ack(h', t, v) ensures v == i && c.nodes[i].term <= t {}
    FrameShrinks(c, h, Update(c, i, n, {}), h', i, n, {});
    forall t: nat, k: nat ensures Supporters(c', h', t, k) == Supporters(Update(c, i, n, {}), h', t, k) {}
  }

  /** A slot of the new history is an old slot, or the one just written. */
  lemma NewSlot(c: Cluster, h: History, h': History, i: NodeId, n: Node, t: nat, k: nat)
    requires LogsOk(c, h) && Writes(c, h, i, n) && h' == Led(h, n.term, i, n.log)
    requires Owns(c, h, i)
    requires Slot(h', t, k)
    ensures (t == n.term && k == |n.log|) || Slot(h, t, k)
  {
    if t == n.term && k < |n.log| {
      var was := c.nodes[i];
      assert n.log[k - 1] == n.log[..|was.log|][k - 1] == was.log[k - 1];
      assert EntryOk(h, was.log, k - 1);
    }
  }

  lemma WritesComplete(c: Cluster, h: History, c': Cluster, h': History, i: NodeId, n: Node)
    requires Base(c, h) && Chosen(c, h) && Writes(c, h, i, n) && c'.nodes == c.nodes[i := n]
    requires h' == Led(h, n.term, i, n.log) && Local(h, h', i) && Shrinks(c, h, c', h')
    requires Owns(c, h, i)
    ensures Complete(c', h')
  {
    hide LedgersOk, LogsOk, AcksOk, RolesOk, NetOk, CommitsOk, VotesOk, ElectedOk, MembersOk, Choosable, Majority,
         Retained, Vouched;
    var was := c.nodes[i];
    assert was.log <= n.log;
    forall t: nat, t': nat, k: nat | Slot(h', t, k) && t' in h'.ledger && t < t' && Choosable(c', h', t, k)
      ensures Agree(h'.ledger[t], h'.ledger[t'], k)
    {
      NewSlot(c, h, h', i, n, t, k);
      if t == n.term && k == |n.log| {
        TooLate(c, h, c', h', i, n, t');
      } else {
        assert Choosable(c, h, t, k);
        if t' in h.ledger {
          assert Agree(h.ledger[t], h.ledger[t'], k);
        } else {
          WinnerHolds(c, h, i, t, k);
          AgreeLess(was.log, h.ledger[t], k, k);
        }
        AgreeGrows(h.ledger[t], h'.ledger[t], if t' in h.ledger then h.ledger[t'] else was.log, h'.ledger[t'], k);
      }
    }
  }

  lemma AgreeGrows(a: Log, a': Log, b: Log, b': Log, k: nat)
    requires Agree(a, b, k) && a <= a' && b <= b'
    ensures Agree(a', b', k)
  {
    AgreeExtends(a, b, b', k);
    AgreeLess(a, b', k, k);
    AgreeExtends(b', a, a', k);
  }

  lemma WritesRetained(c: Cluster, h: History, c': Cluster, h': History, i: NodeId, n: Node)
    requires LogsOk(c, h) && AcksOk(c, h) && Retained(c, h) && Writes(c, h, i, n) && c'.nodes == c.nodes[i := n]
    requires h' == Led(h, n.term, i, n.log) && Local(h, h', i) && Shrinks(c, h, c', h')
    requires Owns(c, h, i)
    ensures Retained(c', h')
  {
    hide LogsOk, AcksOk, Choosable;
    var was := c.nodes[i];
    forall v, t: nat, k: nat | v in c'.nodes && Slot(h', t, k) && k <= Ack(h', t, v) && Choosable(c', h', t, k)
      ensures Agree(c'.nodes[v].log, h'.ledger[t], k)
    {
      if v != i || t != n.term {
        NewSlot(c, h, h', i, n, t, k);
        AckBound(c, h, t, v);
        assert Slot(h, t, k) && Choosable(c, h, t, k);
        assert Agree(c.nodes[v].log, h.ledger[t], k);
        AgreeGrows(c.nodes[v].log, c'.nodes[v].log, h.ledger[t], h'.ledger[t], k);
      }
    }
  }

  lemma AckBound(c: Cluster, h: History, t: nat, v: NodeId)
    requires AcksOk(c, h)
    ensures 0 < Ack(h, t, v) ==> v in c.nodes && t in h.ledger && Ack(h, t, v) <= |h.ledger[t]| && t <= c.nodes[v].term
  {
    if (t, v) in h.acks { assert AckAt(c, h, t, v); }
  }

  lemma WritesVouched(c: Cluster, h: History, c': Cluster, h': History, i: NodeId, n: Node)
    requires LogsOk(c, h) && VotesOk(c, h) && AcksOk(c, h) && Vouched(c, h) && Writes(c, h, i, n) &&
      c'.nodes == c.nodes[i := n]
    requires h' == Led(h, n.term, i, n.log) && Local(h, h', i) && Shrinks(c, h, c', h')
    requires Owns(c, h, i)
    ensures Vouched(c', h')
  {
    hide LogsOk, AcksOk, Choosable;
    forall j, v, t: nat, k: nat |
      && j in c'.nodes && c'.nodes[j].role == Candidate && VoteOf(h', c'.nodes[j].term, v) == Some(j)
      && Slot(h', t, k) && t < c'.nodes[j].term && k <= Ack(h', t, v) && Choosable(c', h', t, k)
      ensures Agree(c'.nodes[j].log, h'.ledger[t], k)
    {
      assert j != i && VoteOf(h, c.nodes[j].term, v) == Some(j) && c.nodes[j].term <= c.nodes[v].term;
      assert Ack(h', t, v) == Ack(h, t, v) by { assert !(v == i && t == n.term); }
      AckBound(c, h, t, v);
      NewSlot(c, h, h', i, n, t, k);
      assert Slot(h, t, k) && Choosable(c, h, t, k);
      AgreeExtends(c.nodes[j].log, h.ledger[t], h'.ledger[t], k);
    }
  }

  /** A leader's or a winner's append keeps the invariant. */
  lemma WritesInv(c: Cluster, h: History, i: NodeId, n: Node)
    requires Inv(c, h) && Writes(c, h, i, n)
    ensures Inv(Update(c, i, n, {}), Led(h, n.term, i, n.log)) && Extends(h, Led(h, n.term, i, n.log))
  {
    hide LedgersOk, LogsOk, AcksOk, RolesOk, NetOk, CommitsOk, VotesOk, ElectedOk, Complete, Retained, Vouched,
         Shrinks, Led, Local, Majority;
    var c', h' := Update(c, i, n, {}), Led(h, n.term, i, n.log);
    WritesBase(c, h, i, n);
    LocalExtends(h, h', i);
    WritesShrinks(c, h, c', h', i, n);
    WritesComplete(c, h, c', h', i, n);
    WritesRetained(c, h, c', h', i, n);
    WritesVouched(c, h, c', h', i, n);
  }
}
