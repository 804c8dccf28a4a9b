/**
 * What every step of the cluster keeps.
 *
 * The invariant is stated with history variables: for every term the leader and the log it built (the
 * term's ledger), every vote ever cast, and for every term and node the longest log prefix the node has
 * acknowledged to that term's leader.
 */
module RaftInvariant {
  import opened Numbers
  import opened FiniteSets
  import opened Wrappers
  import opened ClusterMetadata
  import opened RaftNode
  import opened RaftCluster

  datatype History = History(
    ledger: map<nat, Log>,
    leader: map<nat, NodeId>,
    votes: map<(nat, NodeId), NodeId>,
    acks: map<(nat, NodeId), nat>)

  const NO_HISTORY := History(map[], map[], map[], map[])

  // --- Vocabulary ---

  predicate Agree(a: Log, b: Log, n: nat)
  {
    n <= |a| && n <= |b| && a[..n] == b[..n]
  }

  function Ack(h: History, t: nat, v: NodeId): nat
  {
    if (t, v) in h.acks then h.acks[(t, v)] else 0
  }

  function VoteOf(h: History, t: nat, v: NodeId): Option<NodeId>
  {
    if (t, v) in h.votes then Some(h.votes[(t, v)]) else None
  }

  /** Position `k` of term `t`'s ledger holds an entry proposed in term `t` itself. */
  predicate Slot(h: History, t: nat, k: nat)
  {
    t in h.ledger && 1 <= k <= |h.ledger[t]| && h.ledger[t][k - 1].term == t
  }

  predicate Majority(ids: set<NodeId>, s: set<NodeId>)
  {
    |ids| < 2 * |s|
  }

  function Voters(ids: set<NodeId>, h: History, t: nat, candidate: NodeId): set<NodeId>
  {
    set v | v in ids && VoteOf(h, t, v) == Some(candidate)
  }

  function Ackers(ids: set<NodeId>, h: History, t: nat, k: nat): set<NodeId>
  {
    set v | v in ids && k <= Ack(h, t, v)
  }

  /** Nodes that have acknowledged position `k` of term `t`, or that could still do so. */
  function Supporters(c: Cluster, h: History, t: nat, k: nat): set<NodeId>
  {
    set v | v in c.nodes && (k <= Ack(h, t, v) || c.nodes[v].term <= t)
  }

  predicate Choosable(c: Cluster, h: History, t: nat, k: nat)
  {
    Majority(c.nodes.Keys, Supporters(c, h, t, k))
  }

  /** The quorum rule of term `t` has reached position `n`. */
  ghost predicate CommittedAt(ids: set<NodeId>, h: History, t: nat, n: nat)
  {
    t in h.ledger && exists k: nat :: n <= k && Slot(h, t, k) && Majority(ids, Ackers(ids, h, t, k))
  }

  // --- The parts of the invariant ---

  predicate EntryOk(h: History, log: Log, i: nat)
    requires i < |log|
  {
    log[i].index == i + 1 && log[i].term in h.ledger && Agree(log, h.ledger[log[i].term], i + 1)
  }

  /** Every entry sits where its term's ledger has it, below the same entries. */
  ghost predicate LogOk(h: History, log: Log)
  {
    forall i :: 0 <= i < |log| ==> EntryOk(h, log, i)
  }

  ghost predicate TermsUpTo(log: Log, t: nat)
  {
    forall i :: 0 <= i < |log| ==> log[i].term <= t
  }

  ghost predicate LedgerAt(h: History, t: nat)
    requires t in h.ledger
  {
    h.ledger[t] != [] && LastTerm(h.ledger[t]) == t && TermsUpTo(h.ledger[t], t) && LogOk(h, h.ledger[t])
  }

  ghost predicate LedgersOk(h: History)
  {
    forall t :: t in h.ledger ==> LedgerAt(h, t)
  }

  ghost predicate MembersOk(c: Cluster)
  {
    forall i :: i in c.nodes ==> c.nodes[i].id == i && c.nodes[i].peers.Keys == c.nodes.Keys - {i}
  }

  /** A vote is cast at most once per term, and a candidate votes for itself before anyone else does. */
  ghost predicate VotesOk(c: Cluster, h: History)
  {
    && (forall t, v :: (t, v) in h.votes ==>
          v in c.nodes && t <= c.nodes[v].term && VoteOf(h, t, h.votes[(t, v)]) == Some(h.votes[(t, v)]))
    && (forall i :: i in c.nodes ==> c.nodes[i].votedFor == VoteOf(h, c.nodes[i].term, i))
  }

  ghost predicate ElectedAt(c: Cluster, h: History, t: nat)
    requires t in h.leader
  {
    && t in h.ledger
    && h.leader[t] in c.nodes
    && VoteOf(h, t, h.leader[t]) == Some(h.leader[t])
    && Majority(c.nodes.Keys, Voters(c.nodes.Keys, h, t, h.leader[t]))
    && Ack(h, t, h.leader[t]) == |h.ledger[t]|
  }

  ghost predicate ElectedOk(c: Cluster, h: History)
  {
    h.ledger.Keys == h.leader.Keys && forall t :: t in h.leader ==> ElectedAt(c, h, t)
  }

  ghost predicate LogsOk(c: Cluster, h: History)
  {
    forall i :: i in c.nodes ==> LogOk(h, c.nodes[i].log) && TermsUpTo(c.nodes[i].log, c.nodes[i].term)
  }

  ghost predicate AckAt(c: Cluster, h: History, t: nat, v: NodeId)
  {
    && v in c.nodes && t in h.ledger && t <= c.nodes[v].term && Ack(h, t, v) <= |h.ledger[t]|
    && (t == c.nodes[v].term ==> Agree(c.nodes[v].log, h.ledger[t], Ack(h, t, v)))
  }

  ghost predicate AcksOk(c: Cluster, h: History)
  {
    forall t, v :: (t, v) in h.acks ==> AckAt(c, h, t, v)
  }

  ghost predicate LeaderOk(n: Node, h: History)
  {
    && n.term in h.ledger && n.term in h.leader && h.leader[n.term] == n.id && h.ledger[n.term] == n.log
    && forall p :: p in n.peers ==> n.peers[p].next <= |n.log| + 1 && n.peers[p].matched <= Ack(h, n.term, p)
  }

  ghost predicate CandidateOk(c: Cluster, n: Node, h: History)
  {
    && !(n.term in h.leader && h.leader[n.term] == n.id)
    && n.votedFor == Some(n.id)
    && n.votes <= Voters(c.nodes.Keys, h, n.term, n.id)
  }

  ghost predicate RoleOk(c: Cluster, h: History, i: NodeId)
    requires i in c.nodes
  {
    match c.nodes[i].role
    case Leader => LeaderOk(c.nodes[i], h)
    case Candidate => CandidateOk(c, c.nodes[i], h)
    case Follower => true
  }

  ghost predicate RolesOk(c: Cluster, h: History)
  {
    forall i :: i in c.nodes ==> RoleOk(c, h, i)
  }

  ghost predicate Backed(ids: set<NodeId>, h: History, term: nat, n: nat)
  {
    n == 0 || exists t: nat :: t <= term && CommittedAt(ids, h, t, n)
  }

  /** An append request carries the whole rest of its term's ledger as it stood when it was sent. */
  ghost predicate AppendOk(ids: set<NodeId>, h: History, dest: NodeId, req: AppendRequest)
  {
    && req.term in h.ledger && req.term in h.leader && h.leader[req.term] == req.leader && dest != req.leader
    && var end := req.prevIndex + |req.entries|;
       && Slot(h, req.term, end)
       && req.entries == h.ledger[req.term][req.prevIndex..end]
       && (0 < req.prevIndex ==> req.prevTerm == h.ledger[req.term][req.prevIndex - 1].term)
       && Backed(ids, h, req.term, req.leaderCommit)
  }

  ghost predicate MessageOk(c: Cluster, h: History, m: Message)
  {
    match m
    case VoteRequested(req) =>
      && VoteOf(h, req.term, req.candidate) == Some(req.candidate)
      && req.candidate in c.nodes
      && var n := c.nodes[req.candidate];
         n.role == Candidate && n.term == req.term ==> req.lastIndex == |n.log| && req.lastTerm == LastTerm(n.log)
    case VoteReplied(dest, vote) =>
      vote.granted ==> VoteOf(h, vote.term, vote.voter) == Some(dest)
    case AppendRequested(dest, req) =>
      AppendOk(c.nodes.Keys, h, dest, req)
    case AppendReplied(dest, ack) =>
      ack.success ==> ack.matchIndex <= Ack(h, ack.term, ack.responder)
  }

  ghost predicate NetOk(c: Cluster, h: History)
  {
    forall m :: m in c.net ==> MessageOk(c, h, m)
  }

  /** The first `n` entries of `log` are those of a ledger whose term committed them. */
  ghost predicate CommitBacked(ids: set<NodeId>, h: History, term: nat, log: Log, n: nat)
  {
    n == 0 || exists t: nat :: t <= term && CommittedAt(ids, h, t, n) && Agree(log, h.ledger[t], n)
  }

  ghost predicate CommitOk(ids: set<NodeId>, h: History, n: Node)
  {
    && n.applied == n.commit <= |n.log|
    && Untimed(n.state) == Meaning(n.log[..n.commit])
    && CommitBacked(ids, h, n.term, n.log, n.commit)
  }

  ghost predicate CommitsOk(c: Cluster, h: History)
  {
    forall i :: i in c.nodes ==> CommitOk(c.nodes.Keys, h, c.nodes[i])
  }

  /** What a term may have committed is in every later ledger. */
  ghost predicate Complete(c: Cluster, h: History)
  {
    forall t: nat, t': nat, k: nat :: Slot(h, t, k) && t' in h.ledger && t < t' && Choosable(c, h, t, k) ==>
      Agree(h.ledger[t], h.ledger[t'], k)
  }

  /** A node keeps what it acknowledged for as long as that may have been committed. */
  ghost predicate Retained(c: Cluster, h: History)
  {
    forall v, t: nat, k: nat :: v in c.nodes && Slot(h, t, k) && k <= Ack(h, t, v) && Choosable(c, h, t, k) ==>
      Agree(c.nodes[v].log, h.ledger[t], k)
  }

  /** A vote was given only to a candidate whose log holds all its voter acknowledged that may be committed. */
  ghost predicate Vouched(c: Cluster, h: History)
  {
    forall i, v, t: nat, k: nat ::
      && i in c.nodes && c.nodes[i].role == Candidate && VoteOf(h, c.nodes[i].term, v) == Some(i)
      && Slot(h, t, k) && t < c.nodes[i].term && k <= Ack(h, t, v) && Choosable(c, h, t, k) ==>
      Agree(c.nodes[i].log, h.ledger[t], k)
  }

  ghost predicate Base(c: Cluster, h: History)
  {
    && MembersOk(c) && LedgersOk(h) && VotesOk(c, h) && ElectedOk(c, h) && LogsOk(c, h) && AcksOk(c, h)
    && RolesOk(c, h) && NetOk(c, h) && CommitsOk(c, h)
  }

  ghost predicate Chosen(c: Cluster, h: History)
  {
    Complete(c, h) && Retained(c, h) && Vouched(c, h)
  }

  ghost predicate Inv(c: Cluster, h: History)
  {
    Base(c, h) && Chosen(c, h)
  }

  // --- Histories only grow ---

  ghost predicate Extends(h: History, h': History)
  {
    && (forall t :: t in h.ledger ==> t in h'.ledger && h.ledger[t] <= h'.ledger[t])
    && (forall t :: t in h.leader ==> t in h'.leader && h'.leader[t] == h.leader[t])
    && (forall k :: k in h.votes ==> k in h'.votes && h'.votes[k] == h.votes[k])
    && (forall k :: k in h.acks ==> k in h'.acks && h.acks[k] <= h'.acks[k])
  }

  lemma ExtendsAck(h: History, h': History)
    requires Extends(h, h')
    ensures forall t, v :: Ack(h, t, v) <= Ack(h', t, v)
    ensures forall t, v :: VoteOf(h, t, v).Some? ==> VoteOf(h', t, v) == VoteOf(h, t, v)
    ensures forall t, k :: Slot(h, t, k) ==> Slot(h', t, k)
  {
  }

  lemma ExtendsLogOk(h: History, h': History, log: Log)
    requires Extends(h, h') && LogOk(h, log)
    ensures LogOk(h', log)
  {
    forall i | 0 <= i < |log| ensures EntryOk(h', log, i) {
      assert EntryOk(h, log, i);
      AgreeExtends(log, h.ledger[log[i].term], h'.ledger[log[i].term], i + 1);
    }
  }

  lemma AgreeExtends(a: Log, b: Log, b': Log, n: nat)
    requires Agree(a, b, n) && b <= b'
    ensures Agree(a, b', n)
  {
    assert b'[..|b|] == b;
    assert b'[..n] == b[..n];
  }

  lemma AgreeLess(a: Log, b: Log, n: nat, m: nat)
    requires Agree(a, b, n) && m <= n
    ensures Agree(a, b, m) && Agree(b, a, m)
  {
    assert a[..m] == a[..n][..m] && b[..m] == b[..n][..m];
  }

  lemma AgreeThrough(a: Log, b: Log, d: Log, n: nat, m: nat)
    requires Agree(a, b, n) && Agree(b, d, m)
    ensures Agree(a, d, Min(n, m))
  {
    AgreeLess(a, b, n, Min(n, m));
    AgreeLess(b, d, m, Min(n, m));
  }

  lemma ExtendsCommitted(ids: set<NodeId>, h: History, h': History, t: nat, n: nat)
    requires Extends(h, h') && CommittedAt(ids, h, t, n)
    ensures CommittedAt(ids, h', t, n)
  {
    ExtendsAck(h, h');
    var k: nat :| n <= k && Slot(h, t, k) && Majority(ids, Ackers(ids, h, t, k));
    assert Ackers(ids, h, t, k) <= Ackers(ids, h', t, k);
    Larger(Ackers(ids, h, t, k), Ackers(ids, h', t, k));
    assert Slot(h', t, k) && Majority(ids, Ackers(ids, h', t, k));
  }

  lemma ExtendsBacked(ids: set<NodeId>, h: History, h': History, term: nat, n: nat)
    requires Extends(h, h') && Backed(ids, h, term, n)
    ensures Backed(ids, h', term, n)
  {
    if n != 0 {
      var t: nat :| t <= term && CommittedAt(ids, h, t, n);
      ExtendsCommitted(ids, h, h', t, n);
    }
  }

  /** A backed commit stays backed when history, term and log grow. */
  lemma ExtendsCommitBacked(ids: set<NodeId>, h: History, h': History, term: nat, term': nat, log: Log, log': Log,
                            n: nat)
    requires Extends(h, h') && term <= term' && log <= log' && CommitBacked(ids, h, term, log, n)
    ensures CommitBacked(ids, h', term', log', n)
  {
    if n != 0 {
      var t: nat :| t <= term && CommittedAt(ids, h, t, n) && Agree(log, h.ledger[t], n);
      ExtendsCommitted(ids, h, h', t, n);
      AgreeExtends(log, h.ledger[t], h'.ledger[t], n);
      AgreeExtends(h'.ledger[t], log, log', n);
    }
  }

  lemma ExtendsAppendOk(ids: set<NodeId>, h: History, h': History, dest: NodeId, req: AppendRequest)
    requires Extends(h, h') && AppendOk(ids, h, dest, req)
    ensures AppendOk(ids, h', dest, req)
  {
    ExtendsBacked(ids, h, h', req.term, req.leaderCommit);
    var end := req.prevIndex + |req.entries|;
    var l, l' := h.ledger[req.term], h'.ledger[req.term];
    assert l'[..|l|] == l;
    assert l'[req.prevIndex..end] == l[req.prevIndex..end];
  }

  // --- Sets and majorities ---

  /** Two majorities share a member. */
  lemma MajoritiesMeet(ids: set<NodeId>, a: set<NodeId>, b: set<NodeId>) returns (v: NodeId)
    requires a <= ids && b <= ids && Majority(ids, a) && Majority(ids, b)
    ensures v in a && v in b
  {
    if a * b == {} {
      assert |a + b| == |a| + |b|;
      Larger(a + b, ids);
      assert false;
    }
    v :| v in a * b;
  }

  // --- Logs ---

  /** Terms never decrease along a log. */
  lemma TermsMonotone(h: History, log: Log, i: nat, j: nat)
    requires LedgersOk(h) && LogOk(h, log) && i <= j < |log|
    ensures log[i].term <= log[j].term
  {
    var t := log[j].term;
    assert EntryOk(h, log, j);
    assert LedgerAt(h, t);
    assert log[i] == log[..j + 1][i] == h.ledger[t][..j + 1][i];
  }

  /** Two logs with the same term at a position are equal up to it. */
  lemma SameTermAgree(h: History, a: Log, b: Log, i: nat)
    requires LogOk(h, a) && LogOk(h, b) && i < |a| && i < |b| && a[i].term == b[i].term
    ensures Agree(a, b, i + 1)
  {
    assert EntryOk(h, a, i) && EntryOk(h, b, i);
  }

  lemma TakeLogOk(h: History, log: Log, n: nat)
    requires LogOk(h, log) && n <= |log|
    ensures LogOk(h, log[..n])
  {
    forall i | 0 <= i < n ensures EntryOk(h, log[..n], i) {
      assert EntryOk(h, log, i);
      assert log[..n][..i + 1] == log[..i + 1];
    }
  }

  /** A ledger that shares position `k` of an earlier term has every entry of its own term above `k`. */
  lemma OwnEntriesAbove(h: History, t: nat, t': nat, k: nat, n: nat)
    requires LedgersOk(h) && Slot(h, t, k) && t' in h.ledger && t < t' && Agree(h.ledger[t], h.ledger[t'], k)
    requires 1 <= n <= |h.ledger[t']| && h.ledger[t'][n - 1].term == t'
    ensures k < n
  {
    assert LedgerAt(h, t');
    assert h.ledger[t'][k - 1] == h.ledger[t'][..k][k - 1] == h.ledger[t][..k][k - 1];
  }

  /** What is committed in a term may have been committed in it. */
  lemma CommittedChoosable(c: Cluster, h: History, t: nat, n: nat) returns (k: nat)
    requires CommittedAt(c.nodes.Keys, h, t, n)
    ensures n <= k && Slot(h, t, k) && Choosable(c, h, t, k)
  {
    var ids := c.nodes.Keys;
    k :| n <= k && Slot(h, t, k) && Majority(ids, Ackers(ids, h, t, k));
    Larger(Ackers(ids, h, t, k), Supporters(c, h, t, k));
  }

  /** A committed prefix is in the ledger of every term from its own on. */
  lemma CommittedInLedger(c: Cluster, h: History, t: nat, t': nat, n: nat)
    requires Complete(c, h) && t <= t' && t' in h.ledger && CommittedAt(c.nodes.Keys, h, t, n)
    ensures Agree(h.ledger[t], h.ledger[t'], n)
  {
    var k := CommittedChoosable(c, h, t, n);
    if t < t' {
      assert Agree(h.ledger[t], h.ledger[t'], k);
      AgreeLess(h.ledger[t], h.ledger[t'], k, n);
    }
  }

  /** Support is only ever lost: new acknowledgements come from nodes that had not left the term. */
  lemma SupportShrinks(c: Cluster, h: History, c': Cluster, h': History, t: nat, k: nat)
    requires c'.nodes.Keys == c.nodes.Keys
    requires forall v :: v in c.nodes ==> c.nodes[v].term <= c'.nodes[v].term
    requires forall v :: v in c.nodes && Ack(h, t, v) < Ack(h', t, v) ==> c.nodes[v].term <= t
    requires Choosable(c', h', t, k)
    ensures Choosable(c, h, t, k)
  {
    assert Supporters(c', h', t, k) <= Supporters(c, h, t, k);
    Larger(Supporters(c', h', t, k), Supporters(c, h, t, k));
  }

  // --- The start ---

  lemma StartInv(members: set<NodeId>)
    ensures Inv(Start(members), NO_HISTORY)
  {
    hide Start, CommitsOk, MembersOk;
    var c := Start(members);
    StartNodes(members);
    assert forall t: nat, k: nat :: !Slot(NO_HISTORY, t, k);
  }

  lemma StartNodes(members: set<NodeId>)
    ensures var c := Start(members);
      && c.net == {} && MembersOk(c) && CommitsOk(c, NO_HISTORY)
      && forall i :: i in c.nodes ==> c.nodes[i].role == Follower && c.nodes[i].votedFor == None && c.nodes[i].log == []
  {
    var c := Start(members);
    assert Untimed(EMPTY) == EMPTY by { assert Untimed(EMPTY).leases == EMPTY.leases; }
    forall i | i in c.nodes
      ensures c.nodes[i].peers.Keys == c.nodes.Keys - {i} && CommitOk(c.nodes.Keys, NO_HISTORY, c.nodes[i])
    {
      assert c.nodes[i] == Fresh(i, members);
      assert c.nodes[i].log[..0] == [];
    }
  }
}
