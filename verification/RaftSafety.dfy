/** The safety theorems: what holds in every run of every cluster. */
module RaftSafety {
  import opened Numbers
  import opened Wrappers
  import opened ClusterMetadata
  import opened RaftNode
  import opened RaftCluster
  import opened RaftInvariant
  import opened RaftSteps
  import opened RaftFollower

  /** Each state of a run has a history that satisfies the invariant, and later histories extend earlier ones. */
  ghost predicate Explained(run: seq<Cluster>, hs: seq<History>)
  {
    && |hs| == |run|
    && (forall i :: 0 <= i < |run| ==> Inv(run[i], hs[i]))
    && (forall i, j :: 0 <= i <= j < |run| ==> Extends(hs[i], hs[j]))
    && (forall i :: 0 <= i < |run| ==> run[i].nodes.Keys == run[0].nodes.Keys)
    && (|hs| > 0 ==> hs[0] == NO_HISTORY)
    && (forall i :: 0 <= i < |run| - 1 ==> AcksInTerm(run[i + 1], hs[i], hs[i + 1]))
  }

  lemma {:induction false} EveryRunExplained(members: set<NodeId>, run: seq<Cluster>) returns (hs: seq<History>)
    requires IsRun(members, run)
    ensures Explained(run, hs)
  {
    hide Inv, Extends, Start, AcksInTerm;
    if |run| == 1 {
      hs := [NO_HISTORY];
      StartInv(members);
      ExtendsItself(NO_HISTORY);
    } else {
      var n := |run| - 1;
      assert run[..n][0] == run[0];
      forall i | 0 <= i < n - 1 ensures Follows(run[..n][i], run[..n][i + 1]) {
        assert Follows(run[i], run[i + 1]);
      }
      var hs' := EveryRunExplained(members, run[..n]);
      assert run[..n][n - 1] == run[n - 1];
      assert Follows(run[n - 1], run[n - 1 + 1]);
      var s :| Enabled(run[n - 1], s) && Take(run[n - 1], s) == run[n];
      var h := StepInv(run[n - 1], hs'[n - 1], s);
      TakeKeepsMembers(run[n - 1], s);
      hs := hs' + [h];
      ExtendsItself(h);
      forall i, j | 0 <= i <= j < |run| ensures Extends(hs[i], hs[j]) {
        if j == n && i < n { ExtendsTwice(hs'[i], hs'[n - 1], h); }
      }
      forall i | 0 <= i < |run| ensures Inv(run[i], hs[i]) && run[i].nodes.Keys == run[0].nodes.Keys {
        if i < n { assert run[..n][i] == run[i]; }
      }
      forall i | 0 <= i < |run| - 1 ensures AcksInTerm(run[i + 1], hs[i], hs[i + 1]) {
        if i < n - 1 { assert AcksInTerm(run[..n][i + 1], hs'[i], hs'[i + 1]); }
      }
    }
  }

  lemma ExtendsItself(h: History)
    ensures Extends(h, h)
  {
  }

  lemma TakeKeepsMembers(c: Cluster, s: Step)
    requires Enabled(c, s)
    ensures Take(c, s).nodes.Keys == c.nodes.Keys
  {
    hide StartElection, HandleVoteRequest, RecordVote, Propose, CreateAppend, HandleAppendRequest, HandleAppendReply;
    assert Take(c, s).nodes.Keys == c.nodes.Keys + {s.id};
  }

  // --- Election safety ---

  lemma LeaderFact(c: Cluster, h: History, i: NodeId)
    requires Inv(c, h) && i in c.nodes && c.nodes[i].role == Leader
    ensures LeaderOk(c.nodes[i], h) && c.nodes[i].id == i
  {
    hide Chosen, VotesOk, ElectedOk, AcksOk, NetOk, CommitsOk, LedgersOk, LogsOk, LeaderOk;
    assert RoleOk(c, h, i);
  }

  /** Over a whole run, at most one node ever leads a given term. */
  lemma ElectionSafety(members: set<NodeId>, run: seq<Cluster>, i: nat, j: nat, a: NodeId, b: NodeId)
    requires IsRun(members, run) && i < |run| && j < |run|
    requires a in run[i].nodes && run[i].nodes[a].role == Leader
    requires b in run[j].nodes && run[j].nodes[b].role == Leader
    requires run[i].nodes[a].term == run[j].nodes[b].term
    ensures a == b
  {
    hide Inv;
    var hs := EveryRunExplained(members, run);
    LeaderFact(run[i], hs[i], a);
    LeaderFact(run[j], hs[j], b);
    var k := if i <= j then j else i;
    assert Extends(hs[i], hs[k]) && Extends(hs[j], hs[k]);
  }

  // --- Log matching ---

  /** In every reachable state: positions, term order, and equal terms mean equal prefixes. */
  lemma LogMatching(members: set<NodeId>, c: Cluster, a: NodeId, b: NodeId, i: nat)
    requires Reachable(members, c) && a in c.nodes && b in c.nodes && i < |c.nodes[a].log|
    ensures c.nodes[a].log[i].index == i + 1
    ensures i + 1 < |c.nodes[a].log| ==> c.nodes[a].log[i].term <= c.nodes[a].log[i + 1].term
    ensures i < |c.nodes[b].log| && c.nodes[a].log[i].term == c.nodes[b].log[i].term ==>
      c.nodes[a].log[..i + 1] == c.nodes[b].log[..i + 1]
  {
    hide Inv, Reachable;
    var h := ReachableInv(members, c);
    LogFact(c, h, a);
    LogFact(c, h, b);
    assert EntryOk(h, c.nodes[a].log, i);
    if i + 1 < |c.nodes[a].log| { TermsMonotone(h, c.nodes[a].log, i, i + 1); }
    if i < |c.nodes[b].log| && c.nodes[a].log[i].term == c.nodes[b].log[i].term {
      SameTermAgree(h, c.nodes[a].log, c.nodes[b].log, i);
    }
  }

  lemma ReachableInv(members: set<NodeId>, c: Cluster) returns (h: History)
    requires Reachable(members, c)
    ensures Inv(c, h)
  {
    hide Inv;
    var run :| IsRun(members, run) && run[|run| - 1] == c;
    var hs := EveryRunExplained(members, run);
    h := hs[|run| - 1];
  }

  // --- State machine safety ---

  lemma CommitFact(c: Cluster, h: History, i: NodeId)
    requires Inv(c, h) && i in c.nodes
    ensures CommitOk(c.nodes.Keys, h, c.nodes[i])
  {
    hide Chosen, VotesOk, ElectedOk, AcksOk, NetOk, RolesOk, LedgersOk, LogsOk, CommitOk, MembersOk;
  }

  lemma CompleteFact(c: Cluster, h: History)
    requires Inv(c, h)
    ensures Complete(c, h) && LedgersOk(h)
  {
    hide Base, Complete, Retained, Vouched;
    hide VotesOk, ElectedOk, AcksOk, NetOk, RolesOk, LedgersOk, LogsOk, CommitsOk, MembersOk;
    LedgersFact(c, h);
  }

  lemma LedgersFact(c: Cluster, h: History)
    requires Base(c, h)
    ensures LedgersOk(h)
  {
    hide VotesOk, ElectedOk, AcksOk, NetOk, RolesOk, LedgersOk, LogsOk, CommitsOk, MembersOk;
  }

  /** Two committed prefixes agree as far as both go. */
  lemma CommitsAgree(c: Cluster, h: History, t: nat, log: Log, n: nat, t': nat, log': Log, n': nat)
    requires Complete(c, h)
    requires CommitBacked(c.nodes.Keys, h, t, log, n) && CommitBacked(c.nodes.Keys, h, t', log', n')
    ensures Agree(log, log', Min(n, n'))
  {
    hide Complete, Slot, Ackers, Majority;
    if n != 0 && n' != 0 {
      var ids := c.nodes.Keys;
      var u: nat :| u <= t && CommittedAt(ids, h, u, n) && Agree(log, h.ledger[u], n);
      var v: nat :| v <= t' && CommittedAt(ids, h, v, n') && Agree(log', h.ledger[v], n');
      LedgersAgree(c, h, u, n, v, n');
      AgreeLess(log', h.ledger[v], n', n');
      AgreeThrough(log, h.ledger[u], h.ledger[v], n, Min(n, n'));
      AgreeThrough(log, h.ledger[v], log', Min(n, n'), n');
    } else {
      assert log[..0] == log'[..0];
    }
  }

  lemma LedgersAgree(c: Cluster, h: History, u: nat, n: nat, v: nat, n': nat)
    requires Complete(c, h) && CommittedAt(c.nodes.Keys, h, u, n) && CommittedAt(c.nodes.Keys, h, v, n')
    ensures Agree(h.ledger[u], h.ledger[v], Min(n, n'))
  {
    hide Complete;
    if u <= v {
      CommittedInLedger(c, h, u, v, n);
      AgreeLess(h.ledger[u], h.ledger[v], n, Min(n, n'));
    } else {
      CommittedInLedger(c, h, v, u, n');
      AgreeLess(h.ledger[v], h.ledger[u], n', Min(n, n'));
    }
  }

  /** What two nodes have committed, at any two moments of a run, is the same as far as both go. */
  lemma CommittedPrefixesAgree(members: set<NodeId>, run: seq<Cluster>, i: nat, j: nat, a: NodeId, b: NodeId)
    requires IsRun(members, run) && i < |run| && j < |run| && a in run[i].nodes && b in run[j].nodes
    ensures Agree(run[i].nodes[a].log, run[j].nodes[b].log, Min(run[i].nodes[a].commit, run[j].nodes[b].commit))
  {
    hide Inv, Extends, Complete, CommitBacked, Agree;
    var hs := EveryRunExplained(members, run);
    var m, n := run[i].nodes[a], run[j].nodes[b];
    var k := if i <= j then j else i;
    CommitFact(run[i], hs[i], a);
    CommitFact(run[j], hs[j], b);
    var ids, h := run[k].nodes.Keys, hs[k];
    assert ids == run[i].nodes.Keys == run[j].nodes.Keys;
    ExtendsCommitBacked(ids, hs[i], h, m.term, m.term, m.log, m.log, m.commit);
    ExtendsCommitBacked(ids, hs[j], h, n.term, n.term, n.log, n.log, n.commit);
    CompleteFact(run[k], h);
    CommitsAgree(run[k], h, m.term, m.log, m.commit, n.term, n.log, n.commit);
  }

  /**
   * State machine safety. Whatever two nodes have applied, at any two moments of a run, is the same command at
   * every index both have applied; and with equally much applied they hold the same metadata, clock readings aside.
   */
  lemma StateMachineSafety(members: set<NodeId>, run: seq<Cluster>, i: nat, j: nat, a: NodeId, b: NodeId)
    requires IsRun(members, run) && i < |run| && j < |run| && a in run[i].nodes && b in run[j].nodes
    ensures var m, n := run[i].nodes[a], run[j].nodes[b];
      && m.applied <= |m.log| && n.applied <= |n.log|
      && (forall k :: 0 <= k < m.applied && k < n.applied ==> m.log[k] == n.log[k])
      && (m.applied == n.applied ==> Untimed(m.state) == Untimed(n.state))
  {
    hide Inv, Explained, CommitBacked;
    var hs := EveryRunExplained(members, run);
    ExplainedAt(run, hs, i);
    ExplainedAt(run, hs, j);
    CommitFact(run[i], hs[i], a);
    CommitFact(run[j], hs[j], b);
    CommittedPrefixesAgree(members, run, i, j, a, b);
    var m, n := run[i].nodes[a], run[j].nodes[b];
    forall k | 0 <= k < m.applied && k < n.applied ensures m.log[k] == n.log[k] {
      assert m.log[..Min(m.commit, n.commit)][k] == n.log[..Min(m.commit, n.commit)][k];
    }
  }

  lemma ExplainedAt(run: seq<Cluster>, hs: seq<History>, i: nat)
    requires Explained(run, hs) && i < |run|
    ensures i < |hs| && Inv(run[i], hs[i])
  {
    hide Inv, Extends;
  }

  // --- Leader completeness ---

  /**
   * Leader completeness. What any node has committed is in the log of every leader of a later term, at whatever
   * moment of the run; and, from then on, in the log of the leader of the node's own term.
   */
  lemma LeaderCompleteness(members: set<NodeId>, run: seq<Cluster>, i: nat, j: nat, a: NodeId, b: NodeId)
    requires IsRun(members, run) && i < |run| && j < |run|
    requires a in run[i].nodes && b in run[j].nodes && run[j].nodes[b].role == Leader
    requires run[i].nodes[a].term < run[j].nodes[b].term || (i <= j && run[i].nodes[a].term == run[j].nodes[b].term)
    ensures Agree(run[i].nodes[a].log, run[j].nodes[b].log, run[i].nodes[a].commit)
  {
    hide Inv, CommitOk, LeaderOk, Agree;
    var hs := EveryRunExplained(members, run);
    CommitFact(run[i], hs[i], a);
    LeaderFact(run[j], hs[j], b);
    var k := if i <= j then j else i;
    assert Extends(hs[i], hs[k]) && Extends(hs[j], hs[k]);
    assert run[k].nodes.Keys == run[i].nodes.Keys;
    LedgersOwn(run[j], hs[j], b);
    HoldsCommitted(run[k], hs[i], hs[j], hs[k], run[i].nodes[a], run[j].nodes[b]);
  }

  lemma LedgersOwn(c: Cluster, h: History, b: NodeId)
    requires Inv(c, h) && b in c.nodes && c.nodes[b].role == Leader
    ensures c.nodes[b].log != [] && LastTerm(c.nodes[b].log) == c.nodes[b].term
  {
    hide Inv;
    LeaderFact(c, h, b);
    CompleteFact(c, h);
    assert LedgerAt(h, c.nodes[b].term);
  }

  /** The log of leader `n`, as it stood in history `hj`, holds what `m` had committed in history `hi`. */
  lemma HoldsCommitted(c: Cluster, hi: History, hj: History, h: History, m: Node, n: Node)
    requires Inv(c, h) && Extends(hi, h) && Extends(hj, h) && CommitOk(c.nodes.Keys, hi, m)
    requires n.role == Leader && LeaderOk(n, hj) && n.log != [] && LastTerm(n.log) == n.term
    requires m.term < n.term || (h == hj && m.term == n.term)
    ensures Agree(m.log, n.log, m.commit)
  {
    hide Inv, Complete, LedgersOk, Slot, Ackers, Majority;
    if m.commit != 0 {
      var ids := c.nodes.Keys;
      var t: nat :| t <= m.term && CommittedAt(ids, hi, t, m.commit) && Agree(m.log, hi.ledger[t], m.commit);
      ExtendsCommitted(ids, hi, h, t, m.commit);
      AgreeExtends(m.log, hi.ledger[t], h.ledger[t], m.commit);
      CompleteFact(c, h);
      EarlyLedgerHolds(c, h, t, n.term, m.commit, n.log);
      AgreeThrough(m.log, h.ledger[t], n.log, m.commit, m.commit);
    }
  }

  /** A committed prefix is in every version of a later term's ledger, however early. */
  lemma EarlyLedgerHolds(c: Cluster, h: History, t: nat, t': nat, n: nat, early: Log)
    requires Complete(c, h) && LedgersOk(h) && CommittedAt(c.nodes.Keys, h, t, n)
    requires t' in h.ledger && early <= h.ledger[t'] && early != [] && LastTerm(early) == t'
    requires t < t' || (t == t' && early == h.ledger[t'])
    ensures Agree(h.ledger[t], early, n)
  {
    hide Complete, LedgersOk;
    CommittedInLedger(c, h, t, t', n);
    if t < t' {
      var k := CommittedChoosable(c, h, t, n);
      ChosenAgree(c, h, t, t', k);
      assert h.ledger[t'][|early| - 1] == early[|early| - 1];
      OwnEntriesAbove(h, t, t', k, |early|);
      assert early[..n] == h.ledger[t'][..n];
    }
  }

  lemma ChosenAgree(c: Cluster, h: History, t: nat, t': nat, k: nat)
    requires Complete(c, h) && Slot(h, t, k) && t' in h.ledger && t < t' && Choosable(c, h, t, k)
    ensures Agree(h.ledger[t], h.ledger[t'], k)
  {
  }

  // --- Committed entries are never lost ---

  /** `n'` has committed all that `n` has, and kept it. */
  predicate KeepsCommitted(n: Node, n': Node)
  {
    n.commit <= n'.commit <= |n'.log| && n.commit <= |n.log| && n.log[..n.commit] == n'.log[..n.commit]
  }

  /** One step neither lowers a node's commit index nor changes what it had committed. */
  lemma StepKeepsCommitted(c: Cluster, h: History, s: Step, a: NodeId)
    requires Inv(c, h) && Enabled(c, s) && a in c.nodes
    ensures a in Take(c, s).nodes && KeepsCommitted(c.nodes[a], Take(c, s).nodes[a])
  {
    hide Inv, Take, Extends;
    var h' := StepInv(c, h, s);
    TakeKeepsMembers(c, s);
    var c' := Take(c, s);
    CommitFact(c, h, a);
    CommitFact(c', h', a);
    CommitGrows(c, h, s, a);
    var n, n', ids := c.nodes[a], c'.nodes[a], c.nodes.Keys;
    ExtendsCommitBacked(ids, h, h', n.term, n.term, n.log, n.log, n.commit);
    CompleteFact(c', h');
    CommitsAgree(c', h', n.term, n.log, n.commit, n'.term, n'.log, n'.commit);
  }

  lemma CommitGrows(c: Cluster, h: History, s: Step, a: NodeId)
    requires Inv(c, h) && Enabled(c, s) && a in c.nodes
    ensures c.nodes[a].commit <= Take(c, s).nodes[a].commit
  {
    hide Inv, HandleVoteRequest, StartElection, RecordVote, Propose, HandleAppendRequest, HandleAppendReply;
    CommitFact(c, h, a);
    var n := c.nodes[a];
    if s.id == a {
      match s
      case Campaign(_) => StandKeepsCommit(n);
      case ReceiveVoteRequest(_, req) => VoteKeepsCommit(n, req);
      case ReceiveVote(_, vote, now) => CountGrows(n, vote, now);
      case ClientPropose(_, command, now) => ProposeGrows(n, command, now);
      case SendAppend(_, _) =>
      case ReceiveAppend(_, append, now) => FollowerCommitGrows(c, h, a, append, now);
      case ReceiveAppendReply(_, ack, now) => QuorumCommitGrows(n, ack, now);
    }
  }

  lemma StandKeepsCommit(n: Node)
    ensures StartElection(n).0.commit == n.commit
  {
  }

  lemma VoteKeepsCommit(n: Node, req: VoteRequest)
    ensures HandleVoteRequest(n, req).0.commit == n.commit
  {
    hide UpToDate;
  }

  lemma ProposeGrows(n: Node, command: Command, now: nat)
    requires n.commit <= |n.log|
    ensures n.commit <= Propose(n, command, now).0.commit
  {
  }

  lemma CountGrows(n: Node, vote: VoteReply, now: nat)
    requires n.commit <= |n.log|
    ensures n.commit <= RecordVote(n, vote.voter, vote.granted, vote.term, now).0.commit
  {
    hide Propose;
    ProposeGrows(Promote(n.(votes := n.votes + {vote.voter})), Noop, now);
  }

  lemma QuorumCommitGrows(n: Node, ack: AppendReply, now: nat)
    ensures n.commit <= HandleAppendReply(n, ack.responder, ack, now).commit
  {
    hide QuorumIndex;
  }

  /** A follower's log never gets shorter than what it has committed, so the minimum it takes is no step back. */
  lemma FollowerCommitGrows(c: Cluster, h: History, a: NodeId, req: AppendRequest, now: nat)
    requires Inv(c, h) && Enabled(c, ReceiveAppend(a, req, now))
    ensures c.nodes[a].commit <= HandleAppendRequest(c.nodes[a], req, now).0.commit
  {
    hide Inv, AppendLog;
    var h' := AppendInv(c, h, a, req, now);
    CommitFact(Take(c, ReceiveAppend(a, req, now)), h', a);
    var n := c.nodes[a];
    var n1 := if n.term < req.term then Advance(n, req.term) else n;
    AppendKeepsCommitted(c, h, a, req, n1);
  }

  lemma AppendKeepsCommitted(c: Cluster, h: History, a: NodeId, req: AppendRequest, n: Node)
    requires Inv(c, h) && a in c.nodes && AppendRequested(a, req) in c.net
    requires n == if c.nodes[a].term < req.term then Advance(c.nodes[a], req.term) else c.nodes[a]
    ensures n.term <= req.term ==> n.commit <= |AppendLog(n.log, req).0|
  {
    hide Inv, AppendLog, AppendOk, After, LedgersOk;
    if n.term <= req.term {
      MessageFact(c, h, AppendRequested(a, req));
      CatchUpInv(c, h, a, n, req.term);
      var c1 := Update(c, a, n, {});
      assert c1.nodes.Keys == c.nodes.Keys;
      var n2 := n.(role := Follower, leaderId := Some(req.leader), log := AppendLog(n.log, req).0);
      var h' := TakesInv(c1, h, a, n2, req, AppendLog(n.log, req).1);
      CommitFact(Update(c1, a, n2,
        {AppendReplied(req.leader, AppendReply(req.term, AppendLog(n.log, req).1, |n2.log|, a))}), h', a);
    }
  }

  /** Over a whole run, a node's commit index never goes back and no committed entry is ever truncated. */
  lemma {:induction false} CommittedForever(members: set<NodeId>, run: seq<Cluster>, i: nat, j: nat, a: NodeId)
    requires IsRun(members, run) && i <= j < |run| && a in run[i].nodes
    ensures a in run[j].nodes && KeepsCommitted(run[i].nodes[a], run[j].nodes[a])
    decreases j - i
  {
    hide Inv, Extends, Take, Start;
    var hs := EveryRunExplained(members, run);
    if i == j {
      CommitFact(run[i], hs[i], a);
    } else {
      CommittedForever(members, run, i, j - 1, a);
      assert Follows(run[j - 1], run[j - 1 + 1]);
      var s :| Enabled(run[j - 1], s) && Take(run[j - 1], s) == run[j];
      StepKeepsCommitted(run[j - 1], hs[j - 1], s, a);
      var m, l, n := run[i].nodes[a], run[j - 1].nodes[a], run[j].nodes[a];
      assert l.log[..m.commit] == l.log[..l.commit][..m.commit] == n.log[..l.commit][..m.commit] == n.log[..m.commit];
    }
  }

  // --- Match indices ---

  /**
   * Whatever a node has acknowledged in a term, at some moment up to now it was in that term and had
   * acknowledged it.
   */
  lemma {:induction false} AckMoment(run: seq<Cluster>, hs: seq<History>, j: nat, t: nat, p: NodeId, m: nat)
    returns (i: nat)
    requires Explained(run, hs) && j < |run| && 0 < m <= Ack(hs[j], t, p)
    ensures i <= j && p in run[i].nodes && run[i].nodes[p].term == t && m <= Ack(hs[i], t, p)
  {
    hide Inv, Extends;
    if 0 < j && m <= Ack(hs[j - 1], t, p) {
      i := AckMoment(run, hs, j - 1, t, p, m);
    } else {
      i := j;
      assert j == 0 || AcksInTerm(run[j - 1 + 1], hs[j - 1], hs[j - 1 + 1]);
    }
  }

  /**
   * A leader's match index for a peer never exceeds its own log, and at some moment of the run the peer, in the
   * leader's term, really held that prefix of the leader's log, although it reports its whole log length. While the
   * peer is still in that term it holds the prefix now.
   */
  lemma MatchIndexSound(members: set<NodeId>, run: seq<Cluster>, j: nat, a: NodeId, p: NodeId) returns (i: nat)
    requires IsRun(members, run) && j < |run| && a in run[j].nodes
    requires run[j].nodes[a].role == Leader && p in run[j].nodes[a].peers
    ensures var l := run[j].nodes[a]; var m := l.peers[p].matched;
      && i <= j && p in run[i].nodes && p in run[j].nodes && m <= |l.log|
      && (0 < m ==> run[i].nodes[p].term == l.term && Agree(run[i].nodes[p].log, l.log, m))
      && (run[j].nodes[p].term == l.term ==> Agree(run[j].nodes[p].log, l.log, m))
  {
    hide Inv, Explained, Extends, Agree, AckAt, Ack;
    var hs := EveryRunExplained(members, run);
    ExplainedAt(run, hs, j);
    var l := run[j].nodes[a];
    var m := l.peers[p].matched;
    LeaderFact(run[j], hs[j], a);
    MatchedFact(run[j], hs[j], a, p);
    i := j;
    if 0 < m {
      i := AckMoment(run, hs, j, l.term, p, m);
      ExplainedAt(run, hs, i);
      AckedPrefix(run[j], hs[j], l.term, p, m, l.log);
      AckFact(run[i], hs[i], l.term, p);
      LedgerGrows(run, hs, i, j, l.term);
      AckedPrefix(run[i], hs[i], l.term, p, m, l.log);
    } else {
      NothingAgrees(run[j].nodes[p].log, l.log);
    }
  }

  lemma NothingAgrees(a: Log, b: Log)
    ensures Agree(a, b, 0)
  {
  }

  lemma LedgerGrows(run: seq<Cluster>, hs: seq<History>, i: nat, j: nat, t: nat)
    requires Explained(run, hs) && i <= j < |run| && t in hs[i].ledger
    ensures t in hs[j].ledger && hs[i].ledger[t] <= hs[j].ledger[t]
  {
    hide Inv, AcksInTerm;
  }

  lemma AckedPrefix(c: Cluster, h: History, t: nat, p: NodeId, m: nat, log: Log)
    requires AckAt(c, h, t, p) && 0 < m <= Ack(h, t, p) && h.ledger[t] <= log
    ensures m <= |log| && (c.nodes[p].term == t ==> Agree(c.nodes[p].log, log, m))
  {
    if c.nodes[p].term == t {
      AgreeLess(c.nodes[p].log, h.ledger[t], Ack(h, t, p), m);
      AgreeExtends(c.nodes[p].log, h.ledger[t], log, m);
    }
  }

  lemma AckFact(c: Cluster, h: History, t: nat, p: NodeId)
    requires Inv(c, h) && 0 < Ack(h, t, p)
    ensures AckAt(c, h, t, p) && t in h.ledger
  {
    hide Chosen, VotesOk, ElectedOk, NetOk, RolesOk, LedgersOk, LogsOk, CommitsOk;
  }

  lemma MatchedFact(c: Cluster, h: History, a: NodeId, p: NodeId)
    requires Inv(c, h) && a in c.nodes && c.nodes[a].role == Leader && p in c.nodes[a].peers
    ensures p in c.nodes && (0 < Ack(h, c.nodes[a].term, p) ==> AckAt(c, h, c.nodes[a].term, p))
  {
    hide Chosen, VotesOk, ElectedOk, NetOk, RolesOk, LedgersOk, LogsOk, CommitsOk, AckAt;
  }
}
