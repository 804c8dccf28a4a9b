/** A leader and a majority commit and apply everything in the leader's log. */
module RaftAvailability {
  import opened Numbers
  import opened FiniteSets
  import opened ClusterMetadata
  import opened RaftNode
  import opened RaftCluster
  import opened RaftInvariant
  import opened RaftSteps
  import opened RaftSafety
  import opened RaftRepair
  import opened RaftProgress

  // --- The commit index after a reply ---

  /** The peers that a leader knows to hold index `i`. */
  function Holders(n: Node, i: nat): set<NodeId>
  {
    set p | p in n.peers && i <= n.peers[p].matched
  }

  /** Index `i` is in the log, of the leader's own term, and held by more than half of the members, leader included. */
  predicate HeldByMost(n: Node, i: nat)
  {
    1 <= i <= |n.log| && n.log[i - 1].term == n.term && |n.peers| + 1 < 2 * (1 + |Holders(n, i)|)
  }

  lemma {:induction false} QuorumIndexLargest(n: Node, top: nat)
    requires top <= |n.log|
    ensures forall i :: n.commit < i <= top && HeldByMost(n, i) ==> i <= QuorumIndex(n, top)
    ensures n.commit < QuorumIndex(n, top) ==> HeldByMost(n, QuorumIndex(n, top))
    ensures n.commit <= QuorumIndex(n, top)
  {
    if n.commit < top {
      assert Holders(n, top) == set p | p in n.peers && top <= n.peers[p].matched;
      if !Committable(n, top) { QuorumIndexLargest(n, top - 1); }
    }
  }

  /** A reply the leader takes moves its commit index to the largest index held by most, and never back. */
  lemma CommitIsLargest(n: Node, peer: NodeId, reply: AppendReply, now: nat)
    requires n.role == Leader && reply.term == n.term
    ensures var n' := HandleAppendReply(n, peer, reply, now);
      && (forall i: nat :: HeldByMost(n', i) ==> i <= n'.commit)
      && (n.commit < n'.commit ==> HeldByMost(n', n'.commit)) && n.commit <= n'.commit
  {
    hide HeldByMost, QuorumIndex;
    var m := if peer in n.peers then n.(peers := n.peers[peer := Advanced(n.peers[peer], reply)]) else n;
    QuorumIndexLargest(m, |m.log|);
    var n' := HandleAppendReply(n, peer, reply, now);
    forall i: nat ensures HeldByMost(n', i) <==> HeldByMost(m, i) { SameHolders(m, n', i); }
    forall i: nat | HeldByMost(n', i) ensures i <= n'.commit { HeldInLog(n', i); }
  }

  lemma SameHolders(m: Node, n: Node, i: nat)
    requires n.log == m.log && n.term == m.term && n.peers == m.peers
    ensures HeldByMost(n, i) <==> HeldByMost(m, i)
  {
  }

  lemma HeldInLog(n: Node, i: nat)
    requires HeldByMost(n, i)
    ensures i <= |n.log|
  {
  }

  /** Everything held by most is committed. */
  predicate Settled(n: Node)
  {
    forall i :: 1 <= i <= |n.log| && HeldByMost(n, i) ==> i <= n.commit
  }

  // --- One exchange ---

  /** The leader is the same but for its commit index and its view of the peers in `q`. */
  predicate SameLeader(l: Node, l': Node, q: set<NodeId>)
  {
    && l.role == Leader && l'.role == Leader && l'.term == l.term && l'.log == l.log && l'.id == l.id
    && l'.peers.Keys == l.peers.Keys && l.commit <= l'.commit
    && forall w :: w in l.peers && w !in q ==> l'.peers[w] == l.peers[w]
  }

  /** Only the leader `a` and the nodes in `q` have changed. */
  predicate Touched(c: Cluster, c': Cluster, a: NodeId, q: set<NodeId>)
  {
    && c'.nodes.Keys == c.nodes.Keys && a in c.nodes && a !in q && SameLeader(c.nodes[a], c'.nodes[a], q)
    && (forall w :: w in c.nodes && w !in q && w != a ==> c'.nodes[w] == c.nodes[w])
    && (forall p :: p in q ==> p in c.nodes && c'.nodes[p].term <= c.nodes[a].term)
  }

  /** The peer has the leader's log, the leader knows it, and the peer has committed what the leader had before. */
  predicate Caught(l: Node, l': Node, n: Node, p: NodeId)
  {
    p in l'.peers && n.log == l.log && l'.peers[p].matched == |l.log| && Min(l.commit, |l.log|) <= n.commit
  }

  predicate Served(c: Cluster, c': Cluster, a: NodeId, q: set<NodeId>)
  {
    Touched(c, c', a, q) && forall p :: p in q ==> Caught(c.nodes[a], c'.nodes[a], c'.nodes[p], p)
  }

  lemma LeaderAdvances(n: Node, ack: AppendReply, now: nat)
    requires n.role == Leader && ack.term == n.term && ack.responder in n.peers
    ensures var n' := HandleAppendReply(n, ack.responder, ack, now);
      && SameLeader(n, n', {ack.responder}) && Settled(n')
      && n'.peers[ack.responder] == if ack.success then Progress(ack.matchIndex + 1, ack.matchIndex)
         else Progress(if n.peers[ack.responder].next == 1 then 1 else n.peers[ack.responder].next - 1,
                       n.peers[ack.responder].matched)
  {
    hide HandleAppendReply, HeldByMost;
    LeaderAfter(n, ack, now);
    CommitIsLargest(n, ack.responder, ack, now);
    ReplyKeepsId(n, ack, now);
  }

  lemma ReplyKeepsId(n: Node, ack: AppendReply, now: nat)
    ensures HandleAppendReply(n, ack.responder, ack, now).id == n.id
  {
    hide QuorumIndex;
  }

  lemma FollowerCommits(n: Node, req: AppendRequest, now: nat)
    requires n.term <= req.term
    ensures var (n', ack) := HandleAppendRequest(n, req, now);
      && n'.term == req.term
      && (ack.success ==> Min(req.leaderCommit, |n'.log|) <= n'.commit)
  {
    hide AppendLog;
  }

  /** One exchange touches the two nodes only, settles the leader, and either serves the peer or steps back by one. */
  lemma ExchangeServes(c: Cluster, h: History, a: NodeId, p: NodeId, now: nat)
    requires Inv(c, h) && CanExchange(c, a, p)
    ensures var c' := Exchange(c, a, p, now);
      && Touched(c, c', a, {p}) && CanExchange(c', a, p) && Settled(c'.nodes[a])
      && if Answer(c, a, p, now).1.success then Served(c, c', a, {p})
         else 2 <= c.nodes[a].peers[p].next && c'.nodes[a].peers[p].next == c.nodes[a].peers[p].next - 1
  {
    hide Inv, CreateAppend, HandleAppendRequest, HandleAppendReply, Settled, AppendLog, AppendOk, LeaderOk;
    IdFact(c, h, p);
    AppendOkFact(c, h, a, p);
    ExchangeProgress(c, h, a, p, now);
    var req, f, l := Request(c, a, p), c.nodes[p], c.nodes[a];
    CarriesCommit(l, p);
    FollowerAfter(f, req, now);
    FollowerCommits(f, req, now);
    LeaderAdvances(l, Answer(c, a, p, now).1, now);
  }

  lemma CarriesCommit(n: Node, p: NodeId)
    requires n.role == Leader && p in n.peers
    ensures CreateAppend(n, p).Some? && CreateAppend(n, p).value.leaderCommit == n.commit
  {
  }

  function ThreeSteps(c: Cluster, a: NodeId, p: NodeId, now: nat): seq<Step>
    requires CanExchange(c, a, p)
  {
    [SendAppend(a, p), Delivered(c, a, p, now), Answered(c, a, p, now)]
  }

  lemma ExchangeExecutes(c: Cluster, h: History, a: NodeId, p: NodeId, now: nat)
    requires Inv(c, h) && CanExchange(c, a, p)
    ensures AllEnabled(c, ThreeSteps(c, a, p, now)) && Execute(c, ThreeSteps(c, a, p, now)) == Exchange(c, a, p, now)
  {
    hide Inv, Take, Enabled, Exchange, AllEnabled, Execute, CanExchange;
    ExchangeSteps(c, h, a, p, now);
    var x, y, z := SendAppend(a, p), Delivered(c, a, p, now), Answered(c, a, p, now);
    var c1, c2 := Take(c, x), Take(Take(c, x), y);
    ExecuteNone(Take(c2, z));
    ExecuteFirst(c2, z, [], [z]);
    ExecuteFirst(c1, y, [z], [y, z]);
    ExecuteFirst(c, x, [y, z], ThreeSteps(c, a, p, now));
  }

  lemma TouchedServed(c: Cluster, c1: Cluster, c2: Cluster, a: NodeId, p: NodeId)
    requires Touched(c, c1, a, {p}) && Served(c1, c2, a, {p})
    ensures Served(c, c2, a, {p})
  {
  }

  lemma ServedMore(c: Cluster, c1: Cluster, c2: Cluster, a: NodeId, q: set<NodeId>, p: NodeId)
    requires Served(c, c1, a, q) && Served(c1, c2, a, {p}) && p !in q
    ensures Served(c, c2, a, q + {p})
  {
    assert p in {p};
  }

  /** Every step happens at a node of `q`. */
  predicate Within(steps: seq<Step>, q: set<NodeId>)
  {
    forall s :: s in steps ==> s.id in q
  }

  /** Exchanges with one peer that end with it served. */
  lemma {:induction false} ServeOne(members: set<NodeId>, c: Cluster, a: NodeId, p: NodeId, now: nat)
    returns (steps: seq<Step>)
    requires Reachable(members, c) && CanExchange(c, a, p)
    ensures AllEnabled(c, steps) && Within(steps, {a, p})
    ensures var c' := Execute(c, steps);
      Reachable(members, c') && Served(c, c', a, {p}) && Settled(c'.nodes[a])
    decreases c.nodes[a].peers[p].next
  {
    hide Inv, Reachable, Exchange, Settled, Touched, Served, AllEnabled, Execute;
    var h := ReachableInv(members, c);
    var c1 := Exchange(c, a, p, now);
    ExchangeServes(c, h, a, p, now);
    ExchangeExecutes(c, h, a, p, now);
    ExecuteReachable(members, c, ThreeSteps(c, a, p, now));
    steps := ThreeSteps(c, a, p, now);
    if !Answer(c, a, p, now).1.success {
      var more := ServeOne(members, c1, a, p, now);
      ExecuteConcat(c, steps, more);
      TouchedServed(c, c1, Execute(c1, more), a, p);
      steps := steps + more;
    }
  }

  predicate CanServe(c: Cluster, a: NodeId, q: set<NodeId>)
  {
    a in c.nodes && c.nodes[a].role == Leader && forall p :: p in q ==> CanExchange(c, a, p)
  }

  lemma StillCanServe(c: Cluster, c': Cluster, a: NodeId, q: set<NodeId>, p: NodeId)
    requires CanServe(c, a, q + {p}) && Served(c, c', a, q) && p !in q
    ensures CanExchange(c', a, p)
  {
    assert CanExchange(c, a, p);
  }

  /** Exchanges with every node of `q` that end with all of them served. */
  lemma {:induction false} ServeAll(members: set<NodeId>, c: Cluster, a: NodeId, q: set<NodeId>, now: nat)
    returns (steps: seq<Step>)
    requires Reachable(members, c) && CanServe(c, a, q)
    ensures AllEnabled(c, steps) && Within(steps, {a} + q)
    ensures var c' := Execute(c, steps);
      Reachable(members, c') && Served(c, c', a, q) && (q != {} ==> Settled(c'.nodes[a]))
    decreases |q|
  {
    hide Reachable, Settled, Touched, Served, AllEnabled, Execute, CanExchange;
    if q == {} {
      steps := [];
      ExecuteNone(c);
      NoneServed(c, a);
    } else {
      hide CanServe;
      var p :| p in q;
      var rest := q - {p};
      assert rest + {p} == q;
      FewerToServe(c, a, rest, p);
      steps := ServeAll(members, c, a, rest, now);
      var c1 := Execute(c, steps);
      StillCanServe(c, c1, a, rest, p);
      var last := ServeOne(members, c1, a, p, now);
      ExecuteConcat(c, steps, last);
      ServedMore(c, c1, Execute(c1, last), a, rest, p);
      steps := steps + last;
    }
  }

  lemma NoneServed(c: Cluster, a: NodeId)
    requires a in c.nodes && c.nodes[a].role == Leader
    ensures Served(c, c, a, {})
  {
  }

  lemma FewerToServe(c: Cluster, a: NodeId, q: set<NodeId>, p: NodeId)
    requires CanServe(c, a, q + {p})
    ensures CanServe(c, a, q)
  {
  }

  // --- A cluster of one ---

  /** A leader without peers has committed its whole log. */
  predicate Alone(n: Node)
  {
    n.role == Leader && n.peers == map[] ==> n.commit == |n.log|
  }

  predicate AllAlone(c: Cluster)
  {
    forall i :: i in c.nodes ==> Alone(c.nodes[i])
  }

  lemma ProposeAlone(n: Node, command: Command, now: nat)
    requires n.role == Leader
    ensures Alone(Propose(n, command, now).0)
  {
  }

  lemma VotesAlone(n: Node, req: VoteRequest, voter: NodeId, granted: bool, term: nat, now: nat)
    requires Alone(n)
    ensures Alone(HandleVoteRequest(n, req).0) && Alone(StartElection(n).0)
    ensures Alone(RecordVote(n, voter, granted, term, now).0)
  {
    hide Propose;
    ProposeAlone(Promote(n.(votes := n.votes + {voter})), Noop, now);
  }

  lemma AppendsAlone(n: Node, req: AppendRequest, reply: AppendReply, now: nat)
    requires Alone(n)
    ensures Alone(HandleAppendRequest(n, req, now).0) && Alone(HandleAppendReply(n, reply.responder, reply, now))
  {
    hide AppendLog, Matches;
  }

  lemma StepAlone(c: Cluster, s: Step)
    requires AllAlone(c) && Enabled(c, s)
    ensures AllAlone(Take(c, s))
  {
    hide Alone, Propose, HandleVoteRequest, StartElection, RecordVote, HandleAppendRequest, HandleAppendReply;
    hide CreateAppend;
    var n := c.nodes[s.id];
    match s
    case Campaign(_) => VotesAlone(n, VoteRequest(0, "", 0, 0), "", false, 0, 0);
    case ReceiveVoteRequest(_, req) => VotesAlone(n, req, "", false, 0, 0);
    case ReceiveVote(_, vote, now) => VotesAlone(n, VoteRequest(0, "", 0, 0), vote.voter, vote.granted, vote.term, now);
    case ClientPropose(_, command, now) => ProposalAlone(n, command, now);
    case SendAppend(_, _) =>
    case ReceiveAppend(_, append, now) => AppendsAlone(n, append, AppendReply(0, false, 0, ""), now);
    case ReceiveAppendReply(_, ack, now) => AppendsAlone(n, AppendRequest(0, "", 0, 0, [], 0), ack, now);
  }

  lemma ProposalAlone(n: Node, command: Command, now: nat)
    requires Alone(n)
    ensures Alone(Propose(n, command, now).0)
  {
    if n.role == Leader { ProposeAlone(n, command, now); }
  }

  lemma {:induction false} RunAlone(members: set<NodeId>, run: seq<Cluster>, k: nat)
    requires IsRun(members, run) && k < |run|
    ensures AllAlone(run[k])
  {
    hide Take, Enabled, AllAlone;
    if k == 0 {
      StartAlone(members);
    } else {
      RunAlone(members, run, k - 1);
      assert Follows(run[k - 1], run[k - 1 + 1]);
      var s :| Enabled(run[k - 1], s) && Take(run[k - 1], s) == run[k];
      StepAlone(run[k - 1], s);
    }
  }

  lemma StartAlone(members: set<NodeId>)
    ensures AllAlone(Start(members))
  {
  }

  // --- A majority ---

  lemma LedgerFact(h: History, n: Node)
    requires LedgersOk(h) && LeaderOk(n, h)
    ensures n.log != [] && n.log[|n.log| - 1].term == n.term
  {
    hide LogOk, TermsUpTo;
    assert LedgerAt(h, n.term);
  }

  /** A settled leader whose whole log a majority holds has committed it. */
  lemma AllCommitted(members: set<NodeId>, c: Cluster, c': Cluster, a: NodeId, q: set<NodeId>)
    requires Reachable(members, c') && Served(c, c', a, q) && (q != {} ==> Settled(c'.nodes[a]))
    requires Majority(c'.nodes.Keys, q + {a})
    ensures c'.nodes[a].commit == |c'.nodes[a].log|
  {
    hide Inv, Reachable, LeaderOk, LedgersOk, CommitOk, MembersOk;
    var h := ReachableInv(members, c');
    var l := c'.nodes[a];
    LeaderFact(c', h, a);
    LogFact(c', h, a);
    LedgerFact(h, l);
    MembersFact(c', h);
    Electorate(c', a);
    CommitBound(c', h, a);
    assert |q + {a}| == |q| + 1;
    if q == {} {
      ReachableAlone(members, c', a);
    } else {
      Larger(q, Holders(l, |l.log|));
      assert HeldByMost(l, |l.log|);
    }
  }

  lemma CommitBound(c: Cluster, h: History, i: NodeId)
    requires Inv(c, h) && i in c.nodes
    ensures var n := c.nodes[i]; n.applied == n.commit <= |n.log| && Untimed(n.state) == Meaning(n.log[..n.commit])
  {
    hide Inv, CommitBacked;
    CommitFact(c, h, i);
  }

  lemma ReachableAlone(members: set<NodeId>, c: Cluster, a: NodeId)
    requires Reachable(members, c) && a in c.nodes && c.nodes[a].role == Leader && |c.nodes[a].peers| == 0
    ensures c.nodes[a].commit == |c.nodes[a].log|
  {
    var run :| IsRun(members, run) && run[|run| - 1] == c;
    RunAlone(members, run, |run| - 1);
    assert c.nodes[a].peers == map[];
  }

  /** The node has exactly `log`, all of it committed, and its state is what applying `log` means. */
  predicate Applied(n: Node, log: Log)
  {
    n.log == log && n.commit == n.applied == |log| && Untimed(n.state) == Meaning(log)
  }

  lemma AppliedFact(members: set<NodeId>, c: Cluster, i: NodeId, log: Log)
    requires Reachable(members, c) && i in c.nodes && c.nodes[i].log == log && |log| <= c.nodes[i].commit
    ensures Applied(c.nodes[i], log)
  {
    hide Inv, Reachable;
    var h := ReachableInv(members, c);
    CommitBound(c, h, i);
    assert log[..|log|] == log;
  }

  lemma ServedCanServe(c: Cluster, c': Cluster, a: NodeId, q: set<NodeId>)
    requires CanServe(c, a, q) && Served(c, c', a, q)
    ensures CanServe(c', a, q) && c'.nodes[a].role == Leader && c'.nodes[a].term == c.nodes[a].term
    ensures c'.nodes[a].log == c.nodes[a].log && c'.nodes.Keys == c.nodes.Keys
    ensures forall p :: p in q ==> Caught(c.nodes[a], c'.nodes[a], c'.nodes[p], p)
  {
    hide Caught;
    forall p | p in q ensures CanExchange(c', a, p) { assert CanExchange(c, a, p); }
  }

  /**
   * From any reachable state: a leader that can exchange messages with enough peers to make a majority brings its whole
   * log to all of them, by steps at these nodes only. They and the leader then have committed and applied all of it.
   */
  lemma MajorityApplies(members: set<NodeId>, c: Cluster, a: NodeId, q: set<NodeId>, now: nat)
    returns (steps: seq<Step>)
    requires Reachable(members, c) && CanServe(c, a, q) && Majority(c.nodes.Keys, q + {a})
    ensures AllEnabled(c, steps) && Within(steps, q + {a})
    ensures var c' := Execute(c, steps);
      && Reachable(members, c') && c'.nodes.Keys == c.nodes.Keys
      && c'.nodes[a].role == Leader && c'.nodes[a].term == c.nodes[a].term
      && forall v :: v in q + {a} ==> v in c'.nodes && Applied(c'.nodes[v], c.nodes[a].log)
  {
    var log := c.nodes[a].log;
    hide Reachable, Settled, Served, AllEnabled, Execute, CanServe, Applied, Majority;
    steps := ServeAll(members, c, a, q, now);
    var c1 := Execute(c, steps);
    ServedCanServe(c, c1, a, q);
    AllCommitted(members, c, c1, a, q);
    var more := ServeAll(members, c1, a, q, now);
    var c2 := Execute(c1, more);
    ServedCanServe(c1, c2, a, q);
    ExecuteConcat(c, steps, more);
    AllCommitted(members, c1, c2, a, q);
    forall v | v in q + {a} ensures v in c2.nodes && Applied(c2.nodes[v], log) {
      if v in q { CanServeMember(c, a, q, v); }
      AppliedFact(members, c2, v, log);
    }
    steps := steps + more;
  }

  lemma CanServeMember(c: Cluster, a: NodeId, q: set<NodeId>, p: NodeId)
    requires CanServe(c, a, q) && p in q
    ensures p in c.nodes && p != a
  {
    assert CanExchange(c, a, p);
  }

  // --- From an election to an applied command ---

  /** What a proposal at a leader does. */
  lemma Proposed(c: Cluster, a: NodeId, command: Command, now: nat)
    requires a in c.nodes && c.nodes[a].role == Leader
    ensures Enabled(c, ClientPropose(a, command, now))
    ensures var l, c' := c.nodes[a], Take(c, ClientPropose(a, command, now));
      && c'.nodes.Keys == c.nodes.Keys && c'.nodes[a].role == Leader && c'.nodes[a].term == l.term
      && c'.nodes[a].log == l.log + [Entry(|l.log| + 1, l.term, command, now)] && c'.nodes[a].peers == l.peers
      && forall w :: w in c.nodes && w != a ==> c'.nodes[w] == c.nodes[w]
  {
  }

  lemma MajoritySame(ids: set<NodeId>, voters: seq<NodeId>, i: NodeId)
    requires Majority(ids, Ids(voters)) && i in voters
    ensures Majority(ids, (Ids(voters) - {i}) + {i})
  {
    assert (Ids(voters) - {i}) + {i} == Ids(voters);
  }

  lemma VotersCanServe(members: set<NodeId>, c: Cluster, i: NodeId, voters: seq<NodeId>)
    requires Reachable(members, c) && i in c.nodes && c.nodes[i].role == Leader
    requires forall v :: v in voters ==> v in c.nodes && c.nodes[v].term <= c.nodes[i].term
    ensures CanServe(c, i, Ids(voters) - {i})
  {
    hide Inv, Reachable;
    var h := ReachableInv(members, c);
    MembersFact(c, h);
    forall p | p in Ids(voters) - {i} ensures CanExchange(c, i, p) {
      assert p in c.nodes[i].peers.Keys;
    }
  }

  /** A leader takes a command and brings it to a majority. */
  lemma ServeCommand(members: set<NodeId>, c: Cluster, i: NodeId, voters: seq<NodeId>, command: Command, now: nat)
    returns (steps: seq<Step>)
    requires Reachable(members, c) && i in c.nodes && c.nodes[i].role == Leader
    requires i in voters && Majority(c.nodes.Keys, Ids(voters))
    requires forall v :: v in voters ==> v in c.nodes && c.nodes[v].term <= c.nodes[i].term
    ensures AllEnabled(c, steps) && Within(steps, Ids(voters))
    ensures var l, c' := c.nodes[i], Execute(c, steps);
      && Reachable(members, c') && i in c'.nodes && c'.nodes[i].role == Leader && c'.nodes[i].term == l.term
      && forall v :: v in voters ==>
        v in c'.nodes && Applied(c'.nodes[v], l.log + [Entry(|l.log| + 1, l.term, command, now)])
  {
    hide Reachable, AllEnabled, Execute, Majority, Applied, CanServe;
    var q, propose := Ids(voters) - {i}, ClientPropose(i, command, now);
    MajoritySame(c.nodes.Keys, voters, i);
    Proposed(c, i, command, now);
    hide *;
    var c1 := Take(c, propose);
    StepReachable(members, c, propose);
    VotersCanServe(members, c1, i, voters);
    var more := MajorityApplies(members, c1, i, q, now);
    steps := [propose] + more;
    ExecuteFirst(c, propose, more, steps);
    WithinFirst(propose, more, voters, i);
  }

  lemma WithinFirst(s: Step, rest: seq<Step>, voters: seq<NodeId>, i: NodeId)
    requires i in voters && s.id == i && Within(rest, (Ids(voters) - {i}) + {i})
    ensures Within([s] + rest, Ids(voters)) && forall v :: v in voters ==> v in (Ids(voters) - {i}) + {i}
  {
  }

  /**
   * The service theorem. From any reachable state, if a majority has neither a later term nor a later log than
   * `i`, then `i` can stand for election, win, take a command from a client, and bring it to all of that
   * majority: some sequence of enabled steps at these nodes alone leads to a reachable state in which each of
   * them has the log that `i` had, the entry of the election and the command, and has applied all of it.
   */
  lemma CommandApplied(members: set<NodeId>, c: Cluster, i: NodeId, voters: seq<NodeId>, command: Command, now: nat)
    returns (steps: seq<Step>)
    requires Reachable(members, c) && CanWin(c, i, voters)
    ensures AllEnabled(c, steps) && Within(steps, Ids(voters))
    ensures var n, c' := c.nodes[i], Execute(c, steps);
      var log := n.log + [Entry(|n.log| + 1, n.term + 1, Noop, now), Entry(|n.log| + 2, n.term + 1, command, now)];
      && Reachable(members, c') && i in c'.nodes && c'.nodes[i].role == Leader && c'.nodes[i].term == n.term + 1
      && forall v :: v in voters ==> v in c'.nodes && Applied(c'.nodes[v], log)
  {
    CanWinFacts(c, i, voters);
    var n := c.nodes[i];
    hide Reachable, AllEnabled, Execute, CanWin, Majority, Applied, ElectionSteps;
    ElectionWon(members, c, i, voters, now);
    steps := ElectionSteps(c, i, voters, now);
    ElectionWithin(c, i, voters, now);
    var more := ServeCommand(members, Execute(c, steps), i, voters, command, now);
    ExecuteConcat(c, steps, more);
    SameLog(n.log, n.term + 1, command, now);
    steps := steps + more;
  }

  lemma SameLog(log: Log, term: nat, command: Command, now: nat)
    ensures log + [Entry(|log| + 1, term, Noop, now)] +
      [Entry(|log + [Entry(|log| + 1, term, Noop, now)]| + 1, term, command, now)] ==
      log + [Entry(|log| + 1, term, Noop, now), Entry(|log| + 2, term, command, now)]
  {
  }

  lemma ElectionWithin(c: Cluster, i: NodeId, voters: seq<NodeId>, now: nat)
    requires i in c.nodes && i in voters
    ensures Within(ElectionSteps(c, i, voters, now), Ids(voters))
  {
  }
}
