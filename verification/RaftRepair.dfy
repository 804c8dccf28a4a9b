/** Log repair: exchanging append and reply alone brings a follower's log to the leader's. */
module RaftRepair {
  import opened ClusterMetadata
  import opened RaftNode
  import opened RaftCluster
  import opened RaftInvariant
  import opened RaftFollower
  import opened RaftLeader
  import opened RaftSteps
  import opened RaftSafety

  /** Leader `a` can exchange messages with `p`, which has seen no later term. */
  predicate CanExchange(c: Cluster, a: NodeId, p: NodeId)
  {
    a in c.nodes && p in c.nodes && a != p && c.nodes[a].role == Leader && p in c.nodes[a].peers
    && c.nodes[p].term <= c.nodes[a].term
  }

  function Request(c: Cluster, a: NodeId, p: NodeId): AppendRequest
    requires CanExchange(c, a, p)
  {
    CreateAppend(c.nodes[a], p).value
  }

  function Answer(c: Cluster, a: NodeId, p: NodeId, now: nat): (Node, AppendReply)
    requires CanExchange(c, a, p)
  {
    HandleAppendRequest(c.nodes[p], Request(c, a, p), now)
  }

  /** The leader sends, the follower answers, the leader takes the answer. */
  function Exchange(c: Cluster, a: NodeId, p: NodeId, now: nat): Cluster
    requires CanExchange(c, a, p)
  {
    var ack := Answer(c, a, p, now).1;
    var sent := {AppendRequested(p, Request(c, a, p)), AppendReplied(Request(c, a, p).leader, ack)};
    var nodes := c.nodes[p := Answer(c, a, p, now).0];
    Cluster(nodes[a := HandleAppendReply(c.nodes[a], ack.responder, ack, now)], c.net + sent)
  }

  function Delivered(c: Cluster, a: NodeId, p: NodeId, now: nat): Step
    requires CanExchange(c, a, p)
  {
    ReceiveAppend(p, Request(c, a, p), now)
  }

  function Answered(c: Cluster, a: NodeId, p: NodeId, now: nat): Step
    requires CanExchange(c, a, p)
  {
    ReceiveAppendReply(a, Answer(c, a, p, now).1, now)
  }

  /** An exchange is three steps of the cluster: sending the request, delivering it, and delivering the reply. */
  lemma ExchangeSteps(c: Cluster, h: History, a: NodeId, p: NodeId, now: nat)
    requires Inv(c, h) && CanExchange(c, a, p)
    ensures var send, deliver, reply := SendAppend(a, p), Delivered(c, a, p, now), Answered(c, a, p, now);
      && Enabled(c, send) && Enabled(Take(c, send), deliver) && Enabled(Take(Take(c, send), deliver), reply)
      && Take(Take(Take(c, send), deliver), reply) == Exchange(c, a, p, now)
  {
    hide Inv, CreateAppend, HandleAppendRequest, HandleAppendReply;
    IdFact(c, h, a);
    var req := Request(c, a, p);
    LeaderIdFact(c.nodes[a], p);
    var c1 := Take(c, SendAppend(a, p));
    assert c1.nodes == c.nodes;
    var ack := Answer(c, a, p, now).1;
    var c2 := Take(c1, Delivered(c, a, p, now));
    assert c2.nodes[a] == c.nodes[a] && req.leader == a;
    var sent := {AppendRequested(p, req), AppendReplied(a, ack)};
    assert c.net + {AppendRequested(p, req)} + {AppendReplied(a, ack)} + {} == c.net + sent;
  }

  /** A step from a reachable state leads to a reachable state. */
  lemma StepReachable(members: set<NodeId>, c: Cluster, s: Step)
    requires Reachable(members, c) && Enabled(c, s)
    ensures Reachable(members, Take(c, s))
  {
    hide Take, Start;
    var run :| IsRun(members, run) && run[|run| - 1] == c;
    var longer := run + [Take(c, s)];
    forall i | 0 <= i < |longer| - 1 ensures Follows(longer[i], longer[i + 1]) {
      if i < |run| - 1 { assert Follows(run[i], run[i + 1]); }
    }
    assert IsRun(members, longer) && longer[|longer| - 1] == Take(c, s);
  }

  lemma ExchangeReachable(members: set<NodeId>, c: Cluster, a: NodeId, p: NodeId, now: nat)
    requires Reachable(members, c) && CanExchange(c, a, p)
    ensures Reachable(members, Exchange(c, a, p, now))
  {
    hide Inv, Reachable, Exchange, Take, CanExchange, Enabled;
    var h := ReachableInv(members, c);
    ExchangeSteps(c, h, a, p, now);
    var c1 := Take(c, SendAppend(a, p));
    StepReachable(members, c, SendAppend(a, p));
    StepReachable(members, c1, Delivered(c, a, p, now));
    StepReachable(members, Take(c1, Delivered(c, a, p, now)), Answered(c, a, p, now));
  }

  lemma IdFact(c: Cluster, h: History, a: NodeId)
    requires Inv(c, h) && a in c.nodes
    ensures c.nodes[a].id == a
  {
    hide Chosen, VotesOk, ElectedOk, AcksOk, NetOk, RolesOk, LedgersOk, LogsOk, CommitsOk;
  }

  lemma LeaderIdFact(n: Node, peer: NodeId)
    requires n.role == Leader && peer in n.peers
    ensures CreateAppend(n, peer).Some? && CreateAppend(n, peer).value.leader == n.id
  {
  }

  /** What the leader keeps in an exchange, and how its view of the peer moves. */
  lemma LeaderAfter(n: Node, ack: AppendReply, now: nat)
    requires n.role == Leader && ack.term == n.term && ack.responder in n.peers
    ensures var n' := HandleAppendReply(n, ack.responder, ack, now);
      && n'.role == Leader && n'.term == n.term && n'.log == n.log
      && n'.peers == n.peers[ack.responder := Advanced(n.peers[ack.responder], ack)]
  {
    hide QuorumIndex;
  }

  lemma FollowerAfter(n: Node, req: AppendRequest, now: nat)
    requires n.term <= req.term
    ensures var (n', ack) := HandleAppendRequest(n, req, now); var (log, ok) := AppendLog(n.log, req);
      n'.log == log && n'.term == req.term && ack == AppendReply(req.term, ok, |log|, n.id)
  {
    hide AppendLog;
  }

  lemma TermsKeep(log: Log, t: nat, t': nat)
    requires TermsUpTo(log, t) && t <= t'
    ensures TermsUpTo(log, t')
  {
  }

  lemma AppendOkFact(c: Cluster, h: History, a: NodeId, p: NodeId)
    requires Inv(c, h) && CanExchange(c, a, p)
    ensures CreateAppend(c.nodes[a], p).Some? && AppendOk(c.nodes.Keys, h, p, Request(c, a, p)) &&
      LeaderOk(c.nodes[a], h)
    ensures Request(c, a, p).term == c.nodes[a].term && Request(c, a, p).prevIndex == c.nodes[a].peers[p].next - 1
    ensures Request(c, a, p).prevIndex + |Request(c, a, p).entries| == |c.nodes[a].log|
  {
    hide Chosen, VotesOk, ElectedOk, AcksOk, NetOk, LedgersOk, LogsOk, CommitsOk, RolesOk, AppendOk, CreateAppend;
    CreatedOk(c, h, a, p);
    LeaderFact(c, h, a);
    CreatedShape(c.nodes[a], p);
  }

  /** One exchange either repairs the log completely or moves the leader's guess one position back. */
  lemma ExchangeProgress(c: Cluster, h: History, a: NodeId, p: NodeId, now: nat)
    requires Inv(c, h) && CanExchange(c, a, p)
    ensures var c' := Exchange(c, a, p, now); var l, l' := c.nodes[a], c'.nodes[a];
      && CanExchange(c', a, p) && l'.term == l.term && l'.log == l.log
      && if Answer(c, a, p, now).1.success then c'.nodes[p].log == l.log && l'.peers[p].matched == |l.log|
         else 2 <= l.peers[p].next && l'.peers[p].next == l.peers[p].next - 1
  {
    hide Inv, CreateAppend, HandleAppendRequest, HandleAppendReply, LedgersOk, AppendOk, LogOk, TermsUpTo;
    var req, f := Request(c, a, p), c.nodes[p];
    IdFact(c, h, p);
    AppendOkFact(c, h, a, p);
    FollowerAfter(f, req, now);
    LeaderAfter(c.nodes[a], Answer(c, a, p, now).1, now);
    if AppendLog(f.log, req).1 {
      LogFact(c, h, p);
      TermsKeep(f.log, f.term, req.term);
      WholeLogMatches(h, f.log, c.nodes.Keys, p, req);
      assert AppendLog(f.log, req).0 == c.nodes[a].log;
    }
  }

  function Exchanges(c: Cluster, a: NodeId, p: NodeId, now: nat, n: nat): Cluster
    decreases n
  {
    if n == 0 || !CanExchange(c, a, p) then c else Exchanges(Exchange(c, a, p, now), a, p, now, n - 1)
  }

  /**
   * Log repair terminates and converges. From any reachable state, after at most `next` exchanges, that is after
   * at most `next - 1` rejections, the cluster is in a reachable state in which the follower's log equals the leader's.
   */
  lemma {:induction false} RepairConverges(members: set<NodeId>, c: Cluster, a: NodeId, p: NodeId, now: nat)
    returns (n: nat)
    requires Reachable(members, c) && CanExchange(c, a, p)
    ensures 1 <= n <= c.nodes[a].peers[p].next && Reachable(members, Exchanges(c, a, p, now, n))
    ensures var c' := Exchanges(c, a, p, now, n);
      && a in c'.nodes && p in c'.nodes && p in c'.nodes[a].peers && c'.nodes[a].role == Leader
      && c'.nodes[a].term == c.nodes[a].term && c'.nodes[a].log == c.nodes[a].log
      && c'.nodes[p].log == c.nodes[a].log && c'.nodes[a].peers[p].matched == |c.nodes[a].log|
    decreases c.nodes[a].peers[p].next
  {
    hide Inv, Reachable, Exchange, HandleAppendRequest, CreateAppend;
    var h := ReachableInv(members, c);
    var c1 := Exchange(c, a, p, now);
    ExchangeReachable(members, c, a, p, now);
    ExchangeProgress(c, h, a, p, now);
    if Answer(c, a, p, now).1.success {
      n := 1;
      assert Exchanges(c1, a, p, now, 0) == c1;
    } else {
      n := RepairConverges(members, c1, a, p, now);
      n := n + 1;
    }
  }
}
