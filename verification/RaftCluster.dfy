/**
 * A cluster of coordinators with one fixed, shared member list.
 *
 * Every handler runs as one atomic step. The network is the set of all messages ever sent: a message
 * may be delivered any number of times, at any later moment, in any order, or never.
 */
module RaftCluster {
  import opened ClusterMetadata
  import opened RaftNode

  datatype Message =
    | VoteRequested(req: VoteRequest)                    // sent to every member
    | VoteReplied(dest: NodeId, vote: VoteReply)         // back to the requester only
    | AppendRequested(dest: NodeId, append: AppendRequest)
    | AppendReplied(dest: NodeId, ack: AppendReply)      // back to the requester only

  datatype Cluster = Cluster(nodes: map<NodeId, Node>, net: set<Message>)

  datatype Step =
    | Campaign(id: NodeId)
    | ReceiveVoteRequest(id: NodeId, req: VoteRequest)
    | ReceiveVote(id: NodeId, vote: VoteReply, now: nat)
    | ClientPropose(id: NodeId, command: Command, now: nat)
    | SendAppend(id: NodeId, peer: NodeId)
    | ReceiveAppend(id: NodeId, append: AppendRequest, now: nat)
    | ReceiveAppendReply(id: NodeId, ack: AppendReply, now: nat)

  function Start(members: set<NodeId>): Cluster
  {
    Cluster(map id | id in members :: Fresh(id, members), {})
  }

  /** A step can happen at a member, and a delivery needs its message to have been sent. */
  predicate Enabled(c: Cluster, s: Step)
  {
    && s.id in c.nodes
    && match s
       case Campaign(_) => true
       case ReceiveVoteRequest(_, req) => VoteRequested(req) in c.net
       case ReceiveVote(id, vote, _) => VoteReplied(id, vote) in c.net
       case ClientPropose(_, _, _) => true
       case SendAppend(_, _) => true
       case ReceiveAppend(id, append, _) => AppendRequested(id, append) in c.net
       case ReceiveAppendReply(id, ack, _) => AppendReplied(id, ack) in c.net
  }

  function Update(c: Cluster, id: NodeId, n: Node, sent: set<Message>): Cluster
  {
    Cluster(c.nodes[id := n], c.net + sent)
  }

  function Take(c: Cluster, s: Step): Cluster
    requires Enabled(c, s)
  {
    var n := c.nodes[s.id];
    match s
    case Campaign(id) =>
      var (n', req) := StartElection(n);
      Update(c, id, n', {VoteRequested(req)})
    case ReceiveVoteRequest(id, req) =>
      var (n', vote) := HandleVoteRequest(n, req);
      Update(c, id, n', {VoteReplied(req.candidate, vote)})
    case ReceiveVote(id, vote, now) =>
      Update(c, id, RecordVote(n, vote.voter, vote.granted, vote.term, now).0, {})
    case ClientPropose(id, command, now) =>
      Update(c, id, Propose(n, command, now).0, {})
    case SendAppend(id, peer) =>
      var req := CreateAppend(n, peer);
      Update(c, id, n, if req.Some? then {AppendRequested(peer, req.value)} else {})
    case ReceiveAppend(id, append, now) =>
      var (n', ack) := HandleAppendRequest(n, append, now);
      Update(c, id, n', {AppendReplied(append.leader, ack)})
    case ReceiveAppendReply(id, ack, now) =>
      Update(c, id, HandleAppendReply(n, ack.responder, ack, now), {})
  }

  /** A run from the start: every state follows from the one before by an enabled step. */
  ghost predicate IsRun(members: set<NodeId>, run: seq<Cluster>)
  {
    && 0 < |run|
    && run[0] == Start(members)
    && forall i :: 0 <= i < |run| - 1 ==> Follows(run[i], run[i + 1])
  }

  ghost predicate Follows(c: Cluster, c': Cluster)
  {
    exists s :: Enabled(c, s) && Take(c, s) == c'
  }

  ghost predicate Reachable(members: set<NodeId>, c: Cluster)
  {
    exists run :: IsRun(members, run) && run[|run| - 1] == c
  }
}
