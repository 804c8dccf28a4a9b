/** One Raft coordinator as a value, and each of its handlers as a function from state to state. */
module RaftNode {
  import opened Numbers
  import opened Wrappers
  import opened ClusterMetadata

  type NodeId = string

  datatype Role = Follower | Candidate | Leader

  /** The leader's view of one peer. */
  datatype Progress = Progress(next: Pos, matched: nat)

  datatype Node = Node(
    id: NodeId,
    term: nat,
    votedFor: Option<NodeId>,
    role: Role,
    leaderId: Option<NodeId>,
    log: Log,
    commit: nat,
    applied: nat,
    peers: map<NodeId, Progress>,
    votes: set<NodeId>,
    state: Metadata)

  datatype VoteRequest = VoteRequest(term: nat, candidate: NodeId, lastIndex: nat, lastTerm: nat)

  datatype VoteReply = VoteReply(term: nat, granted: bool, voter: NodeId)

  datatype AppendRequest = AppendRequest(
    term: nat, leader: NodeId, prevIndex: nat, prevTerm: nat, entries: Log, leaderCommit: nat)

  datatype AppendReply = AppendReply(term: nat, success: bool, matchIndex: nat, responder: NodeId)

  function LastTerm(log: Log): nat
  {
    if log == [] then 0 else log[|log| - 1].term
  }

  function Fresh(id: NodeId, members: set<NodeId>): Node
  {
    Node(id, 0, None, Follower, None, [], 0, 0, map p | p in members - {id} :: Progress(1, 0), {}, EMPTY)
  }

  function Quorum(n: Node): nat
  {
    (|n.peers| + 1) / 2 + 1
  }

  /** Adopt a strictly newer term. */
  function Advance(n: Node, term: nat): Node
  {
    n.(term := term, role := Follower, votedFor := None)
  }

  // --- Voting ---

  predicate UpToDate(req: VoteRequest, log: Log)
  {
    LastTerm(log) < req.lastTerm || (req.lastTerm == LastTerm(log) && |log| <= req.lastIndex)
  }

  function HandleVoteRequest(n: Node, req: VoteRequest): (Node, VoteReply)
  {
    var n := if n.term < req.term then Advance(n, req.term).(leaderId := None) else n;
    if n.term <= req.term && (n.votedFor == None || n.votedFor == Some(req.candidate)) && UpToDate(req, n.log) then
      (n.(votedFor := Some(req.candidate)), VoteReply(n.term, true, n.id))
    else
      (n, VoteReply(n.term, false, n.id))
  }

  function StartElection(n: Node): (Node, VoteRequest)
  {
    var n := n.(term := n.term + 1, role := Candidate, votedFor := Some(n.id), leaderId := None, votes := {n.id});
    (n, VoteRequest(n.term, n.id, |n.log|, LastTerm(n.log)))
  }

  /** The fields a winning candidate sets before it appends its Noop. */
  function Promote(n: Node): Node
  {
    n.(role := Leader, leaderId := Some(n.id), peers := map p | p in n.peers :: Progress(|n.log| + 1, 0))
  }

  function RecordVote(n: Node, voter: NodeId, granted: bool, term: nat, now: nat): (Node, bool)
  {
    if n.term < term then (Advance(n, term), false)
    else if n.role != Candidate || term != n.term || !granted then (n, false)
    else
      var n := n.(votes := n.votes + {voter});
      if Quorum(n) <= |n.votes| then (Propose(Promote(n), Noop, now).0, true) else (n, false)
  }

  // --- Leading ---

  function Propose(n: Node, command: Command, now: nat): (Node, Option<nat>)
  {
    if n.role != Leader then (n, None)
    else
      var index := |n.log| + 1;
      var n := n.(log := n.log + [Entry(index, n.term, command, now)]);
      (if n.peers == map[] then CommitTo(n, index, now) else n, Some(index))
  }

  function CreateAppend(n: Node, peer: NodeId): Option<AppendRequest>
  {
    if n.role != Leader || peer !in n.peers then None
    else
      var next := n.peers[peer].next;
      var prevTerm := if 1 < next && next - 1 <= |n.log| then n.log[next - 2].term else 0;
      var entries := if next <= |n.log| then n.log[next - 1..] else [];
      Some(AppendRequest(n.term, n.id, next - 1, prevTerm, entries, n.commit))
  }

  /** The peer's progress after its reply. */
  function Advanced(p: Progress, reply: AppendReply): Progress
  {
    if reply.success then Progress(reply.matchIndex + 1, reply.matchIndex)
    else p.(next := if 2 <= p.next then p.next - 1 else 1)
  }

  /** How many nodes the leader knows to hold index `index`, itself included. */
  function Matches(n: Node, index: nat): nat
  {
    1 + |set p | p in n.peers && index <= n.peers[p].matched|
  }

  predicate Committable(n: Node, index: nat)
    requires 1 <= index <= |n.log|
  {
    n.log[index - 1].term == n.term && Quorum(n) <= Matches(n, index)
  }

  /** The largest committable index in `(n.commit, top]`, or `n.commit` if there is none. */
  function QuorumIndex(n: Node, top: nat): nat
    requires top <= |n.log|
  {
    if top <= n.commit then n.commit
    else if Committable(n, top) then top
    else QuorumIndex(n, top - 1)
  }

  function HandleAppendReply(n: Node, peer: NodeId, reply: AppendReply, now: nat): Node
  {
    if n.term < reply.term then Advance(n, reply.term)
    else if n.role != Leader || reply.term != n.term then n
    else
      var n := if peer in n.peers then n.(peers := n.peers[peer := Advanced(n.peers[peer], reply)]) else n;
      var index := QuorumIndex(n, |n.log|);
      if n.commit < index then CommitTo(n, index, now) else n
  }

  // --- Following ---

  /** Entries are taken in order; a conflicting one discards the log from its index on. */
  function Merge(log: Log, entries: Log): Log
    decreases |entries|
  {
    if entries == [] then log
    else Merge(MergeOne(log, entries[0]), entries[1..])
  }

  function MergeOne(log: Log, e: Entry): Log
  {
    if |log| < e.index then log + [e]
    else if log[e.index - 1].term != e.term then log[..e.index - 1] + [e]
    else log
  }

  /** The log after the consistency check, and whether the check passed. */
  function AppendLog(log: Log, req: AppendRequest): (Log, bool)
  {
    if |log| < req.prevIndex then (log, false)
    else if 0 < req.prevIndex && log[req.prevIndex - 1].term != req.prevTerm then (log[..req.prevIndex - 1], false)
    else (Merge(log, req.entries), true)
  }

  function HandleAppendRequest(n: Node, req: AppendRequest, now: nat): (Node, AppendReply)
  {
    var n := if n.term < req.term then Advance(n, req.term) else n;
    if req.term < n.term then (n, AppendReply(n.term, false, |n.log|, n.id))
    else
      var (log, ok) := AppendLog(n.log, req);
      var n := n.(role := Follower, leaderId := Some(req.leader), log := log);
      var n := if ok && n.commit < req.leaderCommit then CommitTo(n, Min(req.leaderCommit, |log|), now) else n;
      (n, AppendReply(n.term, ok, |n.log|, n.id))
  }

  // --- Applying ---

  /** Set the commit index and apply what it newly covers. */
  function CommitTo(n: Node, index: nat, now: nat): Node
  {
    var bound := Min(index, |n.log|);
    if n.applied < bound then
      n.(commit := index, applied := bound, state := ApplyEntries(n.state, n.log[n.applied..bound], now))
    else
      n.(commit := index)
  }
}
