/** What a majority can achieve: votes are granted, elections won, and entries committed and applied. */
module RaftProgress {
  import opened Wrappers
  import opened ClusterMetadata
  import opened RaftNode
  import opened RaftCluster
  import opened RaftInvariant
  import opened RaftSafety
  import opened RaftRepair

  // --- Sequences of steps ---

  predicate AllEnabled(c: Cluster, steps: seq<Step>)
    decreases |steps|
  {
    steps == [] || (Enabled(c, steps[0]) && AllEnabled(Take(c, steps[0]), steps[1..]))
  }

  function Execute(c: Cluster, steps: seq<Step>): Cluster
    requires AllEnabled(c, steps)
    decreases |steps|
  {
    if steps == [] then c else Execute(Take(c, steps[0]), steps[1..])
  }

  lemma {:induction false} ExecuteReachable(members: set<NodeId>, c: Cluster, steps: seq<Step>)
    requires Reachable(members, c) && AllEnabled(c, steps)
    ensures Reachable(members, Execute(c, steps))
    decreases |steps|
  {
    hide Take, Enabled, Reachable;
    if steps != [] {
      StepReachable(members, c, steps[0]);
      ExecuteReachable(members, Take(c, steps[0]), steps[1..]);
    }
  }

  lemma {:induction false} ExecuteConcat(c: Cluster, a: seq<Step>, b: seq<Step>)
    requires AllEnabled(c, a) && AllEnabled(Execute(c, a), b)
    ensures AllEnabled(c, a + b) && Execute(c, a + b) == Execute(Execute(c, a), b)
    decreases |a|
  {
    hide Take, Enabled;
    if a == [] {
      assert a + b == b;
    } else {
      ExecuteConcat(Take(c, a[0]), a[1..], b);
      assert (a + b)[0] == a[0] && (a + b)[1..] == a[1..] + b;
    }
  }

  lemma ExecuteFirst(c: Cluster, s: Step, rest: seq<Step>, steps: seq<Step>)
    requires Enabled(c, s) && AllEnabled(Take(c, s), rest) && steps == [s] + rest
    ensures AllEnabled(c, steps) && Execute(c, steps) == Execute(Take(c, s), rest)
  {
    hide Enabled, Take;
    assert steps[1..] == rest;
  }

  lemma ExecuteNone(c: Cluster)
    ensures AllEnabled(c, []) && Execute(c, []) == c
  {
  }

  // --- Votes ---

  /** The order on logs that elections go by: first the last entry's term, then the length. */
  predicate LogAtMost(log: Log, lastTerm: nat, length: nat)
  {
    LastTerm(log) < lastTerm || (LastTerm(log) == lastTerm && |log| <= length)
  }

  /** The node has not yet decided against the candidate in its term. */
  predicate Undecided(n: Node, req: VoteRequest)
  {
    n.term < req.term || (n.term == req.term && (n.votedFor == None || n.votedFor == Some(req.candidate)))
  }

  /** A vote is granted exactly to a candidate of the latest term whose log is not behind, unless it went to another. */
  lemma GrantsIff(n: Node, req: VoteRequest)
    ensures var (n', vote) := HandleVoteRequest(n, req);
      && (vote.granted <==> Undecided(n, req) && LogAtMost(n.log, req.lastTerm, req.lastIndex))
      && vote.term == n'.term == (if n.term < req.term then req.term else n.term) && vote.voter == n.id
      && n'.votedFor == (if vote.granted then Some(req.candidate) else if n.term < req.term then None else n.votedFor)
      && (n.term < req.term ==> n'.role == Follower && n'.leaderId == None)
      && (req.term <= n.term ==> n'.role == n.role && n'.leaderId == n.leaderId)
      && n'.(term := n.term, votedFor := n.votedFor, role := n.role, leaderId := n.leaderId) == n
  {
  }

  /** The follower's log has the entry that the request builds on. */
  predicate Fits(log: Log, req: AppendRequest)
  {
    req.prevIndex == 0 || (req.prevIndex <= |log| && log[req.prevIndex - 1].term == req.prevTerm)
  }

  /** Entries of an old term are refused without effect; others make the node a follower and are taken if they fit. */
  lemma AppendAnswers(n: Node, req: AppendRequest, now: nat)
    ensures var (n', ack) := HandleAppendRequest(n, req, now);
      && ack.responder == n.id && ack.matchIndex == |n'.log| && ack.term == n'.term
      && (ack.success <==> n.term <= req.term && Fits(n.log, req))
      && (req.term < n.term ==> n' == n)
      && (n.term <= req.term ==> n'.term == req.term && n'.role == Follower && n'.leaderId == Some(req.leader))
      && (n.term < req.term ==> n'.votedFor == None) && (n.term == req.term ==> n'.votedFor == n.votedFor)
      && (n.term <= req.term && !Fits(n.log, req) ==>
           n'.log == (if |n.log| < req.prevIndex then n.log else n.log[..req.prevIndex - 1]) && n'.commit == n.commit)
  {
    hide Merge, ApplyEntries;
  }

  /** The entries follow on position `prev`. */
  predicate FollowsOn(entries: Log, prev: nat)
  {
    forall i :: 0 <= i < |entries| ==> entries[i].index == prev + 1 + i
  }

  /** The first `j` entries are in the log already, as far as their terms tell. */
  predicate Present(log: Log, entries: Log, prev: nat, j: nat)
  {
    j <= |entries| && prev + j <= |log| && forall i :: 0 <= i < j ==> log[prev + i].term == entries[i].term
  }

  /** Entries that are all present leave the log as it is. */
  lemma {:induction false} MergePresent(log: Log, entries: Log, prev: nat)
    requires FollowsOn(entries, prev) && Present(log, entries, prev, |entries|)
    ensures Merge(log, entries) == log
    decreases |entries|
  {
    hide MergeOne;
    if entries != [] {
      PresentRest(log, entries, prev, |entries|);
      MergePresent(log, entries[1..], prev + 1);
    }
  }

  /** Entries past the end of the log are appended. */
  lemma {:induction false} MergePast(log: Log, entries: Log)
    requires FollowsOn(entries, |log|)
    ensures Merge(log, entries) == log + entries
    decreases |entries|
  {
    if entries != [] {
      assert entries == [entries[0]] + entries[1..];
      MergePast(log + [entries[0]], entries[1..]);
    }
  }

  /** The first entry that is missing or of another term replaces the log from its position on, with all that follow. */
  lemma {:induction false} MergeConflict(log: Log, entries: Log, prev: nat, j: nat)
    requires FollowsOn(entries, prev) && Present(log, entries, prev, j) && j < |entries|
    requires prev + j == |log| || log[prev + j].term != entries[j].term
    ensures Merge(log, entries) == log[..prev + j] + entries[j..]
    decreases |entries|
  {
    if j == 0 {
      MergeReplaces(log, entries, prev);
      assert entries[0..] == entries;
    } else {
      hide MergeOne;
      var rest := entries[1..];
      PresentRest(log, entries, prev, j);
      MergeConflict(log, rest, prev + 1, j - 1);
      assert entries[j..] == rest[j - 1..];
    }
  }

  lemma PresentRest(log: Log, entries: Log, prev: nat, j: nat)
    requires FollowsOn(entries, prev) && Present(log, entries, prev, j) && 0 < j
    ensures FollowsOn(entries[1..], prev + 1) && Present(log, entries[1..], prev + 1, j - 1)
    ensures MergeOne(log, entries[0]) == log
  {
    var rest := entries[1..];
    forall i | 0 <= i < j - 1 ensures log[prev + 1 + i].term == rest[i].term {
      assert rest[i] == entries[i + 1] && log[prev + (i + 1)].term == entries[i + 1].term;
    }
  }

  lemma MergeReplaces(log: Log, entries: Log, prev: nat)
    requires FollowsOn(entries, prev) && entries != [] && prev <= |log|
    requires prev == |log| || log[prev].term != entries[0].term
    ensures Merge(log, entries) == log[..prev] + entries
  {
    var first, rest := entries[0], entries[1..];
    OneReplaces(log, first, prev);
    hide MergeOne;
    MergePast(log[..prev] + [first], rest);
    assert entries == [first] + rest;
    assert log[..prev] + ([first] + rest) == log[..prev] + [first] + rest;
  }

  lemma OneReplaces(log: Log, e: Entry, prev: nat)
    requires e.index == prev + 1 && prev <= |log| && (prev == |log| || log[prev].term != e.term)
    ensures MergeOne(log, e) == log[..prev] + [e]
  {
  }

  /** A vote or a reply from a newer term makes any node a follower of it; what is out of date or refused is ignored. */
  lemma StepsDown(n: Node, voter: NodeId, granted: bool, term: nat, peer: NodeId, reply: AppendReply, now: nat)
    ensures n.term < term ==>
      RecordVote(n, voter, granted, term, now) == (n.(term := term, role := Follower, votedFor := None), false)
    ensures term < n.term || (term == n.term && (!granted || n.role != Candidate)) ==>
      RecordVote(n, voter, granted, term, now) == (n, false)
    ensures n.term < reply.term ==>
      HandleAppendReply(n, peer, reply, now) == n.(term := reply.term, role := Follower, votedFor := None)
    ensures reply.term < n.term || (reply.term == n.term && n.role != Leader) ==>
      HandleAppendReply(n, peer, reply, now) == n
  {
    hide QuorumIndex, Propose;
  }

  /** Only a leader takes a proposal, and answers with the index after its log. */
  lemma ProposeAnswers(n: Node, command: Command, now: nat)
    ensures var (n', index) := Propose(n, command, now);
      if n.role == Leader then
        && index == Some(|n.log| + 1) && n'.log == n.log + [Entry(|n.log| + 1, n.term, command, now)]
        && n'.commit == if n.peers == map[] then |n'.log| else n.commit
      else n' == n && index == None
  {
    hide ApplyEntries;
  }

  lemma GrantsAgain(n: Node, req: VoteRequest)
    requires Undecided(n, req) && LogAtMost(n.log, req.lastTerm, req.lastIndex)
    ensures var n' := HandleVoteRequest(n, req).0;
      && Undecided(n', req) && LogAtMost(n'.log, req.lastTerm, req.lastIndex) && n'.id == n.id && n'.term == req.term
      && (n.term == req.term && n.votedFor == Some(req.candidate) ==> n' == n)
  {
  }

  function Granted(term: nat, voter: NodeId): VoteReply
  {
    VoteReply(term, true, voter)
  }

  /** All of `voters` are ready to grant `req`. */
  predicate Ready(c: Cluster, req: VoteRequest, voters: seq<NodeId>)
  {
    forall v :: v in voters ==>
      && v in c.nodes && c.nodes[v].id == v && Undecided(c.nodes[v], req)
      && LogAtMost(c.nodes[v].log, req.lastTerm, req.lastIndex)
  }

  function Requests(req: VoteRequest, voters: seq<NodeId>): (steps: seq<Step>)
    ensures |steps| == |voters|
  {
    seq(|voters|, k requires 0 <= k < |voters| => ReceiveVoteRequest(voters[k], req))
  }

  function Replies(i: NodeId, term: nat, voters: seq<NodeId>, now: nat): (steps: seq<Step>)
    ensures |steps| == |voters|
  {
    seq(|voters|, k requires 0 <= k < |voters| => ReceiveVote(i, Granted(term, voters[k]), now))
  }

  /** Delivering one request that is granted. */
  lemma OneRequest(c: Cluster, req: VoteRequest, v: NodeId, voters: seq<NodeId>)
    requires VoteRequested(req) in c.net && Ready(c, req, [v] + voters) && req.candidate in c.nodes
    requires c.nodes[req.candidate].term == req.term && c.nodes[req.candidate].votedFor == Some(req.candidate)
    ensures Enabled(c, ReceiveVoteRequest(v, req))
    ensures var c' := Take(c, ReceiveVoteRequest(v, req));
      && c'.nodes.Keys == c.nodes.Keys && c'.nodes[req.candidate] == c.nodes[req.candidate]
      && c.net <= c'.net && VoteReplied(req.candidate, Granted(req.term, v)) in c'.net
      && Ready(c', req, voters) && v in c.nodes && c'.nodes[v].term == req.term
      && (forall w :: w in c.nodes && w != v ==> c'.nodes[w] == c.nodes[w])
  {
    hide HandleVoteRequest, Undecided, LogAtMost;
    assert v in [v] + voters;
    forall w | w in voters ensures w in [v] + voters { }
    GrantsIff(c.nodes[v], req);
    GrantsAgain(c.nodes[v], req);
  }

  /** All that the requests change: their receivers are in the candidate's term, and their votes are under way. */
  predicate Polled(c: Cluster, c': Cluster, req: VoteRequest, voters: seq<NodeId>)
  {
    && c'.nodes.Keys == c.nodes.Keys && req.candidate in c.nodes && c'.nodes[req.candidate] == c.nodes[req.candidate]
    && c.net <= c'.net
    && (forall v :: v in voters ==> VoteReplied(req.candidate, Granted(req.term, v)) in c'.net)
    && (forall v :: v in voters && v in c.nodes ==> c'.nodes[v].term == req.term)
    && (forall v :: v in c.nodes && c.nodes[v].term == req.term ==> c'.nodes[v].term == req.term)
  }

  lemma PolledMore(c: Cluster, c1: Cluster, c2: Cluster, req: VoteRequest, v: NodeId, rest: seq<NodeId>)
    requires Polled(c, c1, req, [v]) && Polled(c1, c2, req, rest)
    ensures Polled(c, c2, req, [v] + rest)
  {
    assert v in [v];
    assert forall w :: w in [v] + rest ==> w == v || w in rest;
  }

  lemma {:induction false} RequestsGranted(c: Cluster, req: VoteRequest, voters: seq<NodeId>)
    requires VoteRequested(req) in c.net && Ready(c, req, voters) && req.candidate in c.nodes
    requires c.nodes[req.candidate].term == req.term && c.nodes[req.candidate].votedFor == Some(req.candidate)
    ensures AllEnabled(c, Requests(req, voters)) && Polled(c, Execute(c, Requests(req, voters)), req, voters)
    decreases |voters|
  {
    hide AllEnabled, Execute;
    if voters == [] {
      ExecuteNone(c);
      assert Requests(req, voters) == [];
    } else {
      hide Take, Enabled, Ready, Polled;
      var v, rest := voters[0], voters[1..];
      assert voters == [v] + rest;
      OneRequest(c, req, v, rest);
      var c1 := Take(c, ReceiveVoteRequest(v, req));
      OnePolled(c, c1, req, v);
      RequestsGranted(c1, req, rest);
      assert Requests(req, voters) == [ReceiveVoteRequest(v, req)] + Requests(req, rest);
      ExecuteFirst(c, ReceiveVoteRequest(v, req), Requests(req, rest), Requests(req, voters));
      PolledMore(c, c1, Execute(c1, Requests(req, rest)), req, v, rest);
    }
  }

  lemma OnePolled(c: Cluster, c': Cluster, req: VoteRequest, v: NodeId)
    requires c'.nodes.Keys == c.nodes.Keys && req.candidate in c.nodes && v in c.nodes && c.net <= c'.net
    requires c'.nodes[req.candidate] == c.nodes[req.candidate] && c'.nodes[v].term == req.term
    requires VoteReplied(req.candidate, Granted(req.term, v)) in c'.net
    requires forall w :: w in c.nodes && w != v ==> c'.nodes[w] == c.nodes[w]
    ensures Polled(c, c', req, [v])
  {
  }

  /** What counting a granted vote does to a candidate of that term. */
  lemma OneReply(n: Node, voter: NodeId, now: nat)
    requires n.role == Candidate
    ensures var n' := RecordVote(n, voter, true, n.term, now).0;
      && n'.term == n.term && n'.peers.Keys == n.peers.Keys && n'.id == n.id
      && if |n.peers| + 1 < 2 * |n.votes + {voter}| then Won(n, n', now)
         else n' == n.(votes := n.votes + {voter})
  {
  }

  /** A winner leads with what it had and one entry of its own term, which is the next it will send to every peer. */
  predicate Won(n: Node, n': Node, now: nat)
  {
    && n'.role == Leader && n'.leaderId == Some(n.id) && n'.votedFor == n.votedFor
    && n'.log == n.log + [Entry(|n.log| + 1, n.term, Noop, now)]
    && n'.peers.Keys == n.peers.Keys && forall p :: p in n'.peers ==> n'.peers[p] == Progress(|n'.log|, 0)
  }

  predicate Standing(n: Node, term: nat)
  {
    n.term == term && n.role != Follower
  }

  /** The candidate `n` has counted `voters` and become `n'`: it leads, or it has their votes and they are too few. */
  predicate Counted(n: Node, n': Node, voters: seq<NodeId>, now: nat)
  {
    && n'.term == n.term && n'.peers.Keys == n.peers.Keys && n'.id == n.id
    && if n.role == Leader then n' == n
       else
         || Won(n, n', now)
         || (n' == n.(votes := n.votes + Ids(voters)) && (voters != [] ==> 2 * |n'.votes| <= |n.peers| + 1))
  }

  function Ids(voters: seq<NodeId>): set<NodeId>
  {
    set v | v in voters
  }

  lemma CountedMore(n: Node, n1: Node, n2: Node, v: NodeId, rest: seq<NodeId>, now: nat)
    requires n.role != Follower && Counted(n, n1, [v], now) && Counted(n1, n2, rest, now)
    ensures Counted(n, n2, [v] + rest, now)
  {
    if n.role == Candidate && n1.role == Candidate && n2.role == Candidate {
      assert Ids([v] + rest) == Ids([v]) + Ids(rest);
      assert n.votes + Ids([v]) + Ids(rest) == n.votes + (Ids([v]) + Ids(rest));
      if rest == [] { assert n2.votes == n1.votes; }
    }
  }

  lemma OneCounted(n: Node, v: NodeId, now: nat)
    requires n.role != Follower
    ensures Counted(n, RecordVote(n, v, true, n.term, now).0, [v], now)
  {
    assert Ids([v]) == {v};
    if n.role == Candidate { OneReply(n, v, now); }
  }

  lemma {:induction false} RepliesCounted(c: Cluster, i: NodeId, term: nat, voters: seq<NodeId>, now: nat)
    requires i in c.nodes && Standing(c.nodes[i], term)
    requires forall v :: v in voters ==> VoteReplied(i, Granted(term, v)) in c.net
    ensures AllEnabled(c, Replies(i, term, voters, now))
    ensures var c' := Execute(c, Replies(i, term, voters, now));
      && c'.nodes.Keys == c.nodes.Keys && Counted(c.nodes[i], c'.nodes[i], voters, now)
      && (forall w :: w in c.nodes && w != i ==> c'.nodes[w] == c.nodes[w])
    decreases |voters|
  {
    hide RecordVote, Counted, AllEnabled, Execute;
    if voters == [] {
      NoneCounted(c.nodes[i], now);
      ExecuteNone(c);
      assert Replies(i, term, voters, now) == [];
    } else {
      var v, rest := voters[0], voters[1..];
      assert voters == [v] + rest && v in voters;
      hide Take, Enabled;
      var step := ReceiveVote(i, Granted(term, v), now);
      var c1 := Take(c, step);
      OneReceived(c, i, v, now);
      RepliesCounted(c1, i, term, rest, now);
      assert Replies(i, term, voters, now) == [step] + Replies(i, term, rest, now);
      ExecuteFirst(c, step, Replies(i, term, rest, now), Replies(i, term, voters, now));
      CountedMore(c.nodes[i], c1.nodes[i], Execute(c1, Replies(i, term, rest, now)).nodes[i], v, rest, now);
    }
  }

  lemma OneReceived(c: Cluster, i: NodeId, v: NodeId, now: nat)
    requires i in c.nodes && c.nodes[i].role != Follower && VoteReplied(i, Granted(c.nodes[i].term, v)) in c.net
    ensures var step := ReceiveVote(i, Granted(c.nodes[i].term, v), now);
      && Enabled(c, step)
      && var c' := Take(c, step);
         && c'.nodes.Keys == c.nodes.Keys && c'.net == c.net && Standing(c'.nodes[i], c.nodes[i].term)
         && Counted(c.nodes[i], c'.nodes[i], [v], now)
         && forall w :: w in c.nodes && w != i ==> c'.nodes[w] == c.nodes[w]
  {
    hide RecordVote, Counted;
    OneCounted(c.nodes[i], v, now);
    StillStanding(c.nodes[i], RecordVote(c.nodes[i], v, true, c.nodes[i].term, now).0, [v], now);
    assert c.net + {} == c.net;
  }

  lemma NoneCounted(n: Node, now: nat)
    requires n.role != Follower
    ensures Counted(n, n, [], now)
  {
    assert n.votes + Ids([]) == n.votes;
  }

  lemma StillStanding(n: Node, n': Node, voters: seq<NodeId>, now: nat)
    requires n.role != Follower && Counted(n, n', voters, now)
    ensures Standing(n', n.term)
  {
  }

  // --- Elections ---

  /** Every one of `voters` has no later term and no later log than `i`. */
  predicate CanWin(c: Cluster, i: NodeId, voters: seq<NodeId>)
  {
    && i in c.nodes && i in voters && Majority(c.nodes.Keys, Ids(voters))
    && forall v :: v in voters ==>
      && v in c.nodes && c.nodes[v].term <= c.nodes[i].term
      && LogAtMost(c.nodes[v].log, LastTerm(c.nodes[i].log), |c.nodes[i].log|)
  }

  function Call(n: Node): VoteRequest
  {
    VoteRequest(n.term + 1, n.id, |n.log|, LastTerm(n.log))
  }

  /** Standing for election, and the deliveries of the requests. */
  function CallSteps(c: Cluster, i: NodeId, voters: seq<NodeId>): seq<Step>
    requires i in c.nodes
  {
    [Campaign(i)] + Requests(Call(c.nodes[i]), voters)
  }

  function ElectionSteps(c: Cluster, i: NodeId, voters: seq<NodeId>, now: nat): seq<Step>
    requires i in c.nodes
  {
    CallSteps(c, i, voters) + Replies(i, c.nodes[i].term + 1, voters, now)
  }

  function Campaigned(n: Node): Node
  {
    n.(term := n.term + 1, role := Candidate, votedFor := Some(n.id), leaderId := None, votes := {n.id})
  }

  lemma CampaignReadies(c: Cluster, i: NodeId, voters: seq<NodeId>)
    requires MembersOk(c) && CanWin(c, i, voters)
    ensures var n := c.nodes[i]; var c' := Take(c, Campaign(i));
      && n.id == i && c'.nodes.Keys == c.nodes.Keys && VoteRequested(Call(n)) in c'.net && Ready(c', Call(n), voters)
      && c'.nodes[i] == Campaigned(n)
  {
  }

  lemma Calling(c: Cluster, i: NodeId, voters: seq<NodeId>)
    requires MembersOk(c) && CanWin(c, i, voters)
    ensures AllEnabled(c, CallSteps(c, i, voters))
    ensures Polled(Take(c, Campaign(i)), Execute(c, CallSteps(c, i, voters)), Call(c.nodes[i]), voters)
  {
    hide Ready, Polled, AllEnabled, Execute, CanWin, MembersOk;
    CampaignReadies(c, i, voters);
    var c1, steps := Take(c, Campaign(i)), Requests(Call(c.nodes[i]), voters);
    RequestsGranted(c1, Call(c.nodes[i]), voters);
    ExecuteFirst(c, Campaign(i), steps, CallSteps(c, i, voters));
  }

  lemma Polling(c: Cluster, i: NodeId, voters: seq<NodeId>, now: nat)
    requires MembersOk(c) && CanWin(c, i, voters)
    ensures AllEnabled(c, CallSteps(c, i, voters)) && AllEnabled(c, ElectionSteps(c, i, voters, now))
    ensures var c2, c' := Execute(c, CallSteps(c, i, voters)), Execute(c, ElectionSteps(c, i, voters, now));
      && c'.nodes.Keys == c2.nodes.Keys == c.nodes.Keys && i in c.nodes && c2.nodes[i] == Campaigned(c.nodes[i])
      && Counted(c2.nodes[i], c'.nodes[i], voters, now)
      && (forall v :: v in voters && v in c.nodes ==> c'.nodes[v].term == c.nodes[i].term + 1)
  {
    hide Ready, Polled, AllEnabled, Execute, MembersOk, Counted, Take;
    CampaignReadies(c, i, voters);
    Calling(c, i, voters);
    var c1, c2 := Take(c, Campaign(i)), Execute(c, CallSteps(c, i, voters));
    PolledFacts(c1, c2, Call(c.nodes[i]), voters);
    var term := c.nodes[i].term + 1;
    RepliesCounted(c2, i, term, voters, now);
    ExecuteConcat(c, CallSteps(c, i, voters), Replies(i, term, voters, now));
    var c' := Execute(c2, Replies(i, term, voters, now));
    CountedTerm(c2.nodes[i], c'.nodes[i], voters, now);
  }

  lemma CountedTerm(n: Node, n': Node, voters: seq<NodeId>, now: nat)
    requires Counted(n, n', voters, now)
    ensures n'.term == n.term
  {
  }

  lemma CanWinFacts(c: Cluster, i: NodeId, voters: seq<NodeId>)
    requires CanWin(c, i, voters)
    ensures i in c.nodes && i in voters && Majority(c.nodes.Keys, Ids(voters))
    ensures forall v :: v in voters ==> v in c.nodes
  {
  }

  lemma MembersFact(c: Cluster, h: History)
    requires Inv(c, h)
    ensures MembersOk(c)
  {
    hide Chosen, VotesOk, ElectedOk, AcksOk, NetOk, RolesOk, LedgersOk, LogsOk, CommitsOk, MembersOk;
  }

  /**
   * From any reachable state: a node that stands for election, with a majority that has neither a later term nor a
   * later log, wins. Standing, delivering its requests to them and their replies to it are enabled steps, and they
   * lead to a reachable state in which it leads the next term, with its log and one entry more.
   */
  lemma ElectionWon(members: set<NodeId>, c: Cluster, i: NodeId, voters: seq<NodeId>, now: nat)
    requires Reachable(members, c) && CanWin(c, i, voters)
    ensures AllEnabled(c, ElectionSteps(c, i, voters, now))
    ensures var c' := Execute(c, ElectionSteps(c, i, voters, now));
      && Reachable(members, c') && c'.nodes.Keys == c.nodes.Keys
      && c'.nodes[i].role == Leader && c'.nodes[i].term == c.nodes[i].term + 1
      && c'.nodes[i].log == c.nodes[i].log + [Entry(|c.nodes[i].log| + 1, c.nodes[i].term + 1, Noop, now)]
      && (forall p :: p in c'.nodes[i].peers ==> c'.nodes[i].peers[p] == Progress(|c.nodes[i].log| + 1, 0))
      && (forall v :: v in voters ==> c'.nodes[v].term == c.nodes[i].term + 1)
  {
    hide Inv, Reachable, AllEnabled, Execute, CanWin, MembersOk;
    var h := ReachableInv(members, c);
    MembersFact(c, h);
    Polling(c, i, voters, now);
    ExecuteReachable(members, c, ElectionSteps(c, i, voters, now));
    CanWinFacts(c, i, voters);
    var c2 := Execute(c, CallSteps(c, i, voters));
    Enough(c, i, voters, c2.nodes[i], Execute(c, ElectionSteps(c, i, voters, now)).nodes[i], now);
  }

  lemma PolledFacts(c: Cluster, c': Cluster, req: VoteRequest, voters: seq<NodeId>)
    requires Polled(c, c', req, voters)
    ensures c'.nodes.Keys == c.nodes.Keys && req.candidate in c.nodes
    ensures c'.nodes[req.candidate] == c.nodes[req.candidate]
    ensures forall v :: v in voters ==> VoteReplied(req.candidate, Granted(req.term, v)) in c'.net
    ensures forall v :: v in voters && v in c.nodes ==> c'.nodes[v].term == req.term
  {
  }

  /** With a majority of votes the candidate leads. */
  lemma Enough(c: Cluster, i: NodeId, voters: seq<NodeId>, n: Node, n': Node, now: nat)
    requires MembersOk(c) && CanWin(c, i, voters) && n == Campaigned(c.nodes[i]) && Counted(n, n', voters, now)
    ensures Won(n, n', now) && n'.term == n.term && n.log == c.nodes[i].log && n.id == i
  {
    hide LogAtMost, MembersOk;
    Electorate(c, i);
    assert {i} + Ids(voters) == Ids(voters);
  }

  /** The members are the node and its peers. */
  lemma Electorate(c: Cluster, i: NodeId)
    requires MembersOk(c) && i in c.nodes
    ensures c.nodes[i].id == i && |c.nodes.Keys| == |c.nodes[i].peers| + 1
  {
    var peers := c.nodes[i].peers.Keys;
    assert c.nodes.Keys == peers + {i} && i !in peers;
    assert |peers| == |c.nodes[i].peers|;
  }
}
