/** The coordinator as an object: fields updated in place, each handler proved against its function in RaftNode. */
module RaftCoordinator {
  import opened Numbers
  import opened Wrappers
  import opened ClusterMetadata
  import RN = RaftNode

  class StateMachine {
    var nodes: map<string, (string, string)>
    var leases: map<string, Lease>
    var metadata: map<string, (string, nat)>
    var fencedEpochs: map<string, nat>

    function Contents(): Metadata
      reads this
    {
      Metadata(nodes, leases, metadata, fencedEpochs)
    }

    constructor ()
      ensures Contents() == EMPTY
    {
      nodes, leases, metadata, fencedEpochs := map[], map[], map[], map[];
    }

    method ApplyCommand(command: Command, now: nat)
      modifies this
      ensures Contents() == Apply(old(Contents()), command, now)
    {
      match command
      case RegisterNode(id, address, role) => nodes := nodes[id := (address, role)];
      case DecommissionNode(id) => nodes := nodes - {id};
      case AcquireLease(resource, holder, ttlMs, epoch) =>
        if holder in fencedEpochs && epoch < fencedEpochs[holder] {
          return;
        }
        var ttlSecs := Max(ttlMs / 1000, 1);
        leases := leases[resource := Lease(resource, holder, now, now + ttlSecs, epoch)];
      case ReleaseLease(resource, holder) =>
        if resource in leases && leases[resource].holder == holder {
          leases := leases - {resource};
        }
      case UpdateMetadata(key, value, version) => metadata := metadata[key := (value, version)];
      case FenceEpoch(id, minEpoch) => fencedEpochs := fencedEpochs[id := minEpoch];
      case Noop =>
    }
  }

  class Coordinator {
    const nodeId: RN.NodeId
    const stateMachine: StateMachine
    var currentTerm: nat
    var votedFor: Option<RN.NodeId>
    var role: RN.Role
    var leaderId: Option<RN.NodeId>
    var log: Log
    var commitIndex: nat
    var lastApplied: nat
    var peers: map<RN.NodeId, RN.Progress>
    var votesReceived: set<RN.NodeId>

    /** The object's state as a value. */
    function Value(): RN.Node
      reads this, stateMachine
    {
      RN.Node(nodeId, currentTerm, votedFor, role, leaderId, log, commitIndex, lastApplied, peers, votesReceived,
              stateMachine.Contents())
    }

    constructor (id: RN.NodeId, peerIds: seq<RN.NodeId>)
      ensures Value() == RN.Fresh(id, set p | p in peerIds)
      ensures fresh(stateMachine)
    {
      nodeId := id;
      stateMachine := new StateMachine();
      currentTerm, votedFor, role, leaderId := 0, None, RN.Follower, None;
      log, commitIndex, lastApplied, votesReceived := [], 0, 0, {};
      var progress: map<RN.NodeId, RN.Progress> := map[];
      for i := 0 to |peerIds|
        invariant progress.Keys == (set p | p in peerIds[..i]) - {id}
        invariant forall p :: p in progress ==> progress[p] == RN.Progress(1, 0)
      {
        if peerIds[i] != id {
          progress := progress[peerIds[i] := RN.Progress(1, 0)];
        }
        assert peerIds[..i + 1] == peerIds[..i] + [peerIds[i]];
      }
      assert peerIds[..|peerIds|] == peerIds;
      peers := progress;
    }

    method HandleRequestVote(req: RN.VoteRequest) returns (reply: RN.VoteReply)
      modifies this
      ensures (Value(), reply) == RN.HandleVoteRequest(old(Value()), req)
    {
      if req.term > currentTerm {
        currentTerm := req.term;
        role := RN.Follower;
        votedFor := None;
        leaderId := None;
      }
      if req.term < currentTerm {
        return RN.VoteReply(currentTerm, false, nodeId);
      }
      var myLastTerm := if |log| == 0 then 0 else log[|log| - 1].term;
      var logOk := req.lastTerm > myLastTerm || (req.lastTerm == myLastTerm && req.lastIndex >= |log|);
      var canVote := match votedFor { case None => true case Some(voted) => voted == req.candidate };
      if canVote && logOk {
        votedFor := Some(req.candidate);
        reply := RN.VoteReply(currentTerm, true, nodeId);
      } else {
        reply := RN.VoteReply(currentTerm, false, nodeId);
      }
    }

    method HandleAppendEntries(req: RN.AppendRequest, now: nat) returns (reply: RN.AppendReply)
      modifies this, stateMachine
      ensures (Value(), reply) == RN.HandleAppendRequest(old(Value()), req, now)
    {
      if req.term > currentTerm {
        currentTerm := req.term;
        role := RN.Follower;
        votedFor := None;
      }
      if req.term < currentTerm {
        return RN.AppendReply(currentTerm, false, |log|, nodeId);
      }
      role := RN.Follower;
      leaderId := Some(req.leader);
      if req.prevIndex > 0 {
        if req.prevIndex > |log| {
          return RN.AppendReply(currentTerm, false, |log|, nodeId);
        }
        if log[req.prevIndex - 1].term != req.prevTerm {
          log := log[..req.prevIndex - 1];
          return RN.AppendReply(currentTerm, false, |log|, nodeId);
        }
      }
      AppendNewEntries(req.entries);
      var lastLogIndex := |log|;
      if req.leaderCommit > commitIndex {
        var newCommit := Min(req.leaderCommit, lastLogIndex);
        commitIndex := newCommit;
        ApplyCommittedEntries(newCommit, now);
      }
      reply := RN.AppendReply(currentTerm, true, lastLogIndex, nodeId);
    }

    method AppendNewEntries(entries: Log)
      modifies this`log
      ensures log == RN.Merge(old(log), entries)
    {
      for i := 0 to |entries|
        invariant RN.Merge(log, entries[i..]) == RN.Merge(old(log), entries)
      {
        var e := entries[i];
        assert entries[i..][0] == e && entries[i..][1..] == entries[i + 1..];
        if e.index <= |log| {
          if log[e.index - 1].term != e.term {
            log := log[..e.index - 1];
            log := log + [e];
          }
        } else {
          log := log + [e];
        }
      }
    }

    method StartElection() returns (req: RN.VoteRequest)
      modifies this
      ensures (Value(), req) == RN.StartElection(old(Value()))
    {
      currentTerm := currentTerm + 1;
      role := RN.Candidate;
      votedFor := Some(nodeId);
      leaderId := None;
      votesReceived := {};
      votesReceived := votesReceived + {nodeId};
      assert votesReceived == {nodeId};
      var lastTerm := if |log| == 0 then 0 else log[|log| - 1].term;
      req := RN.VoteRequest(currentTerm, nodeId, |log|, lastTerm);
    }

    method RecordVote(voter: RN.NodeId, granted: bool, term: nat, now: nat) returns (elected: bool)
      modifies this, stateMachine
      ensures (Value(), elected) == RN.RecordVote(old(Value()), voter, granted, term, now)
    {
      if term > currentTerm {
        currentTerm := term;
        role := RN.Follower;
        votedFor := None;
        return false;
      }
      if role != RN.Candidate || term != currentTerm || !granted {
        return false;
      }
      var quorumNeeded := (|peers| + 1) / 2 + 1;
      votesReceived := votesReceived + {voter};
      if |votesReceived| >= quorumNeeded {
        role := RN.Leader;
        leaderId := Some(nodeId);
        ResetProgress();
        var _ := Propose(Noop, now);
        return true;
      }
      return false;
    }

    method ResetProgress()
      modifies this`peers
      ensures peers == map p | p in old(peers) :: RN.Progress(|log| + 1, 0)
    {
      var rest := peers.Keys;
      while rest != {}
        invariant rest <= peers.Keys == old(peers).Keys
        invariant forall p :: p in peers && p !in rest ==> peers[p] == RN.Progress(|log| + 1, 0)
      {
        var p :| p in rest;
        peers := peers[p := RN.Progress(|log| + 1, 0)];
        rest := rest - {p};
      }
    }

    method Propose(command: Command, now: nat) returns (index: Option<nat>)
      modifies this, stateMachine
      ensures (Value(), index) == RN.Propose(old(Value()), command, now)
    {
      if role != RN.Leader {
        return None;
      }
      var i := |log| + 1;
      log := log + [Entry(i, currentTerm, command, now)];
      if |peers| == 0 {
        commitIndex := i;
        ApplyCommittedEntries(i, now);
      }
      index := Some(i);
    }

    method CreateAppendEntriesForPeer(peer: RN.NodeId) returns (req: Option<RN.AppendRequest>)
      ensures req == RN.CreateAppend(Value(), peer)
    {
      if role != RN.Leader || peer !in peers {
        return None;
      }
      var next := peers[peer].next;
      var prevIndex := next - 1;
      var prevTerm := if prevIndex > 0 && prevIndex <= |log| then log[prevIndex - 1].term else 0;
      var entries: Log := if next <= |log| then log[next - 1..] else [];
      req := Some(RN.AppendRequest(currentTerm, nodeId, prevIndex, prevTerm, entries, commitIndex));
    }

    method HandleAppendResponse(peer: RN.NodeId, reply: RN.AppendReply, now: nat)
      modifies this, stateMachine
      ensures Value() == RN.HandleAppendReply(old(Value()), peer, reply, now)
    {
      if reply.term > currentTerm {
        currentTerm := reply.term;
        role := RN.Follower;
        votedFor := None;
        return;
      }
      if role != RN.Leader || reply.term != currentTerm {
        return;
      }
      if peer in peers {
        if reply.success {
          peers := peers[peer := RN.Progress(reply.matchIndex + 1, reply.matchIndex)];
        } else {
          var p := peers[peer];
          peers := peers[peer := RN.Progress(Max(p.next - 1, 1), p.matched)];
        }
      }
      var index := LargestQuorum();
      if commitIndex < index {
        commitIndex := index;
        ApplyCommittedEntries(index, now);
      }
    }

    /** Walks down from the end of the log to the first index that a quorum holds. */
    method LargestQuorum() returns (index: nat)
      ensures index == RN.QuorumIndex(Value(), |log|)
    {
      var n: nat := |log|;
      while n > commitIndex
        invariant n <= |log| && RN.QuorumIndex(Value(), |log|) == RN.QuorumIndex(Value(), n)
      {
        if log[n - 1].term == currentTerm {
          var matches := CountMatches(n);
          if matches >= (|peers| + 1) / 2 + 1 {
            return n;
          }
        }
        n := n - 1;
      }
      index := commitIndex;
    }

    method CountMatches(index: nat) returns (matches: nat)
      ensures matches == RN.Matches(Value(), index)
    {
      matches := 1;
      var rest := peers.Keys;
      ghost var counted: set<RN.NodeId> := {};
      while rest != {}
        invariant rest <= peers.Keys
        invariant counted == set p | p in peers && p !in rest && index <= peers[p].matched
        invariant matches == 1 + |counted|
      {
        var p :| p in rest;
        rest := rest - {p};
        if peers[p].matched >= index {
          matches := matches + 1;
          counted := counted + {p};
        }
      }
      assert counted == set p | p in peers && index <= peers[p].matched;
    }

    method ApplyCommittedEntries(target: nat, now: nat)
      modifies this`lastApplied, stateMachine
      ensures Value().(commit := target) == RN.CommitTo(old(Value()), target, now)
    {
      if target > lastApplied {
        ghost var start := lastApplied;
        while lastApplied < target && lastApplied < |log|
          invariant start <= lastApplied
          invariant start < lastApplied ==> lastApplied <= Min(target, |log|)
          invariant start <= |log| ==> lastApplied <= |log|
          invariant start == lastApplied ==> stateMachine.Contents() == old(stateMachine.Contents())
          invariant start < lastApplied ==>
            stateMachine.Contents() == ApplyEntries(old(stateMachine.Contents()), log[start..lastApplied], now)
        {
          assert log[start..lastApplied + 1][..lastApplied - start] == log[start..lastApplied];
          stateMachine.ApplyCommand(log[lastApplied].command, now);
          lastApplied := lastApplied + 1;
        }
      }
    }
  }
}
