/** Every step of the cluster keeps the invariant. */
module RaftSteps {
  import opened Numbers
  import opened Wrappers
  import opened ClusterMetadata
  import opened RaftNode
  import opened RaftCluster
  import opened RaftInvariant
  import opened RaftElection
  import opened RaftLedger
  import opened RaftLeader
  import opened RaftFollower

  lemma UpdateTwice(c: Cluster, i: NodeId, n: Node, sent: set<Message>, n': Node, sent': set<Message>)
    ensures Update(Update(c, i, n, sent), i, n', sent') == Update(c, i, n', sent + sent')
  {
    assert c.nodes[i := n][i := n'] == c.nodes[i := n'];
    assert c.net + sent + sent' == c.net + (sent + sent');
  }

  lemma ExtendsTwice(a: History, b: History, d: History)
    requires Extends(a, b) && Extends(b, d)
    ensures Extends(a, d)
  {
    forall t | t in a.ledger ensures t in d.ledger && a.ledger[t] <= d.ledger[t] {
      assert a.ledger[t] <= b.ledger[t] <= d.ledger[t];
    }
  }

  lemma NothingSent()
    ensures var none: set<Message> := {}; none + none == none
  {
  }

  lemma SameNode(c: Cluster, i: NodeId)
    requires i in c.nodes
    ensures Update(c, i, c.nodes[i], {}) == c
  {
    assert c.nodes[i := c.nodes[i]] == c.nodes && c.net + {} == c.net;
  }

  /** A node brought to at least `term`, as the handlers do first. */
  lemma CatchUpInv(c: Cluster, h: History, i: NodeId, n: Node, term: nat)
    requires Inv(c, h) && i in c.nodes
    requires n == (if c.nodes[i].term < term then Advance(c.nodes[i], term).(leaderId := n.leaderId) else c.nodes[i])
    ensures Inv(Update(c, i, n, {}), h) && n.id == i
  {
    hide Chosen, LedgersOk, VotesOk, ElectedOk, LogsOk, AcksOk, RolesOk, NetOk, CommitsOk;
    if c.nodes[i].term < term {
      AdvanceInv(c, h, i, n, term);
    } else {
      SameNode(c, i);
    }
  }

  lemma MessageFact(c: Cluster, h: History, m: Message)
    requires Inv(c, h) && m in c.net
    ensures MessageOk(c, h, m)
  {
  }

  lemma LogFact(c: Cluster, h: History, i: NodeId)
    requires Inv(c, h) && i in c.nodes
    ensures LedgersOk(h) && LogOk(h, c.nodes[i].log) && TermsUpTo(c.nodes[i].log, c.nodes[i].term)
  {
    hide Chosen, VotesOk, ElectedOk, AcksOk, RolesOk, NetOk, CommitsOk, MembersOk, LedgersOk;
  }

  /** Whoever acknowledges more in term `t` than before is in that term. */
  ghost predicate AcksInTerm(c: Cluster, h: History, h': History)
  {
    forall t: nat, v: NodeId :: Ack(h, t, v) < Ack(h', t, v) ==> v in c.nodes && c.nodes[v].term == t
  }

  lemma SameAcks(c: Cluster, h: History, h': History)
    requires h'.acks == h.acks
    ensures AcksInTerm(c, h, h')
  {
  }

  // --- One lemma for each step ---

  lemma CampaignInv(c: Cluster, h: History, i: NodeId) returns (h': History)
    requires Inv(c, h) && Enabled(c, Campaign(i))
    ensures Inv(Take(c, Campaign(i)), h') && Extends(h, h') && h'.acks == h.acks
  {
    hide Inv;
    var n := Advance(c.nodes[i], c.nodes[i].term + 1).(leaderId := None);
    CatchUpInv(c, h, i, n, n.term);
    h' := StandInv(Update(c, i, n, {}), h, i);
    var (n', req) := StartElection(c.nodes[i]);
    UpdateTwice(c, i, n, {}, n', {VoteRequested(req)});
    assert {} + {VoteRequested(req)} == {VoteRequested(req)};
  }

  lemma VoteRequestInv(c: Cluster, h: History, i: NodeId, req: VoteRequest) returns (h': History)
    requires Inv(c, h) && Enabled(c, ReceiveVoteRequest(i, req))
    ensures Inv(Take(c, ReceiveVoteRequest(i, req)), h') && Extends(h, h') && h'.acks == h.acks
  {
    hide Inv;
    var was := c.nodes[i];
    var n := if was.term < req.term then Advance(was, req.term).(leaderId := None) else was;
    CatchUpInv(c, h, i, n, req.term);
    var c1 := Update(c, i, n, {});
    var (n', vote) := HandleVoteRequest(was, req);
    var m := VoteReplied(req.candidate, vote);
    if vote.granted {
      h' := GrantInv(c1, h, i, req);
    } else {
      h' := h;
      SendInv(c1, h, i, {m});
    }
    UpdateTwice(c, i, n, {}, n', {m});
    assert {} + {m} == {m};
  }

  lemma ProposedInv(c: Cluster, h: History, i: NodeId, n: Node, now: nat) returns (h': History)
    requires Inv(c, h) && Writes(c, h, i, n)
    ensures var n' := if n.peers == map[] then CommitTo(n, |n.log|, now) else n;
      Inv(Update(c, i, n', {}), h') && Extends(h, h') && AcksInTerm(Update(c, i, n', {}), h, h')
  {
    hide Inv, Writes, Led, CommitTo;
    WritesInv(c, h, i, n);
    h' := Led(h, n.term, i, n.log);
    LedAcks(h, n.term, i, n.log);
    CommitToShape(n, |n.log|, now);
    WriterShape(c, h, i, n);
    if n.peers == map[] {
      var c1 := Update(c, i, n, {});
      assert c1.nodes[i] == n;
      AloneCommits(c1, h', i);
      CommitInv(c1, h', i, |n.log|, now);
      UpdateTwice(c, i, n, {}, CommitTo(n, |n.log|, now), {});
      NothingSent();
    }
  }

  lemma LedAcks(h: History, term: nat, i: NodeId, log: Log)
    ensures forall t: nat, v :: (t, v) != (term, i) ==> Ack(Led(h, term, i, log), t, v) == Ack(h, t, v)
  {
  }

  lemma WriterShape(c: Cluster, h: History, i: NodeId, n: Node)
    requires Writes(c, h, i, n)
    ensures i in c.nodes && n.role == Leader && n.log != [] && n.log[|n.log| - 1].term == n.term
  {
  }

  /** A leader without peers commits all it has. */
  lemma AloneCommits(c: Cluster, h: History, i: NodeId)
    requires Inv(c, h) && i in c.nodes && c.nodes[i].role == Leader && c.nodes[i].peers == map[]
    requires c.nodes[i].log != [] && c.nodes[i].log[|c.nodes[i].log| - 1].term == c.nodes[i].term
    ensures CommitBacked(c.nodes.Keys, h, c.nodes[i].term, c.nodes[i].log, |c.nodes[i].log|)
    ensures c.nodes[i].commit <= |c.nodes[i].log|
  {
    hide Chosen, LedgersOk, VotesOk, ElectedOk, LogsOk, AcksOk, RolesOk, NetOk, MembersOk, CommitBacked;
    assert CommitOk(c.nodes.Keys, h, c.nodes[i]);
    QuorumCommits(c, h, i, |c.nodes[i].log|);
  }

  lemma VoteInv(c: Cluster, h: History, i: NodeId, vote: VoteReply, now: nat) returns (h': History)
    requires Inv(c, h) && Enabled(c, ReceiveVote(i, vote, now))
    ensures Inv(Take(c, ReceiveVote(i, vote, now)), h') && Extends(h, h')
    ensures AcksInTerm(Take(c, ReceiveVote(i, vote, now)), h, h')
  {
    hide Inv, Writes, Promote, Propose;
    var was := c.nodes[i];
    h' := h;
    if was.term < vote.term {
      CatchUpInv(c, h, i, Advance(was, vote.term), vote.term);
    } else if was.role != Candidate || vote.term != was.term || !vote.granted {
      SameNode(c, i);
    } else {
      MessageFact(c, h, VoteReplied(i, vote));
      CountInv(c, h, i, vote.voter);
      var n := was.(votes := was.votes + {vote.voter});
      var c1 := Update(c, i, n, {});
      if Quorum(n) <= |n.votes| {
        var n2 := Promote(n).(log := n.log + [Entry(|n.log| + 1, n.term, Noop, now)]);
        Wins(c1, h, i, n2, now);
        h' := ProposedInv(c1, h, i, n2, now);
        UpdateTwice(c, i, n, {}, Propose(Promote(n), Noop, now).0, {});
        NothingSent();
      }
    }
  }

  lemma Wins(c: Cluster, h: History, i: NodeId, n: Node, now: nat)
    requires Inv(c, h) && i in c.nodes && c.nodes[i].role == Candidate && Quorum(c.nodes[i]) <= |c.nodes[i].votes|
    requires n ==
      Promote(c.nodes[i]).(log := c.nodes[i].log + [Entry(|c.nodes[i].log| + 1, c.nodes[i].term, Noop, now)])
    ensures Writes(c, h, i, n)
    ensures Propose(Promote(c.nodes[i]), Noop, now).0 == if n.peers == map[] then CommitTo(n, |n.log|, now) else n
  {
    hide Chosen, LedgersOk, VotesOk, ElectedOk, LogsOk, AcksOk, RolesOk, NetOk, CommitsOk;
    MemberCount(c, i);
    TermIsFree(c, h, i);
    assert n.peers.Keys == c.nodes[i].peers.Keys;
  }

  lemma ProposeInv(c: Cluster, h: History, i: NodeId, command: Command, now: nat) returns (h': History)
    requires Inv(c, h) && Enabled(c, ClientPropose(i, command, now))
    ensures Inv(Take(c, ClientPropose(i, command, now)), h') && Extends(h, h')
    ensures AcksInTerm(Take(c, ClientPropose(i, command, now)), h, h')
  {
    hide Inv, Writes;
    var was := c.nodes[i];
    if was.role != Leader {
      h' := h;
      SameNode(c, i);
    } else {
      var n := was.(log := was.log + [Entry(|was.log| + 1, was.term, command, now)]);
      LeaderWrites(c, h, i, n);
      h' := ProposedInv(c, h, i, n, now);
    }
  }

  lemma LeaderWrites(c: Cluster, h: History, i: NodeId, n: Node)
    requires i in c.nodes && c.nodes[i].role == Leader && n == c.nodes[i].(log := n.log)
    requires |n.log| == |c.nodes[i].log| + 1 && n.log[..|c.nodes[i].log|] == c.nodes[i].log
    requires n.log[|c.nodes[i].log|].index == |n.log| && n.log[|c.nodes[i].log|].term == n.term
    ensures Writes(c, h, i, n)
  {
  }

  lemma SendAppendInv(c: Cluster, h: History, i: NodeId, peer: NodeId)
    requires Inv(c, h) && Enabled(c, SendAppend(i, peer))
    ensures Inv(Take(c, SendAppend(i, peer)), h)
  {
    hide Chosen, LedgersOk, VotesOk, ElectedOk, LogsOk, AcksOk, RolesOk, NetOk, CommitsOk, MembersOk, AppendOk;
    var n := c.nodes[i];
    if n.role != Leader || peer !in n.peers {
      SameNode(c, i);
    } else {
      CreatedOk(c, h, i, peer);
      SendInv(c, h, i, {AppendRequested(peer, CreateAppend(n, peer).value)});
    }
  }

  lemma AppendInv(c: Cluster, h: History, i: NodeId, req: AppendRequest, now: nat) returns (h': History)
    requires Inv(c, h) && Enabled(c, ReceiveAppend(i, req, now))
    ensures Inv(Take(c, ReceiveAppend(i, req, now)), h') && Extends(h, h')
    ensures AcksInTerm(Take(c, ReceiveAppend(i, req, now)), h, h')
  {
    hide Inv, AppendLog, AppendOk, Follow, CommitTo, LedgersOk, LogOk, TermsUpTo, Agree, Backed, AcksInTerm, After;
    var was := c.nodes[i];
    MessageFact(c, h, AppendRequested(i, req));
    var n := if was.term < req.term then Advance(was, req.term) else was;
    CatchUpInv(c, h, i, n, req.term);
    var c1 := Update(c, i, n, {});
    var (n', ack) := HandleAppendRequest(was, req, now);
    var m := AppendReplied(req.leader, ack);
    if req.term < n.term {
      h' := h;
      SendInv(c1, h, i, {m});
      UpdateTwice(c, i, n, {}, n, {m});
      SameAcks(Update(c, i, n, {m}), h, h);
    } else {
      assert c1.nodes.Keys == c.nodes.Keys && c1.nodes[i] == n;
      var (log, ok) := AppendLog(n.log, req);
      var n2 := n.(role := Follower, leaderId := Some(req.leader), log := log);
      CommitToShape(n2, Min(req.leaderCommit, |log|), now);
      h' := TakesInv(c1, h, i, n2, req, ok);
      var c2 := Update(c1, i, n2, {m});
      var n3 := if ok && n2.commit < req.leaderCommit then CommitTo(n2, Min(req.leaderCommit, |log|), now) else n2;
      assert c2.nodes[i] == n2;
      LogFact(c1, h, i);
      FollowFact(c1, h, h', i, n2, req);
      assert c2.nodes.Keys == c1.nodes.Keys;
      FollowerCommitInv(c2, h', i, req, n3, ok, now);
      UpdateTwice(c1, i, n2, {m}, n3, {});
      UpdateTwice(c, i, n, {}, n3, {m} + {});
      assert {m} + {} == {m};
      assert n' == n3;
      AfterAcks(Update(c, i, n3, {m}), h, i, req, AppendLog(n.log, req));
    }
    assert {} + {m} == {m};
  }

  lemma AfterAcks(c: Cluster, h: History, i: NodeId, req: AppendRequest, result: (Log, bool))
    requires i in c.nodes && c.nodes[i].term == req.term
    ensures AcksInTerm(c, h, After(h, i, req, result))
  {
  }

  lemma CommitToShape(n: Node, index: nat, now: nat)
    ensures var n' := CommitTo(n, index, now); n'.log == n.log && n'.term == n.term && n'.id == n.id
  {
  }

  /** After a successful append the follower's whole log is the ledger's, and its leader's commit is backed. */
  lemma FollowFact(c1: Cluster, h: History, h': History, i: NodeId, n: Node, req: AppendRequest)
    requires i in c1.nodes && c1.nodes[i].term == req.term && AppendOk(c1.nodes.Keys, h, i, req)
    requires h' == After(h, i, req, AppendLog(c1.nodes[i].log, req)) && Extends(h, h')
    requires Follow(c1, h, h', i, n, req.term) && LedgersOk(h) && LogOk(h, c1.nodes[i].log) &&
      TermsUpTo(c1.nodes[i].log, req.term)
    requires n.log == AppendLog(c1.nodes[i].log, req).0
    ensures req.term in h'.ledger && Backed(c1.nodes.Keys, h', req.term, req.leaderCommit)
    ensures AppendLog(c1.nodes[i].log, req).1 ==> Agree(n.log, h'.ledger[req.term], |n.log|)
  {
    hide LedgersOk, AppendLog, LogOk, TermsUpTo;
    ExtendsBacked(c1.nodes.Keys, h, h', req.term, req.leaderCommit);
    if AppendLog(c1.nodes[i].log, req).1 {
      WholeLogMatches(h, c1.nodes[i].log, c1.nodes.Keys, i, req);
    }
  }

  lemma FollowerCommitInv(c: Cluster, h: History, i: NodeId, req: AppendRequest, n: Node, ok: bool, now: nat)
    requires Inv(c, h) && i in c.nodes && c.nodes[i].term == req.term && req.term in h.ledger
    requires Backed(c.nodes.Keys, h, req.term, req.leaderCommit)
    requires ok ==> Agree(c.nodes[i].log, h.ledger[req.term], |c.nodes[i].log|)
    requires n == if ok && c.nodes[i].commit < req.leaderCommit
                  then CommitTo(c.nodes[i], Min(req.leaderCommit, |c.nodes[i].log|), now) else c.nodes[i]
    ensures Inv(Update(c, i, n, {}), h)
  {
    hide Inv, CommitTo, CommitBacked;
    if ok && c.nodes[i].commit < req.leaderCommit {
      LeaderCommitBacked(c, h, i, req.leaderCommit);
      CommitInv(c, h, i, Min(req.leaderCommit, |c.nodes[i].log|), now);
    } else {
      SameNode(c, i);
    }
  }

  lemma LeaderCommitBacked(c: Cluster, h: History, i: NodeId, n: nat)
    requires Inv(c, h) && i in c.nodes && c.nodes[i].term in h.ledger && Backed(c.nodes.Keys, h, c.nodes[i].term, n)
    requires Agree(c.nodes[i].log, h.ledger[c.nodes[i].term], |c.nodes[i].log|)
    ensures CommitBacked(c.nodes.Keys, h, c.nodes[i].term, c.nodes[i].log, Min(n, |c.nodes[i].log|))
    ensures c.nodes[i].commit <= |c.nodes[i].log|
  {
    hide LedgersOk, VotesOk, ElectedOk, LogsOk, AcksOk, RolesOk, NetOk, MembersOk, Complete, Retained, Vouched, Slot,
         Ackers;
    var ids, t, log := c.nodes.Keys, c.nodes[i].term, c.nodes[i].log;
    assert CommitOk(ids, h, c.nodes[i]);
    var m := Min(n, |log|);
    if m != 0 {
      var w: nat :| w <= t && CommittedAt(ids, h, w, n);
      CommittedInLedger(c, h, w, t, n);
      AgreeLess(h.ledger[w], h.ledger[t], n, n);
      AgreeThrough(log, h.ledger[t], h.ledger[w], |log|, n);
      CommittedLess(ids, h, w, n, m);
      assert w <= t && CommittedAt(ids, h, w, m) && Agree(log, h.ledger[w], m);
    }
  }

  lemma CommittedLess(ids: set<NodeId>, h: History, t: nat, n: nat, m: nat)
    requires CommittedAt(ids, h, t, n) && m <= n
    ensures CommittedAt(ids, h, t, m)
  {
    var k: nat :| n <= k && Slot(h, t, k) && Majority(ids, Ackers(ids, h, t, k));
    assert m <= k;
  }

  lemma AppendReplyInv(c: Cluster, h: History, i: NodeId, ack: AppendReply, now: nat)
    requires Inv(c, h) && Enabled(c, ReceiveAppendReply(i, ack, now))
    ensures Inv(Take(c, ReceiveAppendReply(i, ack, now)), h)
  {
    hide Inv, CommitTo, QuorumIndex, CommitBacked, Committable;
    var was := c.nodes[i];
    if was.term < ack.term {
      CatchUpInv(c, h, i, Advance(was, ack.term), ack.term);
    } else if was.role != Leader || ack.term != was.term {
      SameNode(c, i);
    } else {
      var p := ack.responder;
      MessageFact(c, h, AppendReplied(i, ack));
      var n := if p in was.peers then was.(peers := was.peers[p := Advanced(was.peers[p], ack)]) else was;
      if p in was.peers { TallyInv(c, h, i, ack); } else { SameNode(c, i); }
      var c1, index := Update(c, i, n, {}), QuorumIndex(n, |n.log|);
      assert c1.nodes[i] == n;
      if n.commit < index {
        QuorumIndexSound(n, |n.log|);
        QuorumCommitsInv(c1, h, i, index);
        CommitInv(c1, h, i, index, now);
        UpdateTwice(c, i, n, {}, CommitTo(n, index, now), {});
        NothingSent();
      }
    }
  }

  lemma QuorumCommitsInv(c: Cluster, h: History, i: NodeId, index: nat)
    requires Inv(c, h) && i in c.nodes && c.nodes[i].role == Leader
    requires 1 <= index <= |c.nodes[i].log| && Committable(c.nodes[i], index)
    ensures CommitBacked(c.nodes.Keys, h, c.nodes[i].term, c.nodes[i].log, index)
  {
    hide Chosen, LedgersOk, VotesOk, ElectedOk, LogsOk, AcksOk, RolesOk, NetOk, MembersOk, CommitsOk, CommitBacked,
         Committable;
    QuorumCommits(c, h, i, index);
  }

  /** Every step keeps the invariant and only adds to history; new acknowledgements are of the acknowledger's term. */
  lemma StepInv(c: Cluster, h: History, s: Step) returns (h': History)
    requires Inv(c, h) && Enabled(c, s)
    ensures Inv(Take(c, s), h') && Extends(h, h') && AcksInTerm(Take(c, s), h, h')
  {
    hide Inv, Take, AcksInTerm;
    h' := h;
    SameAcks(Take(c, s), h, h);
    match s
    case Campaign(i) => h' := CampaignInv(c, h, i); SameAcks(Take(c, s), h, h');
    case ReceiveVoteRequest(i, req) => h' := VoteRequestInv(c, h, i, req); SameAcks(Take(c, s), h, h');
    case ReceiveVote(i, vote, now) => h' := VoteInv(c, h, i, vote, now);
    case ClientPropose(i, command, now) => h' := ProposeInv(c, h, i, command, now);
    case SendAppend(i, peer) => SendAppendInv(c, h, i, peer);
    case ReceiveAppend(i, req, now) => h' := AppendInv(c, h, i, req, now);
    case ReceiveAppendReply(i, ack, now) => AppendReplyInv(c, h, i, ack, now);
  }
}
