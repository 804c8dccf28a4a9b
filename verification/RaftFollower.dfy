/** A follower taking a leader's entries keeps the invariant: the heart of log repair. */
module RaftFollower {
  import opened Wrappers
  import opened ClusterMetadata
  import opened RaftNode
  import opened RaftCluster
  import opened RaftInvariant
  import opened RaftFrame
  import opened RaftElection
  import opened RaftLedger

  // --- Merging entries into a log ---

  /**
   * Merging the slice `[k, j)` of a ledger into a log that agrees with it up to `k` changes nothing if the
   * log already agrees up to `j`, and otherwise yields exactly the ledger's first `j` entries.
   */
  lemma {:induction false} MergeResult(h: History, log: Log, ledger: Log, k: nat, j: nat)
    requires LogOk(h, log) && LogOk(h, ledger) && k <= j <= |ledger| && Agree(log, ledger, k)
    ensures Merge(log, ledger[k..j]) == if Agree(log, ledger, j) then log else ledger[..j]
    decreases j - k
  {
    if k == j {
      assert ledger[k..j] == [];
    } else {
      var e := ledger[k];
      assert EntryOk(h, ledger, k);
      assert ledger[k..j][0] == e && ledger[k..j][1..] == ledger[k + 1..j];
      var log' := MergeOne(log, e);
      if k < |log| && log[k].term == e.term {
        SameTermAgree(h, log, ledger, k);
        MergeResult(h, log, ledger, k + 1, j);
      } else {
        assert log' == ledger[..k + 1] by {
          assert log[..k] == ledger[..k] && ledger[..k + 1] == ledger[..k] + [e];
        }
        TakeLogOk(h, ledger, k + 1);
        MergeResult(h, log', ledger, k + 1, j);
      }
    }
  }

  /** What the consistency check and the merge do to a log, measured against the leader's ledger. */
  lemma AppendResult(h: History, log: Log, ids: set<NodeId>, dest: NodeId, req: AppendRequest)
    requires LedgersOk(h) && LogOk(h, log) && AppendOk(ids, h, dest, req)
    ensures var (log', ok) := AppendLog(log, req); var ledger := h.ledger[req.term];
      && LogOk(h, log')
      && (ok ==>
        var end := req.prevIndex + |req.entries|;
        log' == if Agree(log, ledger, end) then log else ledger[..end])
      && (!ok ==> log' == log || (0 < req.prevIndex <= |log| && log' == log[..req.prevIndex - 1]))
      && (forall p: nat :: Agree(log, ledger, p) ==> Agree(log', ledger, p))
  {
    var ledger, k, end := h.ledger[req.term], req.prevIndex, req.prevIndex + |req.entries|;
    assert LedgerAt(h, req.term);
    if |log| < k {
    } else if 0 < k && log[k - 1].term != req.prevTerm {
      TakeLogOk(h, log, k - 1);
      forall p: nat | Agree(log, ledger, p) ensures Agree(log[..k - 1], ledger, p) {
        ConflictAbove(log, ledger, p, k);
      }
    } else {
      if 0 < k { SameTermAgree(h, log, ledger, k - 1); }
      MergeResult(h, log, ledger, k, end);
      TakeLogOk(h, ledger, end);
      forall p: nat | Agree(log, ledger, p) && !Agree(log, ledger, end) ensures Agree(ledger[..end], ledger, p) {
        assert p <= end by { if end < p { AgreeLess(log, ledger, p, end); } }
        assert ledger[..end][..p] == ledger[..p];
      }
    }
  }

  /** A prefix shared with the ledger lies below any position where the terms differ. */
  lemma ConflictAbove(log: Log, ledger: Log, p: nat, k: nat)
    requires Agree(log, ledger, p) && 0 < k <= |log| && k <= |ledger| && log[k - 1].term != ledger[k - 1].term
    ensures p < k && Agree(log[..k - 1], ledger, p)
  {
    assert p < k;
    assert log[..k - 1][..p] == log[..p];
  }

  /**
   * After a successful append in term `t`, the follower's whole log is a prefix of the leader's: anything past
   * the entries sent has a term of at least `t`, hence of `t`, and so is the leader's own.
   */
  lemma WholeLogMatches(h: History, log: Log, ids: set<NodeId>, dest: NodeId, req: AppendRequest)
    requires LedgersOk(h) && LogOk(h, log) && TermsUpTo(log, req.term) && AppendOk(ids, h, dest, req)
    requires AppendLog(log, req).1
    ensures Agree(AppendLog(log, req).0, h.ledger[req.term], |AppendLog(log, req).0|)
    ensures req.prevIndex + |req.entries| <= |AppendLog(log, req).0|
    ensures TermsUpTo(AppendLog(log, req).0, req.term)
  {
    hide AppendLog;
    var ledger, end := h.ledger[req.term], req.prevIndex + |req.entries|;
    assert LedgerAt(h, req.term);
    AppendResult(h, log, ids, dest, req);
    if Agree(log, ledger, end) {
      assert log[end - 1] == log[..end][end - 1] == ledger[..end][end - 1];
      TermsMonotone(h, log, end - 1, |log| - 1);
      assert EntryOk(h, log, |log| - 1);
    }
  }

  // --- The step ---

  function Acked(h: History, t: nat, i: NodeId, n: nat): History
  {
    h.(acks := h.acks[(t, i) := n])
  }

  function After(h: History, i: NodeId, req: AppendRequest, result: (Log, bool)): History
  {
    if result.1 then Acked(h, req.term, i, |result.0|) else h
  }

  /** Node `i`, in the request's term, follows its sender and takes the outcome of the append as its log. */
  ghost predicate Takes(c: Cluster, h: History, i: NodeId, n: Node, req: AppendRequest)
  {
    && i in c.nodes && c.nodes[i].term == req.term
    && AppendOk(c.nodes.Keys, h, i, req)
    && n == c.nodes[i].(role := Follower, leaderId := Some(req.leader), log := AppendLog(c.nodes[i].log, req).0)
  }

  /** What an append does to node `i`'s log, as the rest of the proof uses it. */
  ghost predicate Follow(c: Cluster, h: History, h': History, i: NodeId, n: Node, t: nat)
  {
    && i in c.nodes && c.nodes[i].term == t == n.term && n.role == Follower && n.id == i && t in h.ledger
    && t in h.leader && h.leader[t] != i
    && n == c.nodes[i].(role := n.role, leaderId := n.leaderId, log := n.log)
    && LogOk(h, n.log) && TermsUpTo(n.log, t)
    && (forall p: nat :: Agree(c.nodes[i].log, h.ledger[t], p) ==> Agree(n.log, h.ledger[t], p))
    && (h' == h || (h' == Acked(h, t, i, |n.log|) && Agree(n.log, h.ledger[t], |n.log|) && Ack(h, t, i) <= |n.log|))
  }

  lemma TakesFollows(c: Cluster, h: History, i: NodeId, n: Node, req: AppendRequest)
    requires LedgersOk(h) && LogsOk(c, h) && AcksOk(c, h) && MembersOk(c) && Takes(c, h, i, n, req)
    ensures Follow(c, h, After(h, i, req, AppendLog(c.nodes[i].log, req)), i, n, req.term)
  {
    hide AppendLog;
    var was, ids, t := c.nodes[i], c.nodes.Keys, req.term;
    AppendResult(h, was.log, ids, i, req);
    assert LogOk(h, was.log) && TermsUpTo(was.log, t);
    if AppendLog(was.log, req).1 {
      WholeLogMatches(h, was.log, ids, i, req);
      AckKept(c, h, i, t, n.log);
    }
  }

  lemma AckKept(c: Cluster, h: History, i: NodeId, t: nat, log: Log)
    requires AcksOk(c, h) && i in c.nodes && c.nodes[i].term == t && t in h.ledger
    requires forall p: nat :: Agree(c.nodes[i].log, h.ledger[t], p) ==> Agree(log, h.ledger[t], p)
    ensures Ack(h, t, i) <= |log| && Agree(log, h.ledger[t], Ack(h, t, i))
  {
    if (t, i) in h.acks {
      assert AckAt(c, h, t, i);
    } else {
      assert Agree(c.nodes[i].log, h.ledger[t], 0);
    }
  }

  lemma FollowLocal(c: Cluster, h: History, h': History, i: NodeId, n: Node, t: nat)
    requires Follow(c, h, h', i, n, t) && h.ledger.Keys == h.leader.Keys
    ensures Local(h, h', i)
  {
    hide LogOk, TermsUpTo;
  }

  lemma FollowElected(c: Cluster, h: History, c': Cluster, h': History, i: NodeId, n: Node, t: nat)
    requires ElectedOk(c, h) && Follow(c, h, h', i, n, t) && c'.nodes == c.nodes[i := n]
    ensures forall t' :: t' in h'.leader && h'.leader[t'] == i ==> ElectedAt(c', h', t')
  {
    hide LogOk, TermsUpTo, Agree, Majority, Voters, VoteOf;
    assert c'.nodes.Keys == c.nodes.Keys;
    forall t' | t' in h'.leader && h'.leader[t'] == i ensures ElectedAt(c', h', t') {
      assert ElectedAt(c, h, t');
      SameVotes(c.nodes.Keys, h, h', t', i);
    }
  }

  lemma FollowAcks(c: Cluster, h: History, c': Cluster, h': History, i: NodeId, n: Node, t: nat)
    requires AcksOk(c, h) && Follow(c, h, h', i, n, t) && c'.nodes == c.nodes[i := n]
    ensures forall t' :: (t', i) in h'.acks ==> AckAt(c', h', t', i)
  {
    hide LogOk, TermsUpTo, Agree;
    forall t' | (t', i) in h'.acks ensures AckAt(c', h', t', i) {
      if (t', i) in h.acks { assert AckAt(c, h, t', i); }
      if t' == t { FollowAck(c, h, c', h', i, n, t); }
    }
  }

  lemma FollowAck(c: Cluster, h: History, c': Cluster, h': History, i: NodeId, n: Node, t: nat)
    requires AcksOk(c, h) && Follow(c, h, h', i, n, t) && c'.nodes == c.nodes[i := n]
    ensures Agree(n.log, h'.ledger[t], Ack(h', t, i))
  {
    AckKept(c, h, i, t, n.log);
  }

  /** A committed prefix of node `i` is in the leader's ledger, so the append keeps it. */
  lemma FollowKeepsCommit(c: Cluster, h: History, h': History, i: NodeId, n: Node, t: nat)
    requires CommitsOk(c, h) && Complete(c, h) && Follow(c, h, h', i, n, t) && Extends(h, h')
    ensures CommitOk(c.nodes.Keys, h', n) && n.log[..n.commit] == c.nodes[i].log[..n.commit]
  {
    hide LogOk, TermsUpTo, Choosable, Majority, Ackers, Slot, Complete;
    var was, ids := c.nodes[i], c.nodes.Keys;
    assert CommitOk(ids, h, was);
    if was.commit != 0 {
      var w: nat :| w <= was.term && CommittedAt(ids, h, w, was.commit) && Agree(was.log, h.ledger[w], was.commit);
      CommittedInLedger(c, h, w, t, was.commit);
      AgreeThrough(was.log, h.ledger[w], h.ledger[t], was.commit, was.commit);
      assert Agree(n.log, h.ledger[t], was.commit);
      AgreeLess(h.ledger[w], h.ledger[t], was.commit, was.commit);
      AgreeThrough(n.log, h.ledger[t], h.ledger[w], was.commit, was.commit);
      assert CommitBacked(ids, h, n.term, n.log, n.commit);
      ExtendsCommitBacked(ids, h, h', n.term, n.term, n.log, n.log, n.commit);
    }
    assert n.log[..n.commit] == was.log[..n.commit];
  }

  lemma FollowFacts(c: Cluster, h: History, c': Cluster, h': History, i: NodeId, n: Node, t: nat)
    requires Base(c, h) && Complete(c, h) && Follow(c, h, h', i, n, t) && c'.nodes == c.nodes[i := n]
    ensures Local(h, h', i) && LedgersOk(h') && LogOk(h', n.log) && CommitOk(c.nodes.Keys, h', n)
    ensures forall t' :: t' in h'.leader && h'.leader[t'] == i ==> ElectedAt(c', h', t')
    ensures forall t' :: (t', i) in h'.acks ==> AckAt(c', h', t', i)
  {
    hide LedgersOk, VotesOk, ElectedOk, LogsOk, AcksOk, RolesOk, NetOk, CommitsOk, Complete, MembersOk;
    hide LogOk, TermsUpTo, ElectedAt, AckAt, CommitOk, MessageOk, VoteOf, Local, Follow;
    FollowShape(c, h, h', i, n, t);
    KeysMatch(c, h);
    FollowLocal(c, h, h', i, n, t);
    LocalExtends(h, h', i);
    LedgersKept(h, h');
    ExtendsLogOk(h, h', n.log);
    FollowElected(c, h, c', h', i, n, t);
    FollowAcks(c, h, c', h', i, n, t);
    FollowKeepsCommit(c, h, h', i, n, t);
  }

  lemma FollowBase(c: Cluster, h: History, h': History, i: NodeId, n: Node, t: nat, sent: set<Message>)
    requires Base(c, h) && Complete(c, h) && Follow(c, h, h', i, n, t)
    requires forall m :: m in sent ==> MessageOk(Update(c, i, n, sent), h', m)
    ensures Base(Update(c, i, n, sent), h') && Local(h, h', i)
  {
    hide LedgersOk, VotesOk, ElectedOk, LogsOk, AcksOk, RolesOk, NetOk, CommitsOk, Complete, MembersOk;
    hide LogOk, TermsUpTo, ElectedAt, AckAt, CommitOk, MessageOk, VoteOf, Local, Follow;
    var c' := Update(c, i, n, sent);
    FollowShape(c, h, h', i, n, t);
    FollowVotes(c, h, h', i, n);
    FollowFacts(c, h, c', h', i, n, t);
    FrameBase(c, h, c', h', i, n, sent);
  }

  lemma FollowShape(c: Cluster, h: History, h': History, i: NodeId, n: Node, t: nat)
    requires Follow(c, h, h', i, n, t)
    ensures i in c.nodes && n.id == i && n.peers == c.nodes[i].peers && n.term == c.nodes[i].term
    ensures n.role == Follower && n.votedFor == c.nodes[i].votedFor && LogOk(h, n.log) && TermsUpTo(n.log, n.term)
    ensures h'.votes == h.votes && h'.ledger == h.ledger
  {
  }

  lemma FollowVotes(c: Cluster, h: History, h': History, i: NodeId, n: Node)
    requires VotesOk(c, h) && i in c.nodes && n.term == c.nodes[i].term && n.votedFor == c.nodes[i].votedFor &&
      h'.votes == h.votes
    ensures n.votedFor == VoteOf(h', n.term, i)
    ensures forall t :: (t, i) in h'.votes ==>
      t <= n.term && VoteOf(h', t, h'.votes[(t, i)]) == Some(h'.votes[(t, i)])
  {
    assert c.nodes[i].votedFor == VoteOf(h, n.term, i);
  }

  lemma FollowShrinks(c: Cluster, h: History, c': Cluster, h': History, i: NodeId, n: Node, t: nat, sent: set<Message>)
    requires MembersOk(c) && Follow(c, h, h', i, n, t) && c' == Update(c, i, n, sent)
    ensures Shrinks(c, h, c', h')
  {
    hide LogOk, TermsUpTo, Agree;
    forall t', v | Ack(h, t', v) < Ack(h', t', v) ensures v == i && c.nodes[i].term <= t' {}
    FrameShrinks(c, h, c', h', i, n, sent);
  }

  lemma FollowRetained(c: Cluster, h: History, c': Cluster, h': History, i: NodeId, n: Node, t: nat)
    requires AcksOk(c, h) && Complete(c, h) && Retained(c, h) && Follow(c, h, h', i, n, t) && Shrinks(c, h, c', h') &&
      c'.nodes == c.nodes[i := n]
    ensures Retained(c', h')
  {
    hide LogOk, TermsUpTo, Choosable, AcksOk;
    forall v, t': nat, k: nat | v in c'.nodes && Slot(h', t', k) && k <= Ack(h', t', v) && Choosable(c', h', t', k)
      ensures Agree(c'.nodes[v].log, h'.ledger[t'], k)
    {
      assert Slot(h, t', k) && Choosable(c, h, t', k);
      if v == i {
        if t' == t {
          FollowAck(c, h, c', h', i, n, t);
          AgreeLess(n.log, h.ledger[t], Ack(h', t, i), k);
        } else {
          AckBound(c, h, t', i);
          var was := c.nodes[i];
          assert Agree(was.log, h.ledger[t'], k) && Agree(h.ledger[t'], h.ledger[t], k);
          AgreeThrough(was.log, h.ledger[t'], h.ledger[t], k, k);
          assert Agree(n.log, h.ledger[t], k);
          AgreeLess(h.ledger[t'], h.ledger[t], k, k);
          AgreeThrough(n.log, h.ledger[t], h.ledger[t'], k, k);
        }
      }
    }
  }

  lemma FollowVouched(c: Cluster, h: History, c': Cluster, h': History, i: NodeId, n: Node, t: nat)
    requires VotesOk(c, h) && Vouched(c, h) && Follow(c, h, h', i, n, t) && Shrinks(c, h, c', h') &&
      c'.nodes == c.nodes[i := n]
    ensures Vouched(c', h')
  {
    hide LogOk, TermsUpTo, Choosable, Agree;
    forall j, v, t': nat, k: nat |
      && j in c'.nodes && c'.nodes[j].role == Candidate && VoteOf(h', c'.nodes[j].term, v) == Some(j)
      && Slot(h', t', k) && t' < c'.nodes[j].term && k <= Ack(h', t', v) && Choosable(c', h', t', k)
      ensures Agree(c'.nodes[j].log, h'.ledger[t'], k)
    {
      assert j != i && VoteOf(h, c.nodes[j].term, v) == Some(j) && c.nodes[j].term <= c.nodes[v].term;
      assert Ack(h', t', v) == Ack(h, t', v);
      assert Slot(h, t', k) && Choosable(c, h, t', k);
    }
  }

  /** Taking a leader's entries, or rejecting them and truncating, keeps the invariant and every committed entry. */
  lemma TakesInv(c: Cluster, h: History, i: NodeId, n: Node, req: AppendRequest, ok: bool) returns (h': History)
    requires Inv(c, h) && Takes(c, h, i, n, req) && ok == AppendLog(c.nodes[i].log, req).1
    ensures h' == After(h, i, req, AppendLog(c.nodes[i].log, req))
    ensures Extends(h, h') && Follow(c, h, h', i, n, req.term)
    ensures Inv(Update(c, i, n, {AppendReplied(req.leader, AppendReply(req.term, ok, |n.log|, i))}), h')
  {
    hide LedgersOk, VotesOk, ElectedOk, LogsOk, AcksOk, RolesOk, NetOk, CommitsOk, Complete, Retained, Vouched;
    hide Follow, Local, Shrinks, AppendLog, AppendOk;
    h' := After(h, i, req, AppendLog(c.nodes[i].log, req));
    var sent := {AppendReplied(req.leader, AppendReply(req.term, ok, |n.log|, i))};
    var c' := Update(c, i, n, sent);
    TakesFollows(c, h, i, n, req);
    FollowBase(c, h, h', i, n, req.term, sent);
    LocalExtends(h, h', i);
    FollowShrinks(c, h, c', h', i, n, req.term, sent);
    FrameComplete(c, h, c', h');
    FollowRetained(c, h, c', h', i, n, req.term);
    FollowVouched(c, h, c', h', i, n, req.term);
  }
}
