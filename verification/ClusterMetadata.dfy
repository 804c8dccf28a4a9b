/** The replicated cluster metadata: commands, log entries, and the state machine they drive. */
module ClusterMetadata {

  /** 1-based log positions. */
  type Pos = n: nat | 1 <= n witness 1

  datatype Command =
    | RegisterNode(nodeId: string, address: string, role: string)
    | DecommissionNode(nodeId: string)
    | AcquireLease(resource: string, holder: string, ttlMs: nat, epoch: nat)
    | ReleaseLease(resource: string, holder: string)
    | UpdateMetadata(key: string, value: string, version: nat)
    | FenceEpoch(nodeId: string, minValidEpoch: nat)
    | Noop

  datatype Entry = Entry(index: Pos, term: nat, command: Command, timestampSecs: nat)

  type Log = seq<Entry>

  datatype Lease = Lease(resource: string, holder: string, grantedAt: nat, expiresAt: nat, epoch: nat)

  datatype Metadata = Metadata(
    nodes: map<string, (string, string)>,
    leases: map<string, Lease>,
    metadata: map<string, (string, nat)>,
    fencedEpochs: map<string, nat>)

  const EMPTY := Metadata(map[], map[], map[], map[])

  function Max(a: nat, b: nat): nat { if a < b then b else a }

  /** One command, applied with the local clock reading `now`. */
  function Apply(s: Metadata, command: Command, now: nat): Metadata
  {
    match command
    case RegisterNode(id, address, role) => s.(nodes := s.nodes[id := (address, role)])
    case DecommissionNode(id) => s.(nodes := s.nodes - {id})
    case AcquireLease(resource, holder, ttlMs, epoch) =>
      if holder in s.fencedEpochs && epoch < s.fencedEpochs[holder] then s
      else s.(leases := s.leases[resource := Lease(resource, holder, now, now + Max(ttlMs / 1000, 1), epoch)])
    case ReleaseLease(resource, holder) =>
      if resource in s.leases && s.leases[resource].holder == holder then s.(leases := s.leases - {resource}) else s
    case UpdateMetadata(key, value, version) => s.(metadata := s.metadata[key := (value, version)])
    case FenceEpoch(id, minEpoch) => s.(fencedEpochs := s.fencedEpochs[id := minEpoch])
    case Noop => s
  }

  /** A run of entries, all applied with the same clock reading. */
  function ApplyEntries(s: Metadata, entries: Log, now: nat): Metadata
  {
    if entries == [] then s
    else Apply(ApplyEntries(s, entries[..|entries| - 1], now), entries[|entries| - 1].command, now)
  }

  /** The state without the lease timestamps, which come from each node's own clock. */
  function Untimed(s: Metadata): Metadata
  {
    s.(leases := Timeless(s.leases))
  }

  function Timeless(leases: map<string, Lease>): map<string, Lease>
  {
    map r | r in leases :: leases[r].(grantedAt := 0, expiresAt := 0)
  }

  /** What a log prefix means, independent of any clock. */
  function Meaning(entries: Log): Metadata
  {
    if entries == [] then EMPTY
    else Untimed(Apply(Meaning(entries[..|entries| - 1]), entries[|entries| - 1].command, 0))
  }

  /** Applying a command does not let clock readings leak into the untimed part of the state. */
  lemma ApplyIgnoresClock(s: Metadata, t: Metadata, command: Command, now: nat, now': nat)
    requires Untimed(s) == Untimed(t)
    ensures Untimed(Apply(s, command, now)) == Untimed(Apply(t, command, now'))
  {
    hide Timeless;
    match command
    case AcquireLease(resource, holder, ttlMs, epoch) =>
      var ttl := Max(ttlMs / 1000, 1);
      TimelessInsert(s.leases, Lease(resource, holder, now, now + ttl, epoch));
      TimelessInsert(t.leases, Lease(resource, holder, now', now' + ttl, epoch));
    case ReleaseLease(resource, _) =>
      TimelessRemove(s.leases, resource);
      TimelessRemove(t.leases, resource);
    case _ =>
  }

  lemma TimelessInsert(s: map<string, Lease>, l: Lease)
    ensures Timeless(s[l.resource := l]) == Timeless(s)[l.resource := l.(grantedAt := 0, expiresAt := 0)]
  {
  }

  lemma TimelessRemove(s: map<string, Lease>, resource: string)
    ensures Timeless(s - {resource}) == Timeless(s) - {resource}
    ensures resource in s <==> resource in Timeless(s)
    ensures resource in s ==> s[resource].holder == Timeless(s)[resource].holder
  {
  }

  /** A node whose state means `log[..lo]` and which applies `log[lo..hi]` then means `log[..hi]`. */
  lemma {:induction false} ApplyEntriesMeaning(s: Metadata, log: Log, lo: nat, hi: nat, now: nat)
    requires lo <= hi <= |log|
    requires Untimed(s) == Meaning(log[..lo])
    ensures Untimed(ApplyEntries(s, log[lo..hi], now)) == Meaning(log[..hi])
    decreases hi
  {
    hide Apply, Untimed;
    if lo == hi {
      assert log[lo..hi] == [];
    } else {
      ApplyEntriesMeaning(s, log, lo, hi - 1, now);
      assert log[lo..hi][..hi - lo - 1] == log[lo..hi - 1];
      assert log[..hi][..hi - 1] == log[..hi - 1];
      MeaningIsUntimed(log[..hi - 1]);
      ApplyIgnoresClock(ApplyEntries(s, log[lo..hi - 1], now), Meaning(log[..hi - 1]), log[hi - 1].command, now, 0);
    }
  }

  lemma {:induction false} MeaningIsUntimed(entries: Log)
    ensures Untimed(Meaning(entries)) == Meaning(entries)
  {
    if entries != [] {
      var s := Apply(Meaning(entries[..|entries| - 1]), entries[|entries| - 1].command, 0);
      assert Untimed(Untimed(s)).leases == Untimed(s).leases;
    }
  }
}
