/** What a lookup in the replicated metadata returns, in terms of the commands in the log. */
module MetadataHistory {
  import opened Wrappers
  import opened ClusterMetadata

  /** What a command can be about. */
  datatype Topic = OfNode(id: string) | OfKey(key: string) | OfFence(id: string)

  predicate About(topic: Topic, c: Command)
  {
    match topic
    case OfNode(id) => (c.RegisterNode? || c.DecommissionNode?) && c.nodeId == id
    case OfKey(key) => c.UpdateMetadata? && c.key == key
    case OfFence(id) => c.FenceEpoch? && c.nodeId == id
  }

  /** The last command in the log about a topic. */
  function Last(log: Log, topic: Topic): Option<Command>
  {
    if log == [] then None
    else
      var c := log[|log| - 1].command;
      if About(topic, c) then Some(c) else Last(log[..|log| - 1], topic)
  }

  /** It is the one after which no other is about the topic. */
  lemma {:induction false} LastIs(log: Log, topic: Topic, i: nat)
    requires i < |log| && About(topic, log[i].command)
    requires forall j :: i < j < |log| ==> !About(topic, log[j].command)
    ensures Last(log, topic) == Some(log[i].command)
  {
    hide About;
    if i < |log| - 1 { LastIs(log[..|log| - 1], topic, i); }
  }

  lemma {:induction false} NoLast(log: Log, topic: Topic)
    requires forall j :: 0 <= j < |log| ==> !About(topic, log[j].command)
    ensures Last(log, topic) == None
  {
    hide About;
    if log != [] { NoLast(log[..|log| - 1], topic); }
  }

  lemma MeaningSnoc(log: Log)
    requires log != []
    ensures var before, command := Meaning(log[..|log| - 1]), log[|log| - 1].command;
      && Meaning(log).nodes == Apply(before, command, 0).nodes
      && Meaning(log).metadata == Apply(before, command, 0).metadata
      && Meaning(log).fencedEpochs == Apply(before, command, 0).fencedEpochs
      && Meaning(log).leases == Timeless(Apply(before, command, 0).leases)
  {
  }

  /** Each map changes by the commands about it only. */
  lemma MapsSnoc(log: Log)
    requires log != []
    ensures var before, c := Meaning(log[..|log| - 1]), log[|log| - 1].command;
      && Meaning(log).metadata ==
           (if c.UpdateMetadata? then before.metadata[c.key := (c.value, c.version)] else before.metadata)
      && Meaning(log).fencedEpochs ==
           (if c.FenceEpoch? then before.fencedEpochs[c.nodeId := c.minValidEpoch] else before.fencedEpochs)
      && Meaning(log).nodes ==
           (if c.RegisterNode? then before.nodes[c.nodeId := (c.address, c.role)]
            else if c.DecommissionNode? then before.nodes - {c.nodeId} else before.nodes)
  {
    hide Meaning;
    MeaningSnoc(log);
  }

  /** A key is present once it was updated, with the value and version of its last update. */
  lemma {:induction false} KeyLookup(log: Log, key: string)
    ensures var s, last := Meaning(log).metadata, Last(log, OfKey(key));
      && (key in s <==> last.Some?)
      && (last.Some? ==> last.value.UpdateMetadata? && s[key] == (last.value.value, last.value.version))
  {
    if log != [] {
      KeyLookup(log[..|log| - 1], key);
      MapsSnoc(log);
      hide Meaning;
    }
  }

  /** A node is fenced at the epoch of the last fence set for it. */
  lemma {:induction false} FenceLookup(log: Log, id: string)
    ensures var s, last := Meaning(log).fencedEpochs, Last(log, OfFence(id));
      && (id in s <==> last.Some?)
      && (last.Some? ==> last.value.FenceEpoch? && s[id] == last.value.minValidEpoch)
  {
    if log != [] {
      FenceLookup(log[..|log| - 1], id);
      MapsSnoc(log);
      hide Meaning;
    }
  }

  /** A node is listed exactly when the last command about it registers it, with that address and role. */
  lemma {:induction false} NodeLookup(log: Log, id: string)
    ensures var s, last := Meaning(log).nodes, Last(log, OfNode(id));
      && (id in s <==> last.Some? && last.value.RegisterNode?)
      && (id in s ==> s[id] == (last.value.address, last.value.role))
  {
    if log != [] {
      NodeLookup(log[..|log| - 1], id);
      MapsSnoc(log);
      hide Meaning;
    }
  }

  // --- Leases ---

  /** Command `i` grants `resource`: it asks for it, and its holder is not fenced above the epoch it asks with. */
  predicate Grants(log: Log, i: nat, resource: string)
    requires i < |log|
  {
    var c := log[i].command;
    && c.AcquireLease? && c.resource == resource
    && var fence := Last(log[..i], OfFence(c.holder));
       fence.Some? && fence.value.FenceEpoch? ==> fence.value.minValidEpoch <= c.epoch
  }

  predicate Releases(c: Command, resource: string, holder: string)
  {
    c.ReleaseLease? && c.resource == resource && c.holder == holder
  }

  /** Command `i` grants `resource`, no later one grants it again, and its holder has not released it since. */
  predicate Holds(log: Log, i: nat, resource: string)
  {
    && i < |log| && Grants(log, i, resource)
    && forall j :: i < j < |log| ==>
      !Grants(log, j, resource) && !Releases(log[j].command, resource, log[i].command.holder)
  }

  lemma GrantsPrefix(log: Log, i: nat, resource: string)
    requires i < |log| - 1
    ensures Grants(log[..|log| - 1], i, resource) <==> Grants(log, i, resource)
  {
    assert log[..|log| - 1][..i] == log[..i];
  }

  lemma HoldsSnoc(log: Log, i: nat, resource: string)
    requires log != [] && i < |log| - 1
    ensures var n := |log| - 1; Holds(log, i, resource) <==>
      && Holds(log[..n], i, resource) && !Grants(log, n, resource)
      && !Releases(log[n].command, resource, log[i].command.holder)
  {
    hide Grants, Releases;
    var n := |log| - 1;
    forall j: nat | j < n ensures Grants(log[..n], j, resource) <==> Grants(log, j, resource) {
      GrantsPrefix(log, j, resource);
    }
    forall j | 0 <= j < n ensures log[..n][j] == log[j] { }
  }

  predicate LeaseIs(leases: map<string, Lease>, resource: string, c: Command)
  {
    c.AcquireLease? && resource in leases &&
    leases[resource] == Lease(resource, c.holder, 0, 0, c.epoch)
  }

  /** What the last command does to the lease on a resource. */
  lemma LeaseSnoc(log: Log, resource: string)
    requires log != []
    ensures var n := |log| - 1;
      var c, before, after := log[n].command, Meaning(log[..n]).leases, Meaning(log).leases;
      && (Grants(log, n, resource) ==> LeaseIs(after, resource, c))
      && (!Grants(log, n, resource) ==>
        && (resource in after <==> resource in before && !Releases(c, resource, before[resource].holder))
        && (resource in after ==>
             after[resource] == before[resource].(grantedAt := 0, expiresAt := 0)))
  {
    hide Meaning, Last;
    MeaningSnoc(log);
    var c := log[|log| - 1].command;
    if c.AcquireLease? { FenceLookup(log[..|log| - 1], c.holder); }
  }

  /** A resource is leased exactly when some grant of it still holds, and then to that holder at that epoch. */
  lemma {:induction false} LeaseLookup(log: Log, resource: string)
    ensures resource in Meaning(log).leases <==> exists i :: 0 <= i < |log| && Holds(log, i, resource)
    ensures forall i :: 0 <= i < |log| && Holds(log, i, resource) ==>
      LeaseIs(Meaning(log).leases, resource, log[i].command)
  {
    hide Grants;
    if log != [] {
      var n := |log| - 1;
      var rest := log[..n];
      LeaseLookup(rest, resource);
      LeaseSnoc(log, resource);
      hide Meaning, Holds;
      if Grants(log, n, resource) {
        LastHolds(log, resource);
        assert Holds(log, n, resource);
      } else {
        forall i: nat | i < n ensures Holds(log, i, resource) <==>
          Holds(rest, i, resource) && !Releases(log[n].command, resource, log[i].command.holder)
        {
          HoldsSnoc(log, i, resource);
        }
        NotLast(log, resource);
        if resource in Meaning(log).leases {
          var i :| 0 <= i < |rest| && Holds(rest, i, resource);
          assert rest[i] == log[i] && LeaseIs(Meaning(rest).leases, resource, rest[i].command);
          assert Holds(log, i, resource);
        }
      }
    }
  }

  lemma LastHolds(log: Log, resource: string)
    requires log != [] && Grants(log, |log| - 1, resource)
    ensures forall i :: 0 <= i < |log| ==> (Holds(log, i, resource) <==> i == |log| - 1)
  {
    hide Grants;
  }

  lemma NotLast(log: Log, resource: string)
    requires log != [] && !Grants(log, |log| - 1, resource)
    ensures !Holds(log, |log| - 1, resource)
  {
  }

  /** A granted lease starts now and lasts the whole seconds asked for, at least one. */
  lemma LeaseTimes(s: Metadata, resource: string, holder: string, ttlMs: nat, epoch: nat, now: nat)
    requires holder in s.fencedEpochs ==> s.fencedEpochs[holder] <= epoch
    ensures var after := Apply(s, AcquireLease(resource, holder, ttlMs, epoch), now).leases;
      && resource in after && after[resource].grantedAt == now < after[resource].expiresAt
      && var seconds := after[resource].expiresAt - now;
         if ttlMs < 2000 then seconds == 1 else 1000 * seconds <= ttlMs < 1000 * seconds + 1000
  {
  }
}
