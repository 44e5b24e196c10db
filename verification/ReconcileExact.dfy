/** What the reconciler goes by, spelled out: who owns a segment, what is alive, how loaded a node is, and which
    segments are deleted. */
module ReconcileExact {
  import opened Wrappers
  import opened Lists
  import opened ClusterState
  import opened ClusterInvariant
  import opened Placement
  import opened SegmentOpen
  import opened Reconciler
  import opened ReconcilePass

  // ---------------------------------------------------------------- owners

  /** A segment of a topic is owned by the topic and has its settings; one with offset commits is owned by its
      group, has one shard and three copies. */
  lemma {:induction false} OwnerSettings(s: State, namespace: string, name: string)
    ensures var o := Owner(TopicSegment, namespace, name);
            && (OwnerExists(s, o) <==> GetTopic(s, namespace, name).Some?)
            && (OwnerExists(s, o) ==>
                  && Shards(s, o) == GetTopic(s, namespace, name).value.shards
                  && Factor(s, o) == GetTopic(s, namespace, name).value.replicationFactor)
    ensures var o := Owner(OffsetCommitsSegment, namespace, name);
            && (OwnerExists(s, o) <==> GetGroup(s, namespace, name).Some?)
            && (OwnerExists(s, o) ==> Shards(s, o) == 1 && Factor(s, o) == 3)
  {
  }

  // ---------------------------------------------------------------- generations and shards

  predicate OwnedBy(g: Segment, o: Owner) {
    g.kind == o.kind && g.ownerNamespace == o.namespace && g.ownerName == o.name
  }

  predicate HasShard(members: seq<Segment>, shard: nat) {
    exists g :: g in members && g.shard == shard
  }

  /** A new segment goes into the latest generation of its owner, under the first shard that is free there, unless
      the generation has all its shards or the node has taken part in it; then it starts the next one. */
  lemma {:induction false} AllocationRule(s: State, o: Owner, shards: nat, node: nat, generation: nat, shard: nat,
                                          latest: nat)
    requires Allocated(s, o, shards, node, generation, shard, latest)
    ensures latest >= 1 && forall g :: g in s.closed + s.open && OwnedBy(g, o) ==> g.generation <= latest
    ensures latest > 1 ==> exists g :: g in s.closed + s.open && OwnedBy(g, o) && g.generation == latest
    ensures var members := Members(s.closed + s.open, o, latest);
            && (forall g :: g in members <==> g in s.closed + s.open && OwnedBy(g, o) && g.generation == latest)
            && if (shards > 0 && |members| >= shards)
                  || exists g :: g in members && (g.nodes.primary == node || node in g.nodes.done)
               then generation == latest + 1 && shard == 1
               else
                 && generation == latest && (shards == 0 ==> shard == 1)
                 && (shards > 0 ==>
                      && 1 <= shard <= shards && (forall g :: g in members ==> g.shard != shard)
                      && forall i :: 1 <= i < shard ==> HasShard(members, i))
  {
    var members := Members(s.closed + s.open, o, latest);
    assert forall g :: Of(g, o) <==> OwnedBy(g, o);
    TakenMeans(members, node);
    forall i: nat ensures ShardTaken(members, i) <==> HasShard(members, i) {
      ShardMeans(members, i);
    }
  }

  lemma {:induction false} TakenMeans(members: seq<Segment>, node: nat)
    ensures TakenBy(members, node) <==> exists g :: g in members && (g.nodes.primary == node || node in g.nodes.done)
  {
    if TakenBy(members, node) {
      var k :| 0 <= k < |members| && (members[k].nodes.primary == node || node in members[k].nodes.done);
      assert members[k] in members;
    }
  }

  lemma {:induction false} ShardMeans(members: seq<Segment>, i: nat)
    ensures ShardTaken(members, i) <==> HasShard(members, i)
  {
    if ShardTaken(members, i) {
      var k :| 0 <= k < |members| && members[k].shard == i;
      assert members[k] in members;
    }
  }

  // ---------------------------------------------------------------- alive nodes

  lemma {:induction false} AliveNext(nodes: seq<Node>, n: nat)
    requires nodes != []
    ensures var front, last := nodes[..|nodes| - 1], nodes[|nodes| - 1];
            IsAlive(nodes, n) <==> IsAlive(front, n) || (last.id == n && last.state.Alive?)
  {
    var front := nodes[..|nodes| - 1];
    if IsAlive(front, n) {
      var k :| 0 <= k < |front| && front[k].id == n && front[k].state.Alive?;
      assert nodes[k] == front[k];
    }
  }

  /** The table says up, and the list of candidates has it, exactly for the nodes that are listed as alive. */
  lemma {:induction false} TablesAreRight(nodes: seq<Node>, n: nat)
    requires Ascending(nodes, NodeID)
    ensures IsUp(StatesOf(nodes), n) <==> exists k :: 0 <= k < |nodes| && nodes[k].id == n && nodes[k].state.Alive?
    ensures n in AliveIDs(nodes) <==> exists k :: 0 <= k < |nodes| && nodes[k].id == n && nodes[k].state.Alive?
    ensures n in StatesOf(nodes) <==> exists k :: 0 <= k < |nodes| && nodes[k].id == n
  {
    assert Listed(nodes, n) <==> exists k :: 0 <= k < |nodes| && nodes[k].id == n;
    StatesListed(nodes);
    UpIsAlive(nodes, n);
  }

  lemma {:induction false} UpIsAlive(nodes: seq<Node>, n: nat)
    requires Ascending(nodes, NodeID)
    ensures IsUp(StatesOf(nodes), n) <==> IsAlive(nodes, n)
    ensures n in AliveIDs(nodes) <==> IsAlive(nodes, n)
    decreases |nodes|
  {
    if nodes != [] {
      UpIsAlive(nodes[..|nodes| - 1], n);
      AliveNext(nodes, n);
      LastIsNew(nodes);
    }
  }

  // ---------------------------------------------------------------- loads

  /** Segment `k` names node `n`: as primary (list 0), as the `i`-th replica (list 1), or as the `i`-th complete
      copy (list 2). */
  predicate NamesAt(g: Segment, list: nat, i: nat, n: nat) {
    || (list == 0 && i == 0 && g.nodes.primary == n && n > 0)
    || (list == 1 && i < |g.nodes.replicating| && g.nodes.replicating[i] == n)
    || (list == 2 && i < |g.nodes.done| && g.nodes.done[i] == n)
  }

  ghost function Spots(segments: seq<Segment>, n: nat): set<(nat, nat, nat)> {
    set k, list, i | && 0 <= k < |segments| && 0 <= list < 3
                     && 0 <= i < 1 + |segments[k].nodes.replicating| + |segments[k].nodes.done|
                     && NamesAt(segments[k], list, i, n) :: (k, list, i)
  }

  ghost function SpotsIn(ids: seq<nat>, k: nat, list: nat, n: nat): set<(nat, nat, nat)> {
    set i | 0 <= i < |ids| && ids[i] == n :: (k, list, i)
  }

  lemma {:induction false} SpotsInCount(ids: seq<nat>, k: nat, list: nat, n: nat)
    ensures |SpotsIn(ids, k, list, n)| == multiset(ids)[n]
    decreases |ids|
  {
    if ids == [] {
      assert SpotsIn(ids, k, list, n) == {};
    } else {
      var j := |ids| - 1;
      var front := ids[..j];
      SpotsInCount(front, k, list, n);
      assert ids == front + [ids[j]];
      assert SpotsIn(ids, k, list, n) == SpotsIn(front, k, list, n) + if ids[j] == n then {(k, list, j)} else {};
    }
  }

  /** The spots of the last segment. */
  ghost function LastSpots(g: Segment, k: nat, n: nat): set<(nat, nat, nat)> {
    (if g.nodes.primary == n && n > 0 then {(k, 0, 0)} else {})
    + SpotsIn(g.nodes.replicating, k, 1, n) + SpotsIn(g.nodes.done, k, 2, n)
  }

  lemma {:induction false} LastSpotsCount(g: Segment, k: nat, n: nat)
    ensures |LastSpots(g, k, n)| == Copies(g, n)
  {
    SpotsInCount(g.nodes.replicating, k, 1, n);
    SpotsInCount(g.nodes.done, k, 2, n);
    var a: set<(nat, nat, nat)> := if g.nodes.primary == n && n > 0 then {(k, 0, 0)} else {};
    var b, c := SpotsIn(g.nodes.replicating, k, 1, n), SpotsIn(g.nodes.done, k, 2, n);
    assert a !! b && (a + b) !! c;
  }

  lemma {:induction false} SpotsSplit(segments: seq<Segment>, k: nat, n: nat)
    requires k + 1 == |segments|
    ensures Spots(segments, n) == Spots(segments[..k], n) + LastSpots(segments[k], k, n)
    ensures Spots(segments[..k], n) !! LastSpots(segments[k], k, n)
  {
    forall x | x in Spots(segments, n) ensures x in Spots(segments[..k], n) + LastSpots(segments[k], k, n) {
      if x.0 < k {
        assert segments[..k][x.0] == segments[x.0];
      }
    }
    forall x | x in Spots(segments[..k], n) + LastSpots(segments[k], k, n) ensures x in Spots(segments, n) {
      if x in Spots(segments[..k], n) {
        assert segments[..k][x.0] == segments[x.0];
      }
    }
  }

  /** The load of a node is the number of places in which segments name it. */
  lemma {:induction false} HostedIsSpots(segments: seq<Segment>, n: nat)
    ensures Hosted(segments, n) == |Spots(segments, n)|
    decreases |segments|
  {
    if segments == [] {
      assert Spots(segments, n) == {};
    } else {
      var k := |segments| - 1;
      HostedIsSpots(segments[..k], n);
      LastSpotsCount(segments[k], k, n);
      SpotsSplit(segments, k, n);
    }
  }

  // ---------------------------------------------------------------- deletion

  /** An open segment is deleted exactly when its topic or group is gone. */
  lemma {:induction false} OpenDeletedExactly(s: State, g: Segment, counts: Counts, report: Report, action: Action)
    requires OpenDecided(s, g, counts, report, action)
    ensures action == Delete <==>
      if g.kind.TopicSegment? then GetTopic(s, g.ownerNamespace, g.ownerName).None?
      else GetGroup(s, g.ownerNamespace, g.ownerName).None?
  {
  }

  /** A closed segment is deleted exactly when it held offset commits, its topic is gone, or the topic has a
      positive retention that ended before `now` and no group has a commit below the segment's size. */
  lemma {:induction false} ClosedDeletedExactly(s: State, g: Segment, counts: Counts, now: int, action: Action)
    requires ClosedDecided(s, g, counts, now, action)
    ensures action == Delete <==>
      || g.kind.OffsetCommitsSegment?
      || GetTopic(s, g.ownerNamespace, g.ownerName).None?
      || (var retention := GetTopic(s, g.ownerNamespace, g.ownerName).value.retention;
          && retention > 0 && g.closedAt + retention < now
          && !SomeNeeds(s, g.id, g.size))
  {
    NeededMeans(s, g);
  }

  predicate SomeNeeds(s: State, id: nat, size: int) {
    exists n :: n in s.namespaces &&
      exists c :: c in n.groups && exists m :: m in c.commits && m.segment == id && m.offset < size
  }

  lemma {:induction false} NeededMeans(s: State, g: Segment)
    ensures Needed(s, g) <==> SomeNeeds(s, g.id, g.size)
  {
    forall c: Group
      ensures NeededBy(c, g) <==> exists m :: m in c.commits && m.segment == g.id && m.offset < g.size
    {
      if NeededBy(c, g) {
        var k :| 0 <= k < |c.commits| && c.commits[k].segment == g.id && c.commits[k].offset < g.size;
        assert c.commits[k] in c.commits;
      }
    }
  }

  // ---------------------------------------------------------------- which copies stay

  /** Trimming keeps the first alive replicas in their order, and those that join come after all alive ones. */
  lemma {:induction false} AliveReplicasFirst(nodes: Nodes, factor: nat, states: States, candidates: seq<nat>,
                                              counts: Counts, plan: Plan)
    requires OpenPlan(nodes, factor, states, candidates, counts, plan) && plan.Update?
    ensures var kept := Up(nodes.replicating, states);
            && plan.nodes.primary == nodes.primary && plan.nodes.done == []
            && if 1 + |kept| > factor
               then plan.nodes.replicating <= kept && 1 + |plan.nodes.replicating| == factor
               else kept <= plan.nodes.replicating && 1 + |plan.nodes.replicating| <= factor
  {
  }

  /** For a closed segment complete copies count first, then the others, each in their order. */
  lemma {:induction false} CompleteCopiesFirst(nodes: Nodes, factor: nat, states: States, candidates: seq<nat>,
                                               counts: Counts, plan: Plan)
    requires ClosedPlan(nodes, factor, states, candidates, counts, plan) && plan.Update?
    ensures var done, kept := Up(nodes.done, states), Up(nodes.replicating, states);
            && plan.nodes.primary == 0
            && if |done| + |kept| > factor
               then
                 && plan.nodes.done <= done && plan.nodes.replicating <= kept
                 && |plan.nodes.done| == Min(|done|, factor)
                 && |plan.nodes.done| + |plan.nodes.replicating| == factor
               else plan.nodes.done == done && kept <= plan.nodes.replicating
                    && |done| + |plan.nodes.replicating| <= factor
  {
  }

  /** The alive ones among listed nodes are in the order of the list. */
  lemma {:induction false} UpKeepsOrder(ids: seq<nat>, n: nat, states: States)
    ensures Up([], states) == []
    ensures Up(ids + [n], states) == if n in states && states[n].Alive? then Up(ids, states) + [n] else Up(ids, states)
  {
    UpPush(ids, n, states);
  }
}
