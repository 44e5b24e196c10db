/** Opening a segment: generation and shard, and nodes for its replicas. */
module SegmentOpen {
  import opened Wrappers
  import opened Lists
  import opened ClusterState
  import opened Placement

  const DEFAULT_REPLICATION_FACTOR: nat := 3

  /** Who a segment belongs to. */
  datatype Owner = Owner(kind: SegmentKind, namespace: string, name: string)

  predicate Of(g: Segment, o: Owner) {
    Owned(g, o.kind, o.namespace, o.name)
  }

  // ---------------------------------------------------------------- the latest generation

  function Members(segments: seq<Segment>, o: Owner, generation: nat): seq<Segment> {
    Filter(segments, (g: Segment) => Of(g, o) && g.generation == generation)
  }

  /** No owned segment is of a later generation; a generation after the first has a segment in it. */
  ghost predicate Latest(segments: seq<Segment>, o: Owner, generation: nat) {
    && generation >= 1
    && (forall g :: g in segments && Of(g, o) ==> g.generation <= generation)
    && (generation == 1 || exists g :: g in segments && Of(g, o) && g.generation == generation)
  }

  lemma {:induction false} NoMembers(segments: seq<Segment>, o: Owner, generation: nat)
    requires forall g :: g in segments && Of(g, o) ==> g.generation != generation
    ensures Members(segments, o, generation) == []
    decreases |segments|
  {
    if segments != [] {
      NoMembers(segments[..|segments| - 1], o, generation);
    }
  }

  lemma {:induction false} LatestStep(seen: seq<Segment>, g: Segment, o: Owner, generation: nat)
    requires Latest(seen, o, generation)
    ensures Latest(seen + [g], o, if Of(g, o) && g.generation > generation then g.generation else generation)
  {
    if Of(g, o) && g.generation > generation {
      assert g in seen + [g];
    } else if generation > 1 {
      var h :| h in seen && Of(h, o) && h.generation == generation;
      assert h in seen + [g];
    }
  }

  lemma {:induction false} MembersStep(seen: seq<Segment>, g: Segment, o: Owner, generation: nat)
    ensures Members(seen + [g], o, generation)
         == Members(seen, o, generation) + if Of(g, o) && g.generation == generation then [g] else []
  {
    assert (seen + [g])[..|seen|] == seen;
  }

  /** The latest generation and its members among the first `i` segments: a segment of a later generation
      starts the members afresh, one of the same generation joins. */
  function Scan(all: seq<Segment>, o: Owner, i: nat): (nat, seq<Segment>)
    requires i <= |all|
  {
    if i == 0 then (1, [])
    else
      var g, t := all[i - 1], Scan(all, o, i - 1);
      if !Of(g, o) || g.generation < t.0 then t
      else if g.generation > t.0 then (g.generation, [g])
      else (t.0, t.1 + [g])
  }

  lemma {:induction false} ScanStep(seen: seq<Segment>, g: Segment, o: Owner, generation: nat, members: seq<Segment>,
                                    seen': seq<Segment>, generation': nat, members': seq<Segment>)
    requires Latest(seen, o, generation) && members == Members(seen, o, generation) && seen' == seen + [g]
    requires (generation', members') ==
             if !Of(g, o) || g.generation < generation then (generation, members)
             else if g.generation > generation then (g.generation, [g])
             else (generation, members + [g])
    ensures Latest(seen', o, generation') && members' == Members(seen', o, generation')
  {
    LatestStep(seen, g, o, generation);
    if Of(g, o) && g.generation > generation {
      NoMembers(seen, o, g.generation);
      MembersStep(seen, g, o, g.generation);
    } else {
      MembersStep(seen, g, o, generation);
    }
  }

  lemma {:induction false} ScanIsLatest(all: seq<Segment>, o: Owner, i: nat)
    requires i <= |all|
    ensures var t := Scan(all, o, i); Latest(all[..i], o, t.0) && t.1 == Members(all[..i], o, t.0)
  {
    if i > 0 {
      var t, t' := Scan(all, o, i - 1), Scan(all, o, i);
      ScanIsLatest(all, o, i - 1);
      assert all[..i] == all[..i - 1] + [all[i - 1]];
      ScanStep(all[..i - 1], all[i - 1], o, t.0, t.1, all[..i], t'.0, t'.1);
    }
  }

  /** One pass over the closed segments and then the open ones. */
  method FindGeneration(s: State, o: Owner) returns (generation: nat, members: seq<Segment>)
    ensures Latest(s.closed + s.open, o, generation)
    ensures members == Members(s.closed + s.open, o, generation)
  {
    generation, members := 1, [];
    var all := s.closed + s.open;
    for i := 0 to |all|
      invariant (generation, members) == Scan(all, o, i)
    {
      var g := all[i];
      if Of(g, o) {
        if g.generation > generation {
          generation, members := g.generation, [];
        }
        if g.generation == generation {
          members := members + [g];
        }
      }
      var none: seq<Segment> := [];
      assert none + [g] == [g];
    }
    ScanIsLatest(all, o, |all|);
    assert all[..|all|] == all;
  }

  // ---------------------------------------------------------------- a free shard

  predicate ShardTaken(members: seq<Segment>, shard: nat) {
    exists k :: 0 <= k < |members| && members[k].shard == shard
  }

  /** `n` distinct shards need at least `n` segments. */
  lemma {:induction false} Pigeonhole(members: seq<Segment>, n: nat)
    requires forall i :: 1 <= i <= n ==> ShardTaken(members, i)
    ensures |members| >= n
  {
    var taken := set k | 0 <= k < |members| :: members[k].shard;
    ShardsOf(members);
    forall i | i in UpTo(n) ensures i in taken {
      assert ShardTaken(members, i);
    }
    SubsetSize(UpTo(n), taken);
  }

  function UpTo(n: nat): (r: set<nat>)
    ensures |r| == n
    ensures forall i :: i in r <==> 1 <= i <= n
  {
    if n == 0 then {} else UpTo(n - 1) + {n}
  }

  lemma {:induction false} ShardsOf(members: seq<Segment>)
    ensures |set k | 0 <= k < |members| :: members[k].shard| <= |members|
  {
    if members != [] {
      var front, last := members[..|members| - 1], members[|members| - 1];
      ShardsOf(front);
      assert (set k | 0 <= k < |members| :: members[k].shard)
          == (set k | 0 <= k < |front| :: front[k].shard) + {last.shard};
    }
  }

  lemma {:induction false} SubsetSize<T>(a: set<T>, b: set<T>)
    requires a <= b
    ensures |a| <= |b|
  {
    assert b == a + (b - a);
  }

  predicate TakenBy(members: seq<Segment>, node: nat) {
    exists k :: 0 <= k < |members| && (members[k].nodes.primary == node || node in members[k].nodes.done)
  }

  method NodeTakesPart(members: seq<Segment>, node: nat) returns (found: bool)
    ensures found <==> TakenBy(members, node)
  {
    for k := 0 to |members|
      invariant !TakenBy(members[..k], node)
    {
      assert members[..k + 1] == members[..k] + [members[k]];
      if members[k].nodes.primary == node || node in members[k].nodes.done {
        return true;
      }
    }
    assert members[..|members|] == members;
    found := false;
  }

  method ShardInUse(members: seq<Segment>, shard: nat) returns (found: bool)
    ensures found <==> ShardTaken(members, shard)
  {
    for k := 0 to |members|
      invariant forall j :: 0 <= j < k ==> members[j].shard != shard
    {
      if members[k].shard == shard {
        return true;
      }
    }
    found := false;
  }

  /** The first free shard; the first one when the number of shards is unlimited. */
  ghost predicate FirstFree(members: seq<Segment>, shards: nat, shard: nat) {
    if shards == 0 then shard == 1
    else 1 <= shard <= shards && !ShardTaken(members, shard) && forall i :: 1 <= i < shard ==> ShardTaken(members, i)
  }

  method FindShard(members: seq<Segment>, shards: nat) returns (shard: nat)
    requires shards > 0 ==> |members| < shards
    ensures FirstFree(members, shards, shard)
  {
    var i := 1;
    while i <= shards
      invariant 1 <= i <= shards + 1
      invariant forall j :: 1 <= j < i ==> ShardTaken(members, j)
    {
      var found := ShardInUse(members, i);
      if !found {
        return i;
      }
      i := i + 1;
    }
    if shards > 0 {
      Pigeonhole(members, shards);
    }
    shard := 1;
  }

  /** The generation after the latest one once that is full or the node has taken part in it. */
  ghost predicate Allocated(s: State, o: Owner, shards: nat, node: nat, generation: nat, shard: nat, latest: nat) {
    var members := Members(s.closed + s.open, o, latest);
    && Latest(s.closed + s.open, o, latest)
    && if (shards > 0 && |members| >= shards) || TakenBy(members, node)
       then generation == latest + 1 && shard == 1
       else generation == latest && FirstFree(members, shards, shard)
  }

  /** No other segment of the owner has this generation and shard, and none of this generation has had
      the node as primary or is complete on it. */
  ghost predicate Unshared(s: State, o: Owner, shards: nat, node: nat, generation: nat, shard: nat) {
    forall g :: (g in s.closed || g in s.open) && Of(g, o) && g.generation == generation ==>
      && (shards > 0 ==> g.shard != shard)
      && g.nodes.primary != node && node !in g.nodes.done
  }

  method Allocate(s: State, o: Owner, shards: nat, node: nat) returns (generation: nat, shard: nat, ghost latest: nat)
    ensures Allocated(s, o, shards, node, generation, shard, latest)
    ensures shards > 0 ==> 1 <= shard <= shards
    ensures Unshared(s, o, shards, node, generation, shard)
  {
    var members;
    generation, members := FindGeneration(s, o);
    latest := generation;
    assert forall g :: (g in s.closed || g in s.open) && Of(g, o) && g.generation == latest ==> g in members;
    shard := 1;
    if shards > 0 && |members| >= shards {
      generation := generation + 1;
    } else {
      var found := NodeTakesPart(members, node);
      if found {
        generation := generation + 1;
      } else {
        shard := FindShard(members, shards);
      }
    }
  }

  /** With an unlimited number of shards every segment is shard one: a new one shares generation and shard
      with another exactly when the latest generation has a segment of shard one and the node has taken no
      part in it. */
  lemma {:induction false} UnlimitedShardsShare(s: State, o: Owner, node: nat, generation: nat, shard: nat, latest: nat)
    requires Allocated(s, o, 0, node, generation, shard, latest)
    ensures shard == 1
    ensures (exists g :: g in s.closed + s.open && Of(g, o) && g.generation == generation && g.shard == shard)
            <==> var members := Members(s.closed + s.open, o, latest);
                 ShardTaken(members, 1) && !TakenBy(members, node)
  {
    var all, members := s.closed + s.open, Members(s.closed + s.open, o, latest);
    if ShardTaken(members, 1) && !TakenBy(members, node) {
      var k :| 0 <= k < |members| && members[k].shard == 1;
      assert members[k] in members;
    }
    if g :| g in all && Of(g, o) && g.generation == generation && g.shard == shard {
      assert generation == latest && g in members;
      var k :| 0 <= k < |members| && members[k] == g;
      assert members[k].shard == 1;
    }
  }

  // ---------------------------------------------------------------- replicas

  function Candidates(nodes: seq<Node>, except: nat): seq<nat>
  {
    if nodes == [] then []
    else
      var front, n := nodes[..|nodes| - 1], nodes[|nodes| - 1];
      Candidates(front, except) + if n.id != except && n.state.Alive? then [n.id] else []
  }

  predicate IsAlive(nodes: seq<Node>, n: nat) {
    exists k :: 0 <= k < |nodes| && nodes[k].id == n && nodes[k].state.Alive?
  }

  lemma {:induction false} CandidatesAre(nodes: seq<Node>, except: nat)
    ensures forall n :: n in Candidates(nodes, except) <==> n != except && IsAlive(nodes, n)
    decreases |nodes|
  {
    if nodes != [] {
      CandidatesAre(nodes[..|nodes| - 1], except);
    }
  }

  lemma {:induction false} CandidatesDistinct(nodes: seq<Node>, except: nat)
    requires Ascending(nodes, NodeID)
    ensures Distinct(Candidates(nodes, except))
    decreases |nodes|
  {
    if nodes != [] {
      var front, last := nodes[..|nodes| - 1], nodes[|nodes| - 1];
      CandidatesDistinct(front, except);
      CandidatesAre(front, except);
      assert last.id !in Candidates(front, except) by {
        assert forall k :: 0 <= k < |front| ==> NodeID(nodes[k]) < NodeID(last);
      }
    }
  }

  /** The number of segments a node hosts. */
  function Weight(s: State, n: nat): nat {
    Hosted(s.open, n) + Hosted(s.closed, n)
  }

  method ChooseReplicas(s: State, primary: nat, factor: nat)
    returns (replicating: seq<nat>, ghost counts: Counts)
    requires Ascending(s.nodes, NodeID)
    ensures forall n: nat :: Load(counts, n) == Weight(s, n)
    ensures LeastLoaded(Candidates(s.nodes, primary), counts, replicating)
    ensures |replicating| == if factor <= 1 then 0 else Min(factor - 1, |Candidates(s.nodes, primary)|)
  {
    var loads := CountSegmentsPerNode(s);
    counts := loads;
    replicating := [];
    if factor > 1 {
      var candidates := [];
      for i := 0 to |s.nodes|
        invariant candidates == Candidates(s.nodes[..i], primary)
      {
        assert s.nodes[..i + 1][..i] == s.nodes[..i];
        if s.nodes[i].id != primary && s.nodes[i].state.Alive? {
          candidates := candidates + [s.nodes[i].id];
        }
      }
      assert s.nodes[..|s.nodes|] == s.nodes;
      CandidatesDistinct(s.nodes, primary);
      var bumped;
      ghost var added;
      replicating, bumped, added := FillUp([], candidates, loads, factor - 1);
      assert replicating == added;
    }
  }

  // ---------------------------------------------------------------- the request

  predicate OwnerExists(s: State, o: Owner) {
    if o.kind.TopicSegment? then GetTopic(s, o.namespace, o.name).Some? else GetGroup(s, o.namespace, o.name).Some?
  }

  /** Segments for offset commits have one shard. */
  function Shards(s: State, o: Owner): nat
    requires OwnerExists(s, o)
  {
    if o.kind.TopicSegment? then GetTopic(s, o.namespace, o.name).value.shards else 1
  }

  function Factor(s: State, o: Owner): nat
    requires OwnerExists(s, o)
  {
    if o.kind.TopicSegment? then GetTopic(s, o.namespace, o.name).value.replicationFactor
    else DEFAULT_REPLICATION_FACTOR
  }

  function OpenOf(s: State, o: Owner): (r: seq<Segment>)
    ensures forall g :: g in r <==> g in s.open && Of(g, o)
  {
    OpenSegmentsFor(s, o.kind, o.namespace, o.name)
  }

  datatype Answer = NotFound | Existing(id: nat, primary: nat) | New(create: Command)

  /** What a newly created segment promises its owner. */
  ghost predicate WellPlaced(s: State, o: Owner, node: nat, c: Command)
    requires OwnerExists(s, o)
  {
    && c.CreateSegment? && Of(Opened(c), o) && c.primary == node
    && (Shards(s, o) > 0 ==> 1 <= c.shard <= Shards(s, o) && |OpenOf(s, o)| < Shards(s, o))
    && Unshared(s, o, Shards(s, o), node, c.generation, c.shard)
    && (exists latest: nat :: Allocated(s, o, Shards(s, o), node, c.generation, c.shard, latest))
    && Distinct(c.replicating) && node !in c.replicating
    && |c.replicating| == (if Factor(s, o) <= 1 then 0 else Min(Factor(s, o) - 1, |Candidates(s.nodes, node)|))
    && (forall n :: n in c.replicating ==> IsAlive(s.nodes, n))
    && (forall n, m :: n in c.replicating && m in Candidates(s.nodes, node) && m !in c.replicating ==>
          Weight(s, n) <= Weight(s, m))
  }

  method Create(s: State, node: nat, o: Owner, nextID: nat, now: int) returns (c: Command)
    requires Ascending(s.nodes, NodeID) && OwnerExists(s, o)
    requires Shards(s, o) > 0 ==> |OpenOf(s, o)| < Shards(s, o)
    ensures WellPlaced(s, o, node, c) && c.id == nextID && c.openedAt == now
  {
    var generation, shard, latest := Allocate(s, o, Shards(s, o), node);
    var replicating, counts := ChooseReplicas(s, node, Factor(s, o));
    CandidatesAre(s.nodes, node);
    c := CreateSegment(nextID, o.namespace, o.name, o.kind, generation, shard, now, node, replicating);
  }

  /** `pick` is the random choice among the open segments and `nextID` the next segment ID. */
  method Open(s: State, node: nat, o: Owner, pick: nat, nextID: nat, now: int) returns (r: Answer)
    requires Ascending(s.nodes, NodeID)
    ensures r.NotFound? <==> FindNodeID(s.nodes, node, 0) == |s.nodes| || !OwnerExists(s, o)
    ensures r.Existing? ==>
      && (exists g :: g in OpenOf(s, o) && g.id == r.id && g.nodes.primary == r.primary)
      && (r.primary != node ==> 0 < Shards(s, o) <= |OpenOf(s, o)|
                                && forall g :: g in OpenOf(s, o) ==> g.nodes.primary != node)
    ensures r.New? ==> WellPlaced(s, o, node, r.create) && r.create.id == nextID && r.create.openedAt == now
    ensures r.New? ==> forall g :: g in OpenOf(s, o) ==> g.nodes.primary != node
  {
    if FindNodeID(s.nodes, node, 0) == |s.nodes| || !OwnerExists(s, o) {
      return NotFound;
    }
    var open := OpenOf(s, o);
    for i := 0 to |open|
      invariant forall j :: 0 <= j < i ==> open[j].nodes.primary != node
    {
      if open[i].nodes.primary == node {
        return Existing(open[i].id, node);
      }
    }
    var shards := Shards(s, o);
    if shards > 0 && |open| >= shards {
      var g := open[pick % |open|];
      return Existing(g.id, g.nodes.primary);
    }
    var c := Create(s, node, o, nextID, now);
    r := New(c);
  }
}
