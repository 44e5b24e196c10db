/** Generations and shards over every run of the cluster. */
module ShardRuns {
  import opened Wrappers
  import opened Lists
  import opened ClusterState
  import opened ClusterInvariant
  import opened SegmentOpen
  import opened Reconciler
  import opened ReconcilePass
  import opened ClusterRuns

  predicate OfTopic(g: Segment, namespace: string, name: string) {
    g.kind.TopicSegment? && g.ownerNamespace == namespace && g.ownerName == name
  }

  /** No two segments of the topic, open or closed, have the same generation and shard. */
  ghost predicate PairsApart(s: State, namespace: string, name: string) {
    forall g, h :: g in s.open + s.closed && h in s.open + s.closed && g.id != h.id
                   && OfTopic(g, namespace, name) && OfTopic(h, namespace, name) ==>
      g.generation != h.generation || g.shard != h.shard
  }

  /** `h` is `g`, apart from its nodes and what closing adds. */
  predicate SamePlace(g: Segment, h: Segment) {
    && h.id == g.id && h.kind == g.kind && h.ownerNamespace == g.ownerNamespace && h.ownerName == g.ownerName
    && h.generation == g.generation && h.shard == g.shard
  }

  ghost predicate From(s: State, h: Segment) {
    exists g :: g in s.open + s.closed && SamePlace(g, h)
  }

  /** Every segment was there before, in the same place. */
  ghost predicate Derived(s: State, s': State) {
    forall h :: h in s'.open + s'.closed ==> From(s, h)
  }

  lemma {:induction false} DerivedKeepsPairs(s: State, s': State, namespace: string, name: string)
    requires PairsApart(s, namespace, name) && Derived(s, s')
    ensures PairsApart(s', namespace, name)
  {
    forall g, h | g in s'.open + s'.closed && h in s'.open + s'.closed && g.id != h.id
                  && OfTopic(g, namespace, name) && OfTopic(h, namespace, name)
      ensures g.generation != h.generation || g.shard != h.shard
    {
      assert From(s, g) && From(s, h);
      var g0 :| g0 in s.open + s.closed && SamePlace(g0, g);
      var h0 :| h0 in s.open + s.closed && SamePlace(h0, h);
      assert OfTopic(g0, namespace, name) && OfTopic(h0, namespace, name);
    }
  }

  lemma {:induction false} StaysFrom(s: State, h: Segment)
    requires h in s.open || h in s.closed
    ensures From(s, h)
  {
    assert SamePlace(h, h);
  }

  lemma {:induction false} SubsetDerived(s: State, s': State)
    requires forall h :: h in s'.open ==> h in s.open
    requires forall h :: h in s'.closed ==> h in s.closed
    ensures Derived(s, s')
  {
    forall h | h in s'.open + s'.closed ensures From(s, h) {
      StaysFrom(s, h);
    }
  }

  lemma {:induction false} CloseDerived(s: State, c: Command, s': State)
    requires SegmentsKept(s) && c.CloseSegment? && GetOpen(s, c.id).Some? && s' == CloseOpen(s, c)
    ensures Derived(s, s')
  {
    var g := GetOpen(s, c.id).value;
    CloseElements(s, c, g, s');
    assert SamePlace(g, Closed(g, c));
    forall h | h in s'.open + s'.closed ensures From(s, h) {
      if h != Closed(g, c) {
        StaysFrom(s, h);
      }
    }
  }

  lemma {:induction false} DoDerived(s: State, g: Segment, which: Which, action: Action)
    requires SegmentsKept(s) && g in In(s, which)
    ensures Derived(s, Do(s, g, which, action))
  {
    var r := DoElements(s, g, which, action);
    forall h | h in With(s, which, r).open + With(s, which, r).closed ensures From(s, h) {
      if h in Result(g, action) {
        assert SamePlace(g, h);
      } else {
        StaysFrom(s, h);
      }
    }
  }

  lemma {:induction false} PlainDerived(s: State, c: Command)
    requires Kept(s) && IsPlain(c) && Apply(s, c).Next?
    ensures Derived(s, Apply(s, c).state)
  {
    PlainKeepsSegments(s, c);
    SubsetDerived(s, Apply(s, c).state);
  }

  lemma {:induction false} ReplicaDoneDerived(s: State, id: nat, nodes: Nodes)
    requires Kept(s) && GetClosed(s, id).Some?
    ensures Derived(s, Apply(s, UpdateNodes(id, InClosed, nodes)).state)
  {
    ReplicaDoneIsDo(s, id, nodes);
    DoDerived(s, GetClosed(s, id).value, InClosed, Go(Update(nodes)));
  }

  lemma {:induction false} DirectDerived(s: State, e: Event)
    requires Kept(s) && Enabled(s, e) && (e.Plain? || e.Closes?)
    ensures Derived(s, After(s, e))
  {
    DirectIsFresh(s, e);
    if e.Plain? {
      PlainDerived(s, e.command);
    } else {
      CloseDerived(s, e.close, After(s, e));
    }
  }

  lemma {:induction false} DoneDerived(s: State, e: Event)
    requires Kept(s) && Enabled(s, e) && e.ReplicaDone?
    ensures Derived(s, After(s, e))
  {
    ReplicaDoneDerived(s, e.id, Completed(GetClosed(s, e.id).value.nodes, e.node));
  }

  lemma {:induction false} OtherDerived(s: State, e: Event)
    requires Kept(s) && Enabled(s, e) && !e.Opens? && !e.OffsetSegment?
    ensures Derived(s, After(s, e))
  {
    if e.Plain? || e.Closes? {
      DirectDerived(s, e);
    } else if e.ReplicaDone? {
      DoneDerived(s, e);
    } else {
      DoDerived(s, e.segment, if e.ReconcileOpen? then InOpen else InClosed, e.action);
    }
  }

  predicate NewPlace(s: State, c: Command, namespace: string, name: string)
    requires c.CreateSegment?
  {
    forall g :: g in s.open + s.closed && OfTopic(g, namespace, name) ==>
      g.generation != c.generation || g.shard != c.shard
  }

  /** A segment that is created for the topic takes a place that none has. */
  lemma {:induction false} CreateKeepsPairs(s: State, c: Command, s': State, namespace: string, name: string)
    requires SegmentsKept(s) && PairsApart(s, namespace, name) && c.CreateSegment? && !InUse(s, c.id)
    requires s' == OpenSegment(s, c)
    requires c.kind.TopicSegment? && c.namespace == namespace && c.name == name ==> NewPlace(s, c, namespace, name)
    ensures PairsApart(s', namespace, name)
  {
    OpenKeeps(s, c);
    var x := Opened(c);
    forall g, h | g in s'.open + s'.closed && h in s'.open + s'.closed && g.id != h.id
                  && OfTopic(g, namespace, name) && OfTopic(h, namespace, name)
      ensures g.generation != h.generation || g.shard != h.shard
    {
      assert g == x || g in s.open + s.closed;
      assert h == x || h in s.open + s.closed;
    }
  }

  lemma {:induction false} WellPlacedIsNew(s: State, o: Owner, node: nat, c: Command)
    requires o.kind.TopicSegment? && OwnerExists(s, o) && WellPlaced(s, o, node, c) && Shards(s, o) > 0
    ensures NewPlace(s, c, o.namespace, o.name)
  {
    forall g | g in s.open + s.closed && OfTopic(g, o.namespace, o.name)
      ensures g.generation != c.generation || g.shard != c.shard
    {
      assert Of(g, o);
    }
  }

  lemma {:induction false} OpensKeepsPairs(s: State, o: Owner, node: nat, c: Command, namespace: string, name: string,
                                           shards: nat)
    requires Kept(s) && OwnerExists(s, o) && WellPlaced(s, o, node, c) && !InUse(s, c.id)
    requires PairsApart(s, namespace, name) && shards > 0
    requires ShardsAre(s, Owner(TopicSegment, namespace, name), shards)
    ensures PairsApart(OpenSegment(s, c), namespace, name)
  {
    assert o == Owner(c.kind, c.namespace, c.name) by {
      assert Of(Opened(c), o);
    }
    if o == Owner(TopicSegment, namespace, name) {
      ShardsOfTopic(s, o, shards);
      WellPlacedIsNew(s, o, node, c);
    }
    CreateKeepsPairs(s, c, OpenSegment(s, c), namespace, name);
  }

  lemma {:induction false} OpensEvent(s: State, e: Event)
    requires Enabled(s, e) && e.Opens?
    ensures OwnerExists(s, e.owner) && WellPlaced(s, e.owner, e.node, e.create) && !InUse(s, e.create.id)
    ensures After(s, e) == OpenSegment(s, e.create)
  {
  }

  lemma {:induction false} OffsetEvent(s: State, e: Event)
    requires Enabled(s, e) && e.OffsetSegment?
    ensures e.create.CreateSegment? && e.create.kind.OffsetCommitsSegment? && !InUse(s, e.create.id)
    ensures After(s, e) == OpenSegment(s, e.create)
  {
    DirectIsFresh(s, e);
    assert Of(Opened(e.create), e.owner);
  }

  lemma {:induction false} EventKeepsPairs(s: State, e: Event, namespace: string, name: string, shards: nat)
    requires Kept(s) && Enabled(s, e) && PairsApart(s, namespace, name) && shards > 0
    requires ShardsAre(s, Owner(TopicSegment, namespace, name), shards)
    ensures PairsApart(After(s, e), namespace, name)
  {
    if e.Opens? {
      OpensEvent(s, e);
      OpensKeepsPairs(s, e.owner, e.node, e.create, namespace, name, shards);
    } else if e.OffsetSegment? {
      OffsetEvent(s, e);
      CreateKeepsPairs(s, e.create, After(s, e), namespace, name);
    } else {
      OtherDerived(s, e);
      DerivedKeepsPairs(s, After(s, e), namespace, name);
    }
  }

  lemma {:induction false} RunKeepsPairs(s: State, events: seq<Event>, namespace: string, name: string, shards: nat)
    requires Inv(s) && IsRun(s, events) && PairsApart(s, namespace, name) && shards > 0
    requires ShardsAre(s, Owner(TopicSegment, namespace, name), shards)
    requires forall e :: e in events ==> KeepsShards(e, Owner(TopicSegment, namespace, name), shards)
    ensures PairsApart(AfterRun(s, events), namespace, name)
    decreases |events|
  {
    if events != [] {
      var o, e := Owner(TopicSegment, namespace, name), events[0];
      EventKeeps(s, e);
      EventKeepsPairs(s, e, namespace, name, shards);
      EventKeepsShards(s, e, o, shards);
      RunKeepsPairs(After(s, e), events[1..], namespace, name, shards);
    }
  }

  /** In every run in which a topic is only ever created with the same positive number of shards, no two of its
      segments, open or closed, ever have the same generation and shard. */
  lemma {:induction false} PlacesNeverShared(events: seq<Event>, namespace: string, name: string, shards: nat)
    requires IsRun(EMPTY, events) && shards > 0
    requires forall e :: e in events ==> KeepsShards(e, Owner(TopicSegment, namespace, name), shards)
    ensures PairsApart(AfterRun(EMPTY, events), namespace, name)
  {
    EmptyInv();
    RunKeepsPairs(EMPTY, events, namespace, name, shards);
  }
}
