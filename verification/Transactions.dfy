/** The leader's transactions for closing segments and creating offset-commits segments; each that
    succeeds is an event of a run. */
module Transactions {
  import opened Wrappers
  import opened Lists
  import opened ClusterState
  import opened ClusterInvariant
  import opened Placement
  import opened SegmentOpen
  import opened ReconcilePass
  import opened ClusterRuns

  // ---------------------------------------------------------------- closing

  datatype CloseAnswer = Missing | NotPrimary | AlreadyClosed | Close(command: Command)

  /** Only the primary closes an open segment, closing a closed one is no error, and a segment is never
      closed before it was created. */
  method CloseSegment(s: State, id: nat, node: nat, size: int, sum: seq<nat>, now: int) returns (r: CloseAnswer)
    requires Kept(s)
    ensures r.Missing? <==> GetSegment(s, id).None?
    ensures r.AlreadyClosed? <==> GetClosed(s, id).Some?
    ensures r.NotPrimary? <==> GetOpen(s, id).Some? && GetOpen(s, id).value.nodes.primary != node
    ensures r.Close? ==>
      && Enabled(s, Closes(r.command)) && GetOpen(s, id).Some?
      && var g := Closed(GetOpen(s, id).value, r.command);
         && GetClosed(After(s, Closes(r.command)), id) == Some(g)
         && g.closedAt == (if now < g.createdAt then g.createdAt else now)
         && g.size == size && g.sum == sum && g.nodes.done == [node]
  {
    var was := GetOpen(s, id);
    NeverBoth(s, id);
    if was.None? {
      if GetClosed(s, id).None? {
        return Missing;
      }
      return AlreadyClosed;
    }
    if was.value.nodes.primary != node {
      return NotPrimary;
    }
    var closedAt := now;
    if closedAt < was.value.createdAt {
      closedAt := was.value.createdAt;
    }
    var c := Command.CloseSegment(id, node, closedAt, size, sum);
    CloseLookups(s, c, id);
    r := Close(c);
  }

  // ---------------------------------------------------------------- a replica is complete

  /** `Crash`: the list of replicas is allocated with room for one less than there are. */
  datatype ReplicaAnswer = Unknown | Corrupted | Crash | Complete(nodes: Nodes)

  method RemoveNode(ids: seq<nat>, node: nat) returns (r: seq<nat>)
    ensures r == Filter(ids, (n: nat) => n != node)
  {
    r := [];
    for i := 0 to |ids|
      invariant r == Filter(ids[..i], (n: nat) => n != node)
    {
      assert ids[..i + 1][..i] == ids[..i];
      if ids[i] != node {
        r := r + [ids[i]];
      }
    }
    assert ids[..|ids|] == ids;
  }

  predicate Intact(g: Segment, size: int, sum: seq<nat>) {
    g.size == size && g.sum == sum
  }

  /** A replica of the right size and checksum is moved to the complete copies, whether or not it was
      listed before; every other node stays where it was. */
  method CloseReplica(s: State, id: nat, node: nat, size: int, sum: seq<nat>) returns (r: ReplicaAnswer)
    ensures r.Unknown? <==> GetClosed(s, id).None?
    ensures r.Corrupted? <==> GetClosed(s, id).Some? && !Intact(GetClosed(s, id).value, size, sum)
    ensures r.Crash? <==>
      && GetClosed(s, id).Some? && Intact(GetClosed(s, id).value, size, sum)
      && GetClosed(s, id).value.nodes.replicating == []
    ensures r.Complete? && Listed(s.nodes, node) ==> Enabled(s, ReplicaDone(id, node, size, sum))
    ensures r.Complete? ==>
      && r.nodes == Completed(GetClosed(s, id).value.nodes, node)
      && node in r.nodes.done && node !in r.nodes.replicating
      && forall n :: n != node ==>
           && (n in r.nodes.done <==> n in GetClosed(s, id).value.nodes.done)
           && (n in r.nodes.replicating <==> n in GetClosed(s, id).value.nodes.replicating)
  {
    var found := GetClosed(s, id);
    if found.None? {
      return Unknown;
    }
    var g := found.value;
    if size != g.size || sum != g.sum {
      return Corrupted;
    }
    if |g.nodes.replicating| - 1 < 0 {
      return Crash;
    }
    var replicating := RemoveNode(g.nodes.replicating, node);
    var done := RemoveNode(g.nodes.done, node);
    r := Complete(Nodes(0, replicating, done + [node]));
  }

  const GROUP := Group("group", [], 1, 0, [])
  const OWNER := Owner(OffsetCommitsSegment, "default", "group")
  const CREATE := CreateSegment(1, "default", "group", OffsetCommitsSegment, 0, 0, 0, 1, [])
  const CLOSE := Command.CloseSegment(1, 1, 5, 10, [7])

  /** A node, a namespace, a group, and the group's segment, closed by its primary. */
  const EVENTS: seq<Event> := [
    Plain(UpdateNode(1, "host", Alive, 0)), Plain(CreateNamespace("default")), Plain(CreateGroup("default", GROUP)),
    OffsetSegment(OWNER, CREATE), Closes(CLOSE)]

  const WITH_NODE := EMPTY.(nodes := [Node(1, "host", Alive, 0)])
  const WITH_NAMESPACE := WITH_NODE.(namespaces := [Namespace("default", [], [])])
  const WITH_GROUP := WITH_NODE.(namespaces := [Namespace("default", [], [GROUP])])
  const WITH_SEGMENT := WITH_GROUP.(currentSegmentID := 1, open := [Opened(CREATE)])
  const WITHOUT_REPLICAS := WITH_GROUP.(currentSegmentID := 1, closed := [Closed(Opened(CREATE), CLOSE)])

  ghost predicate Goes(s: State, e: Event, s': State) {
    Enabled(s, e) && After(s, e) == s'
  }

  ghost predicate Reaches(s: State, events: seq<Event>, s': State) {
    IsRun(s, events) && AfterRun(s, events) == s'
  }

  lemma {:induction false} Prepend(s: State, e: Event, s': State, events: seq<Event>, to: State, all: seq<Event>)
    requires Goes(s, e, s') && Reaches(s', events, to) && all == [e] + events
    ensures Reaches(s, all, to)
  {
    assert all[1..] == events;
  }

  lemma {:induction false} NodeAdded()
    ensures Goes(EMPTY, EVENTS[0], WITH_NODE)
  {
    var none: seq<Node> := [];
    var node := Node(1, "host", Alive, 0);
    assert PutNode(none, node) == [node] by {
      SortOfAscending([node], NodeID);
      assert none + [node] == [node];
    }
    assert Apply(EMPTY, EVENTS[0].command) == Next(WITH_NODE);
  }

  lemma {:induction false} NamespaceAdded()
    ensures Goes(WITH_NODE, EVENTS[1], WITH_NAMESPACE)
  {
    var none: seq<Namespace> := [];
    assert none + [Namespace("default", [], [])] == [Namespace("default", [], [])];
  }

  lemma {:induction false} GroupAdded()
    ensures Goes(WITH_NAMESPACE, EVENTS[2], WITH_GROUP)
  {
    var n := Namespace("default", [], []);
    var none: seq<Group> := [];
    assert NamespaceName(n) == "default" && Find([n], NamespaceName, "default") == 0;
    assert Put(none, GroupName, GROUP) == [GROUP];
    assert [n][0 := n.(groups := [GROUP])] == [Namespace("default", [], [GROUP])];
  }

  lemma {:induction false} SegmentAdded()
    ensures Goes(WITH_GROUP, EVENTS[3], WITH_SEGMENT)
  {
    var none: seq<Segment> := [];
    assert WITH_GROUP.nodes[0].id == 1 && IsAlive(WITH_GROUP.nodes, 1);
    SortOfAscending([Opened(CREATE)], SegmentID);
    assert none + [Opened(CREATE)] == [Opened(CREATE)];
    assert OpenOf(WITH_GROUP, OWNER) == [];
  }

  lemma {:induction false} SegmentClosed()
    ensures Goes(WITH_SEGMENT, EVENTS[4], WITHOUT_REPLICAS)
  {
    var g := Opened(CREATE);
    var none: seq<Segment> := [];
    assert FindID([g], 1, 0) == 0;
    assert Lookup([g], 1) == Some(g) by {
      LookupIsLinear([g], 1);
    }
    assert Without([g], 0) == [];
    SortOfAscending([Closed(g, CLOSE)], SegmentID);
    assert none + [Closed(g, CLOSE)] == [Closed(g, CLOSE)];
  }

  /** A state is reachable in which a closed segment lists no replicas, so that reporting one panics. */
  lemma {:induction false} PanicIsReachable()
    ensures Reaches(EMPTY, EVENTS, WITHOUT_REPLICAS)
    ensures var found := GetClosed(WITHOUT_REPLICAS, 1);
            found.Some? && Intact(found.value, 10, [7]) && found.value.nodes.replicating == []
  {
    SegmentReached();
    GroupAdded();
    NamespaceAdded();
    NodeAdded();
    Prepend(WITH_NAMESPACE, EVENTS[2], WITH_GROUP, EVENTS[3..], WITHOUT_REPLICAS, EVENTS[2..]);
    Prepend(WITH_NODE, EVENTS[1], WITH_NAMESPACE, EVENTS[2..], WITHOUT_REPLICAS, EVENTS[1..]);
    Prepend(EMPTY, EVENTS[0], WITH_NODE, EVENTS[1..], WITHOUT_REPLICAS, EVENTS);
    LookupIsLinear(WITHOUT_REPLICAS.closed, 1);
    assert WITHOUT_REPLICAS.closed[0] in WITHOUT_REPLICAS.closed;
  }

  lemma {:induction false} SegmentReached()
    ensures Reaches(WITH_GROUP, EVENTS[3..], WITHOUT_REPLICAS)
  {
    SegmentAdded();
    SegmentClosed();
    Prepend(WITH_SEGMENT, EVENTS[4], WITHOUT_REPLICAS, [], WITHOUT_REPLICAS, EVENTS[4..]);
    Prepend(WITH_GROUP, EVENTS[3], WITH_SEGMENT, EVENTS[4..], WITHOUT_REPLICAS, EVENTS[3..]);
  }

  // ---------------------------------------------------------------- segments for offset commits

  const MAX_COUNT: int := 0x7fff_ffff

  datatype OffsetAnswer = HasOne | TooMany | NoNode | Make(command: Command)

  /** Of the alive nodes with the lowest count below the maximum, the first. */
  ghost predicate FirstAlive(nodes: seq<Node>, counts: Counts, at: nat) {
    && at < |nodes| && nodes[at].state.Alive? && Load(counts, nodes[at].id) < MAX_COUNT
    && (forall j :: 0 <= j < |nodes| && nodes[j].state.Alive? ==>
          Load(counts, nodes[at].id) <= Load(counts, nodes[j].id))
    && (forall j :: 0 <= j < at && nodes[j].state.Alive? ==> Load(counts, nodes[at].id) < Load(counts, nodes[j].id))
  }

  method PickPrimary(nodes: seq<Node>, counts: Counts) returns (primary: nat, ghost at: nat)
    requires forall n :: n in nodes ==> n.id > 0
    ensures primary > 0 ==> FirstAlive(nodes, counts, at) && primary == nodes[at].id
    ensures primary == 0 ==> forall n :: n in nodes && n.state.Alive? ==> Load(counts, n.id) >= MAX_COUNT
  {
    primary, at := 0, 0;
    var least := MAX_COUNT;
    for i := 0 to |nodes|
      invariant primary == 0 ==> least == MAX_COUNT
      invariant primary > 0 ==>
        FirstAlive(nodes[..i], counts, at) && primary == nodes[at].id && least == Load(counts, primary)
      invariant forall j :: 0 <= j < i && nodes[j].state.Alive? ==> Load(counts, nodes[j].id) >= least
    {
      var count := Load(counts, nodes[i].id);
      assert nodes[i] in nodes;
      if nodes[i].state.Alive? && count < least {
        primary, least, at := nodes[i].id, count, i;
      }
    }
    assert nodes[..|nodes|] == nodes;
  }

  /** One open segment is enough. In a reachable state there are never two. */
  method ReconcileOffsetSegment(s: State, namespace: string, group: string, counts: Counts, nextID: nat, now: int)
    returns (r: OffsetAnswer, counts': Counts)
    requires Inv(s) && !InUse(s, nextID)
    ensures !r.TooMany?
    ensures var o := Owner(OffsetCommitsSegment, namespace, group);
            && (r.HasOne? <==> |OpenOf(s, o)| == 1)
            && (r.Make? ==>
                 && Enabled(s, OffsetSegment(o, r.command)) && r.command.id == nextID
                 && r.command.generation == r.command.shard == 0 && r.command.openedAt == now
                 && (forall n :: n in s.nodes && n.state.Alive? ==>
                       Load(counts, r.command.primary) <= Load(counts, n.id))
                 && counts' == Add(counts, r.command.primary, 1))
            && (!r.Make? ==> counts' == counts)
    ensures r.NoNode? ==> forall n :: n in s.nodes && n.state.Alive? ==> Load(counts, n.id) >= MAX_COUNT
  {
    counts' := counts;
    var o := Owner(OffsetCommitsSegment, namespace, group);
    var open := OpenOf(s, o);
    if |open| == 1 {
      return HasOne, counts';
    }
    OpenCount(s, o);
    if |open| > 1 {
      return TooMany, counts';
    }
    var primary, at := PickPrimary(s.nodes, counts);
    if primary == 0 {
      return NoNode, counts';
    }
    r := Make(CreateSegment(nextID, namespace, group, OffsetCommitsSegment, 0, 0, now, primary, []));
    counts' := Add(counts, primary, 1);
  }
}
