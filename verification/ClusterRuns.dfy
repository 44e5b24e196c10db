/** Every run of the cluster's operations: clients, segment owners, replicas and the reconciler. */
module ClusterRuns {
  import opened Wrappers
  import opened Lists
  import opened ClusterState
  import opened ClusterInvariant
  import opened Placement
  import opened SegmentOpen
  import opened Reconciler
  import opened Convergence
  import opened ReconcilePass
  import opened PassConvergence

  /** Each event is one transaction on the leader. Rotating a segment is `Closes` followed by `Opens`. */
  datatype Event =
    | Plain(command: Command)
    | Opens(owner: Owner, node: nat, create: Command)
    | OffsetSegment(owner: Owner, create: Command)
    | Closes(close: Command)
    | ReplicaDone(id: nat, node: nat, size: int, sum: seq<nat>)
    | ReconcileOpen(segment: Segment, counts: Counts, report: Report, action: Action)
    | ReconcileClosed(segment: Segment, counts: Counts, now: int, action: Action)

  /** Commands that clients and the membership send as they are; deleting a group also deletes the open
      segments it had. Node ID 0 stands for no node. */
  predicate IsPlain(c: Command) {
    || InNamespace(c) || c.CreateNamespace? || c.DeleteNamespace? || (c.UpdateNode? && c.id > 0)
    || (c.DeleteSegment? && c.which.InOpen?)
  }

  /** A replica that has the whole of a closed segment moves to the complete ones. */
  function Completed(nodes: Nodes, node: nat): Nodes {
    Nodes(0, Filter(nodes.replicating, (n: nat) => n != node), Filter(nodes.done, (n: nat) => n != node) + [node])
  }

  ghost predicate Enabled(s: State, e: Event) {
    match e
    case Plain(c) => IsPlain(c) && Apply(s, c).Next?
    case Opens(o, node, c) =>
      Listed(s.nodes, node) && OwnerExists(s, o) && WellPlaced(s, o, node, c) && !InUse(s, c.id)
    case OffsetSegment(o, c) =>
      && o.kind.OffsetCommitsSegment? && OpenOf(s, o) == []
      && c.CreateSegment? && Of(Opened(c), o) && c.replicating == [] && IsAlive(s.nodes, c.primary) && !InUse(s, c.id)
    case Closes(c) =>
      c.CloseSegment? && GetOpen(s, c.id).Some? && GetOpen(s, c.id).value.nodes.primary == c.doneNode
    case ReplicaDone(id, node, size, sum) =>
      && Listed(s.nodes, node) && GetClosed(s, id).Some?
      && var g := GetClosed(s, id).value;
         g.size == size && g.sum == sum && g.nodes.replicating != []
    case ReconcileOpen(g, counts, report, action) =>
      g in s.open && OpenDecided(s, g, counts, report, action) && action != Go(Panicked)
    case ReconcileClosed(g, counts, now, action) =>
      g in s.closed && ClosedDecided(s, g, counts, now, action) && action != Go(Panicked)
  }

  ghost function After(s: State, e: Event): State
    requires Enabled(s, e)
  {
    match e
    case Plain(c) => Apply(s, c).state
    case Opens(_, _, c) => Apply(s, c).state
    case OffsetSegment(_, c) => Apply(s, c).state
    case Closes(c) => Apply(s, c).state
    case ReplicaDone(id, node, _, _) =>
      Apply(s, UpdateNodes(id, InClosed, Completed(GetClosed(s, id).value.nodes, node))).state
    case ReconcileOpen(g, _, _, action) => Do(s, g, InOpen, action)
    case ReconcileClosed(g, _, _, action) => Do(s, g, InClosed, action)
  }

  ghost predicate IsRun(s: State, events: seq<Event>)
    decreases |events|
  {
    events == [] || (Enabled(s, events[0]) && IsRun(After(s, events[0]), events[1..]))
  }

  ghost function AfterRun(s: State, events: seq<Event>): State
    requires IsRun(s, events)
    decreases |events|
  {
    if events == [] then s else AfterRun(After(s, events[0]), events[1..])
  }

  // ---------------------------------------------------------------- nodes of a segment

  /** The primary and the replicas are known nodes, each named once. */
  predicate OpenFine(g: Segment, nodes: seq<Node>) {
    && Distinct([g.nodes.primary] + g.nodes.replicating) && g.nodes.done == []
    && forall n :: n in [g.nodes.primary] + g.nodes.replicating ==> Listed(nodes, n)
  }

  /** Complete and incomplete copies are on known nodes, each named once, and there is a complete one. */
  predicate ClosedFine(g: Segment, nodes: seq<Node>) {
    && Distinct(g.nodes.done + g.nodes.replicating) && g.nodes.primary == 0 && g.nodes.done != []
    && forall n :: n in g.nodes.done + g.nodes.replicating ==> Listed(nodes, n)
  }

  ghost predicate NodesFine(s: State) {
    && (forall g :: g in s.open ==> OpenFine(g, s.nodes))
    && (forall g :: g in s.closed ==> ClosedFine(g, s.nodes))
    && (forall n :: n in s.nodes ==> n.id > 0)
  }

  lemma {:induction false} OpenFineIsSound(g: Segment, nodes: seq<Node>)
    ensures OpenFine(g, nodes) <==> OpenSound(g.nodes, StatesOf(nodes)) && g.nodes.primary in StatesOf(nodes)
  {
    StatesListed(nodes);
  }

  lemma {:induction false} ClosedFineIsSound(g: Segment, nodes: seq<Node>)
    ensures ClosedFine(g, nodes) <==> ClosedSound(g.nodes, StatesOf(nodes)) && g.nodes.done != []
  {
    StatesListed(nodes);
  }

  lemma {:induction false} ListedStays(nodes: seq<Node>, n: Node, id: nat)
    requires Ascending(nodes, NodeID) && Listed(nodes, id)
    ensures Listed(PutNode(nodes, n), id)
  {
    PutNodeKeeps(nodes, n);
    var k :| 0 <= k < |nodes| && nodes[k].id == id;
    var m := if id == n.id then n else nodes[k];
    assert m in PutNode(nodes, n);
  }

  // ---------------------------------------------------------------- one segment at a time

  /** A command for one segment of an ascending list replaces it and leaves the others. */
  lemma {:induction false} DoElements(s: State, g: Segment, which: Which, action: Action) returns (r: seq<Segment>)
    requires Ascending(In(s, which), SegmentID) && g in In(s, which)
    ensures Do(s, g, which, action) == With(s, which, r)
    ensures forall h :: h in r ==> h in In(s, which) || h in Result(g, action)
  {
    var all := In(s, which);
    var k :| 0 <= k < |all| && all[k] == g;
    var before, after := all[..k], all[k + 1..];
    assert all == before + [g] + after;
    DoStep(s, which, before, g, after, action);
    r := before + Result(g, action) + after;
  }

  lemma {:induction false} ReconcileOpenKeepsFine(s: State, g: Segment, counts: Counts, report: Report, action: Action)
    requires Ascending(s.nodes, NodeID) && OpenFine(g, s.nodes)
    requires OpenDecided(s, g, counts, report, action) && action != Go(Panicked)
    ensures forall h :: h in Result(g, action) ==> OpenFine(h, s.nodes)
  {
    OpenFineIsSound(g, s.nodes);
    if action.Go? {
      var h := g.(nodes := Planned(g.nodes, action.plan));
      OpenFineIsSound(h, s.nodes);
      if IsUp(StatesOf(s.nodes), g.nodes.primary) {
        OpenPassSettles(s, g, counts, report, action, s);
      } else if action != Go(Keep) {
        PromotionRevives(s, g, counts, report, action);
      }
    }
  }

  lemma {:induction false} ReconcileClosedKeepsFine(s: State, g: Segment, counts: Counts, now: int, action: Action)
    requires Ascending(s.nodes, NodeID) && ClosedFine(g, s.nodes)
    requires ClosedDecided(s, g, counts, now, action) && action != Go(Panicked)
    ensures forall h :: h in Result(g, action) ==> ClosedFine(h, s.nodes)
  {
    ClosedFineIsSound(g, s.nodes);
    if action.Go? && action != Go(Keep) {
      ClosedFineIsSound(g.(nodes := action.plan.nodes), s.nodes);
      ClosedPassSettles(s, g, counts, now, action, s);
    }
  }

  lemma {:induction false} CompletedKeepsFine(g: Segment, nodes: seq<Node>, node: nat)
    requires ClosedFine(g, nodes) && Listed(nodes, node)
    ensures ClosedFine(g.(nodes := Completed(g.nodes, node)), nodes)
  {
    var c := Completed(g.nodes, node);
    DistinctParts(g.nodes.done, g.nodes.replicating);
    FilterDistinct(g.nodes.replicating, (n: nat) => n != node);
    FilterDistinct(g.nodes.done, (n: nat) => n != node);
    DistinctJoin(Filter(g.nodes.done, (n: nat) => n != node), [node]);
    DistinctJoin(c.done, c.replicating);
  }

  lemma {:induction false} ClosedKeepsFine(g: Segment, nodes: seq<Node>, c: Command)
    requires OpenFine(g, nodes) && c.CloseSegment? && c.doneNode == g.nodes.primary
    ensures ClosedFine(Closed(g, c), nodes)
  {
  }

  // ---------------------------------------------------------------- every event keeps the nodes apart

  lemma {:induction false} PlainKeepsSegments(s: State, c: Command)
    requires SegmentsKept(s) && IsPlain(c) && Apply(s, c).Next?
    ensures forall g :: g in Apply(s, c).state.open ==> g in s.open
    ensures forall g :: g in Apply(s, c).state.closed ==> g in s.closed
    ensures Apply(s, c).state.nodes
         == if c.UpdateNode? then PutNode(s.nodes, Node(c.id, c.address, c.state, c.lastSeen)) else s.nodes
  {
    if c.DeleteTopic? || c.DeleteGroup? || c.DeleteSegment? {
      DeletesOnlyDrop(s, c);
    }
  }

  lemma {:induction false} PlainKeepsFine(s: State, c: Command)
    requires Kept(s) && NodesFine(s) && IsPlain(c) && Apply(s, c).Next?
    ensures NodesFine(Apply(s, c).state)
  {
    PlainKeepsSegments(s, c);
    if c.UpdateNode? {
      var node := Node(c.id, c.address, c.state, c.lastSeen);
      PutNodeKeeps(s.nodes, node);
      forall id: nat | Listed(s.nodes, id) ensures Listed(PutNode(s.nodes, node), id) {
        ListedStays(s.nodes, node, id);
      }
    }
  }

  lemma {:induction false} CreateKeepsFine(s: State, c: Command)
    requires Kept(s) && NodesFine(s) && c.CreateSegment? && !InUse(s, c.id) && OpenFine(Opened(c), s.nodes)
    ensures NodesFine(Apply(s, c).state)
  {
    OpenKeeps(s, c);
  }

  lemma {:induction false} CloseEventKeepsFine(s: State, c: Command, s': State)
    requires Kept(s) && NodesFine(s) && Enabled(s, Closes(c)) && s' == CloseOpen(s, c)
    ensures NodesFine(s')
  {
    var g := GetOpen(s, c.id).value;
    CloseElements(s, c, g, s');
    ClosedKeepsFine(g, s.nodes, c);
    MovedKeepsFine(s, s', Closed(g, c));
  }

  lemma {:induction false} MovedKeepsFine(s: State, s': State, moved: Segment)
    requires NodesFine(s) && ClosedFine(moved, s.nodes) && s'.nodes == s.nodes
    requires forall h :: h in s'.open ==> h in s.open
    requires forall h :: h in s'.closed ==> h in s.closed || h == moved
    ensures NodesFine(s')
  {
  }

  lemma {:induction false} ReplicaDoneIsDo(s: State, id: nat, nodes: Nodes)
    requires SegmentsKept(s) && GetClosed(s, id).Some?
    ensures var g := GetClosed(s, id).value;
            g in s.closed && Apply(s, UpdateNodes(id, InClosed, nodes)).state == Do(s, g, InClosed, Go(Update(nodes)))
  {
    LookupIsLinear(s.closed, id);
  }

  lemma {:induction false} DoKeepsFine(s: State, g: Segment, which: Which, action: Action)
    requires Kept(s) && NodesFine(s) && g in In(s, which)
    requires forall h :: h in Result(g, action) ==>
      if which.InOpen? then OpenFine(h, s.nodes) else ClosedFine(h, s.nodes)
    ensures NodesFine(Do(s, g, which, action))
  {
    var r := DoElements(s, g, which, action);
    ListKeepsFine(s, which, r);
  }

  lemma {:induction false} ListKeepsFine(s: State, which: Which, r: seq<Segment>)
    requires NodesFine(s)
    requires forall h :: h in r ==> if which.InOpen? then OpenFine(h, s.nodes) else ClosedFine(h, s.nodes)
    ensures NodesFine(With(s, which, r))
  {
  }

  lemma {:induction false} AliveIsListed(nodes: seq<Node>, n: nat)
    requires IsAlive(nodes, n)
    ensures Listed(nodes, n)
  {
  }

  lemma {:induction false} OpenedFine(s: State, o: Owner, node: nat, c: Command)
    requires Listed(s.nodes, node) && OwnerExists(s, o) && WellPlaced(s, o, node, c)
    ensures OpenFine(Opened(c), s.nodes)
  {
    DistinctJoin([node], c.replicating);
    forall n | n in c.replicating ensures Listed(s.nodes, n) {
      AliveIsListed(s.nodes, n);
    }
  }

  lemma {:induction false} OpensKeepsFine(s: State, o: Owner, node: nat, c: Command)
    requires Kept(s) && NodesFine(s) && Enabled(s, Opens(o, node, c))
    ensures NodesFine(After(s, Opens(o, node, c)))
  {
    OpenedFine(s, o, node, c);
    CreateKeepsFine(s, c);
  }

  lemma {:induction false} OffsetSegmentKeepsFine(s: State, o: Owner, c: Command)
    requires Kept(s) && NodesFine(s) && Enabled(s, OffsetSegment(o, c))
    ensures NodesFine(After(s, OffsetSegment(o, c)))
  {
    AliveIsListed(s.nodes, c.primary);
    CreateKeepsFine(s, c);
  }

  lemma {:induction false} ReplicaDoneKeepsFine(s: State, e: Event)
    requires Kept(s) && NodesFine(s) && e.ReplicaDone? && Enabled(s, e)
    ensures NodesFine(After(s, e))
  {
    var g := GetClosed(s, e.id).value;
    var nodes := Completed(g.nodes, e.node);
    ReplicaDoneIsDo(s, e.id, nodes);
    CompletedKeepsFine(g, s.nodes, e.node);
    DoKeepsFine(s, g, InClosed, Go(Update(nodes)));
  }

  lemma {:induction false} ReconcileKeepsFine(s: State, e: Event)
    requires Kept(s) && NodesFine(s) && (e.ReconcileOpen? || e.ReconcileClosed?) && Enabled(s, e)
    ensures NodesFine(After(s, e))
  {
    if e.ReconcileOpen? {
      ReconcileOpenKeepsFine(s, e.segment, e.counts, e.report, e.action);
      DoKeepsFine(s, e.segment, InOpen, e.action);
    } else {
      ReconcileClosedKeepsFine(s, e.segment, e.counts, e.now, e.action);
      DoKeepsFine(s, e.segment, InClosed, e.action);
    }
  }

  lemma {:induction false} EventKeepsFine(s: State, e: Event)
    requires Kept(s) && NodesFine(s) && Enabled(s, e)
    ensures NodesFine(After(s, e))
  {
    match e {
      case Plain(c) => PlainKeepsFine(s, c);
      case Opens(o, node, c) => OpensKeepsFine(s, o, node, c);
      case OffsetSegment(o, c) => OffsetSegmentKeepsFine(s, o, c);
      case Closes(c) => CloseEventKeepsFine(s, c, After(s, e));
      case ReplicaDone(_, _, _, _) => ReplicaDoneKeepsFine(s, e);
      case _ => ReconcileKeepsFine(s, e);
    }
  }

  // ---------------------------------------------------------------- every event keeps the order

  lemma {:induction false} DoKeepsKept(s: State, g: Segment, which: Which, action: Action)
    requires Kept(s)
    ensures Kept(Do(s, g, which, action))
  {
    match action {
      case Delete => CommandKeeps(s, DeleteSegment(g.id, which));
      case Go(plan) =>
        if plan.Update? {
          CommandKeeps(s, UpdateNodes(g.id, which, plan.nodes));
        }
    }
  }

  /** The command of an event that is one whatever the state. */
  function Direct(e: Event): Option<Command> {
    match e
    case Plain(c) => Some(c)
    case Opens(_, _, c) => Some(c)
    case OffsetSegment(_, c) => Some(c)
    case Closes(c) => Some(c)
    case _ => None
  }

  lemma {:induction false} DirectIsFresh(s: State, e: Event)
    requires Enabled(s, e) && Direct(e).Some?
    ensures Fresh(s, Direct(e).value) && Apply(s, Direct(e).value) == Next(After(s, e))
  {
  }

  lemma {:induction false} EventKeepsKept(s: State, e: Event)
    requires Kept(s) && Enabled(s, e)
    ensures Kept(After(s, e))
  {
    if Direct(e).Some? {
      DirectIsFresh(s, e);
      CommandKeeps(s, Direct(e).value);
    } else if e.ReplicaDone? {
      CommandKeeps(s, UpdateNodes(e.id, InClosed, Completed(GetClosed(s, e.id).value.nodes, e.node)));
    } else {
      DoKeepsKept(s, e.segment, if e.ReconcileOpen? then InOpen else InClosed, e.action);
    }
  }

  // ---------------------------------------------------------------- open segments per owner

  function OpenIDs(s: State, o: Owner): set<nat> {
    set g | g in s.open && Of(g, o) :: g.id
  }

  lemma {:induction false} OpenCount(s: State, o: Owner)
    requires Ascending(s.open, SegmentID)
    ensures |OpenOf(s, o)| == |OpenIDs(s, o)|
  {
    FilterAscending(s.open, SegmentID, (g: Segment) => Owned(g, o.kind, o.namespace, o.name));
    KeysSize(OpenOf(s, o), SegmentID);
    IDsAreKeys(s, o);
  }

  lemma {:induction false} IDsAreKeys(s: State, o: Owner)
    ensures OpenIDs(s, o) == Keys(OpenOf(s, o), SegmentID)
  {
    var open := OpenOf(s, o);
    forall id | id in OpenIDs(s, o) ensures id in Keys(open, SegmentID) {
      var g :| g in s.open && Of(g, o) && g.id == id;
      assert g in open;
      var k :| 0 <= k < |open| && open[k] == g;
      assert SegmentID(open[k]) == id;
    }
    forall id | id in Keys(open, SegmentID) ensures id in OpenIDs(s, o) {
      var k :| 0 <= k < |open| && SegmentID(open[k]) == id;
      assert open[k] in open;
    }
  }

  lemma {:induction false} DoKeepsIDs(s: State, g: Segment, action: Action, o: Owner)
    requires SegmentsKept(s) && g in s.open
    ensures OpenIDs(Do(s, g, InOpen, action), o) <= OpenIDs(s, o)
  {
    var r := DoElements(s, g, InOpen, action);
    forall h | h in r && Of(h, o) ensures h.id in OpenIDs(s, o) {
      assert h in s.open || (h.id == g.id && Of(g, o));
    }
  }

  lemma {:induction false} CreateAddsID(s: State, c: Command, o: Owner)
    requires SegmentsKept(s) && c.CreateSegment? && !InUse(s, c.id)
    ensures OpenIDs(Apply(s, c).state, o) <= OpenIDs(s, o) + if Of(Opened(c), o) then {c.id} else {}
  {
    OpenKeeps(s, c);
  }

  lemma {:induction false} CloseDropsID(s: State, c: Command, o: Owner, s': State)
    requires SegmentsKept(s) && c.CloseSegment? && GetOpen(s, c.id).Some? && s' == CloseOpen(s, c)
    ensures OpenIDs(s', o) <= OpenIDs(s, o)
  {
    CloseElements(s, c, GetOpen(s, c.id).value, s');
  }

  lemma {:induction false} CreateEventIDs(s: State, e: Event, o: Owner)
    requires SegmentsKept(s) && Enabled(s, e) && (e.Opens? || e.OffsetSegment?)
    ensures OpenIDs(After(s, e), o) <= OpenIDs(s, o) + if e.owner == o then {e.create.id} else {}
  {
    CreateAddsID(s, e.create, o);
  }

  lemma {:induction false} ClosedUpdateKeepsOpen(s: State, g: Segment, id: nat, nodes: Nodes, action: Action)
    ensures Apply(s, UpdateNodes(id, InClosed, nodes)).state.open == s.open
    ensures Do(s, g, InClosed, action).open == s.open
  {
  }

  lemma {:induction false} ClosedEventsKeepOpen(s: State, e: Event)
    requires Enabled(s, e) && (e.ReplicaDone? || e.ReconcileClosed?)
    ensures After(s, e).open == s.open
  {
    if e.ReplicaDone? {
      var g := GetClosed(s, e.id).value;
      ClosedUpdateKeepsOpen(s, g, e.id, Completed(g.nodes, e.node), Delete);
    } else {
      ClosedUpdateKeepsOpen(s, e.segment, 0, e.segment.nodes, e.action);
    }
  }

  lemma {:induction false} PlainEventIDs(s: State, c: Command, o: Owner)
    requires SegmentsKept(s) && IsPlain(c) && Apply(s, c).Next?
    ensures OpenIDs(Apply(s, c).state, o) <= OpenIDs(s, o)
  {
    PlainKeepsSegments(s, c);
  }

  lemma {:induction false} OtherEventIDs(s: State, e: Event, o: Owner)
    requires SegmentsKept(s) && Enabled(s, e) && !e.Opens? && !e.OffsetSegment?
    ensures OpenIDs(After(s, e), o) <= OpenIDs(s, o)
  {
    match e {
      case Plain(c) => PlainEventIDs(s, c, o);
      case Closes(c) => CloseDropsID(s, c, o, After(s, e));
      case ReconcileOpen(g, _, _, action) => DoKeepsIDs(s, g, action, o);
      case _ => ClosedEventsKeepOpen(s, e);
    }
  }

  /** The owner's open segments were open before, except one that the event creates for it. */
  lemma {:induction false} OpenIDsAfter(s: State, e: Event, o: Owner)
    requires SegmentsKept(s) && Enabled(s, e)
    ensures var created := (e.Opens? || e.OffsetSegment?) && e.owner == o;
            OpenIDs(After(s, e), o) <= OpenIDs(s, o) + if created then {e.create.id} else {}
  {
    if e.Opens? || e.OffsetSegment? {
      CreateEventIDs(s, e, o);
    } else {
      OtherEventIDs(s, e, o);
    }
  }

  lemma {:induction false} EventKeepsLimit(s: State, e: Event, o: Owner, limit: nat)
    requires Kept(s) && Enabled(s, e) && |OpenIDs(s, o)| <= limit
    requires o.kind.OffsetCommitsSegment? ==> limit >= 1
    requires o.kind.TopicSegment? && OwnerExists(s, o) ==> 0 < Shards(s, o) <= limit
    ensures |OpenIDs(After(s, e), o)| <= limit
  {
    OpenIDsAfter(s, e, o);
    OpenCount(s, o);
    var now := OpenIDs(After(s, e), o);
    if (e.Opens? || e.OffsetSegment?) && e.owner == o {
      assert |OpenIDs(s, o)| < limit;
      SubsetSize(now, OpenIDs(s, o) + {e.create.id});
    } else {
      SubsetSize(now, OpenIDs(s, o));
    }
  }

  // ---------------------------------------------------------------- every run

  ghost predicate Inv(s: State) {
    && Kept(s) && NodesFine(s)
    && forall o: Owner :: o.kind.OffsetCommitsSegment? ==> |OpenIDs(s, o)| <= 1
  }

  lemma {:induction false} EventKeeps(s: State, e: Event)
    requires Inv(s) && Enabled(s, e)
    ensures Inv(After(s, e))
  {
    EventKeepsFine(s, e);
    EventKeepsKept(s, e);
    forall o: Owner | o.kind.OffsetCommitsSegment? ensures |OpenIDs(After(s, e), o)| <= 1 {
      EventKeepsLimit(s, e, o, 1);
    }
  }

  lemma {:induction false} RunKeeps(s: State, events: seq<Event>)
    requires Inv(s) && IsRun(s, events)
    ensures Inv(AfterRun(s, events))
    decreases |events|
  {
    if events != [] {
      EventKeeps(s, events[0]);
      RunKeeps(After(s, events[0]), events[1..]);
    }
  }

  lemma {:induction false} EmptyInv()
    ensures Inv(EMPTY)
  {
    forall o: Owner ensures OpenIDs(EMPTY, o) == {} {
    }
  }

  /** In every reachable state no segment names a node twice, every node it names is known, and every
      closed segment has a complete copy, so that picking one of its complete copies is defined. */
  lemma {:induction false} NodesStayApart(events: seq<Event>, g: Segment)
    requires IsRun(EMPTY, events)
    ensures var s := AfterRun(EMPTY, events);
            && (g in s.open ==> OpenFine(g, s.nodes))
            && (g in s.closed ==> ClosedFine(g, s.nodes))
  {
    EmptyInv();
    RunKeeps(EMPTY, events);
  }

  /** In every reachable state a consumer group has at most one open segment for offset commits. */
  lemma {:induction false} OneOffsetSegment(events: seq<Event>, o: Owner)
    requires IsRun(EMPTY, events) && o.kind.OffsetCommitsSegment?
    ensures |OpenOf(AfterRun(EMPTY, events), o)| <= 1
  {
    EmptyInv();
    RunKeeps(EMPTY, events);
    OpenCount(AfterRun(EMPTY, events), o);
  }

  // ---------------------------------------------------------------- shards

  ghost predicate TopicShards(n: Namespace, name: string, shards: nat) {
    forall t :: t in n.topics && t.name == name ==> t.shards == shards
  }

  ghost predicate ShardsAre(s: State, o: Owner, shards: nat) {
    forall n :: n in s.namespaces && n.name == o.namespace ==> TopicShards(n, o.name, shards)
  }

  /** The event does not give the topic another number of shards. */
  predicate KeepsShards(e: Event, o: Owner, shards: nat) {
    e.Plain? && e.command.CreateTopic? && e.command.namespace == o.namespace && e.command.topic.name == o.name
    ==> e.command.topic.shards == shards
  }

  lemma {:induction false} PutElements(topics: seq<Topic>, t: Topic)
    ensures forall u :: u in Put(topics, TopicName, t) ==> u in topics || u == t
  {
  }

  lemma {:induction false} NamespaceCommandKeepsShards(s: State, c: Command, o: Owner, shards: nat)
    requires ShardsAre(s, o, shards) && InNamespace(c) && Apply(s, c).Next? && KeepsShards(Plain(c), o, shards)
    ensures ShardsAre(Apply(s, c).state, o, shards)
  {
    var i := NamespaceAt(s, c.namespace);
    var n, s' := s.namespaces[i], Apply(s, c).state;
    var n' := s'.namespaces[i];
    assert n in s.namespaces;
    assert n'.name == n.name && s'.namespaces == s.namespaces[i := n'];
    if c.CreateTopic? {
      PutElements(n.topics, c.topic);
    } else if c.DeleteTopic? && n' != n {
      WithoutElements(n.topics, Find(n.topics, TopicName, c.name));
    }
    assert n.name == o.namespace ==> TopicShards(n', o.name, shards);
  }

  lemma {:induction false} PlainKeepsShards(s: State, c: Command, o: Owner, shards: nat)
    requires ShardsAre(s, o, shards) && IsPlain(c) && Apply(s, c).Next? && KeepsShards(Plain(c), o, shards)
    ensures ShardsAre(Apply(s, c).state, o, shards)
  {
    if InNamespace(c) {
      NamespaceCommandKeepsShards(s, c, o, shards);
    } else if c.DeleteNamespace? {
      var i := NamespaceAt(s, c.namespace);
      if i < |s.namespaces| {
        WithoutElements(s.namespaces, i);
      }
    }
  }

  predicate OnSegments(c: Command) {
    c.CreateSegment? || c.CloseSegment? || c.UpdateNodes? || c.DeleteSegment?
  }

  lemma {:induction false} SegmentsApartFromNames(s: State, c: Command)
    requires OnSegments(c)
    ensures Apply(s, c).Next? && Apply(s, c).state.namespaces == s.namespaces
  {
  }

  lemma {:induction false} ActionsApartFromNames(s: State, g: Segment, which: Which, action: Action)
    ensures Do(s, g, which, action).namespaces == s.namespaces
  {
  }

  lemma {:induction false} DirectKeepsNamespaces(s: State, e: Event)
    requires Enabled(s, e) && Direct(e).Some? && !e.Plain?
    ensures After(s, e).namespaces == s.namespaces
  {
    DirectIsFresh(s, e);
    SegmentsApartFromNames(s, Direct(e).value);
  }

  lemma {:induction false} SegmentEventsKeepNamespaces(s: State, e: Event)
    requires Enabled(s, e) && !e.Plain?
    ensures After(s, e).namespaces == s.namespaces
  {
    if Direct(e).Some? {
      DirectKeepsNamespaces(s, e);
    } else if e.ReplicaDone? {
      SegmentsApartFromNames(s, UpdateNodes(e.id, InClosed, Completed(GetClosed(s, e.id).value.nodes, e.node)));
    } else {
      ActionsApartFromNames(s, e.segment, if e.ReconcileOpen? then InOpen else InClosed, e.action);
    }
  }

  lemma {:induction false} EventKeepsShards(s: State, e: Event, o: Owner, shards: nat)
    requires ShardsAre(s, o, shards) && Enabled(s, e) && KeepsShards(e, o, shards)
    ensures ShardsAre(After(s, e), o, shards)
  {
    if e.Plain? {
      PlainKeepsShards(s, e.command, o, shards);
    } else {
      SegmentEventsKeepNamespaces(s, e);
    }
  }

  lemma {:induction false} ShardsOfTopic(s: State, o: Owner, shards: nat)
    requires ShardsAre(s, o, shards) && o.kind.TopicSegment? && OwnerExists(s, o)
    ensures Shards(s, o) == shards
  {
    var n := s.namespaces[NamespaceAt(s, o.namespace)];
    assert n in s.namespaces && TopicShards(n, o.name, shards);
    assert GetTopic(s, o.namespace, o.name).value in n.topics;
  }

  lemma {:induction false} RunKeepsLimit(s: State, events: seq<Event>, o: Owner, shards: nat)
    requires Inv(s) && IsRun(s, events) && o.kind.TopicSegment? && shards > 0
    requires ShardsAre(s, o, shards) && |OpenIDs(s, o)| <= shards
    requires forall e :: e in events ==> KeepsShards(e, o, shards)
    ensures |OpenOf(AfterRun(s, events), o)| <= shards
    decreases |events|
  {
    if events == [] {
      OpenCount(s, o);
    } else {
      var e := events[0];
      if OwnerExists(s, o) {
        ShardsOfTopic(s, o, shards);
      }
      EventKeeps(s, e);
      EventKeepsShards(s, e, o, shards);
      EventKeepsLimit(s, e, o, shards);
      RunKeepsLimit(After(s, e), events[1..], o, shards);
    }
  }

  /** In every run in which a topic is only ever created with the same positive number of shards, it
      never has more open segments than that, also across deletions and re-creations. */
  lemma {:induction false} ShardsRespected(events: seq<Event>, o: Owner, shards: nat)
    requires IsRun(EMPTY, events) && o.kind.TopicSegment? && shards > 0
    requires forall e :: e in events ==> KeepsShards(e, o, shards)
    ensures |OpenOf(AfterRun(EMPTY, events), o)| <= shards
  {
    EmptyInv();
    assert OpenIDs(EMPTY, o) == {};
    RunKeepsLimit(EMPTY, events, o, shards);
  }
}
