/** The replicated cluster state and the twelve commands that change it. */
module ClusterState {
  import opened Wrappers
  import opened Lists

  // ---------------------------------------------------------------- records

  datatype SegmentKind = TopicSegment | OffsetCommitsSegment

  /** Node 0 stands for no primary. */
  datatype Nodes = Nodes(primary: nat, replicating: seq<nat>, done: seq<nat>)

  /** `closedAt` is 0 while the segment is open. */
  datatype Segment = Segment(
    id: nat, kind: SegmentKind, ownerNamespace: string, ownerName: string,
    generation: nat, shard: nat, createdAt: int, closedAt: int, nodes: Nodes, size: int, sum: seq<nat>)

  datatype Topic = Topic(name: string, exchangeType: string, shards: nat, replicationFactor: nat, retention: int)

  datatype Binding = Binding(topicName: string, exchangeType: string, criterion: string)

  datatype OffsetCommit = OffsetCommit(segment: nat, offset: int)

  datatype Group = Group(name: string, bindings: seq<Binding>, size: nat, since: int, commits: seq<OffsetCommit>)

  datatype Namespace = Namespace(name: string, topics: seq<Topic>, groups: seq<Group>)

  datatype NodeState = Alive | Dead

  datatype Node = Node(id: nat, address: string, state: NodeState, lastSeen: int)

  datatype State = State(
    index: nat, currentSegmentID: nat, namespaces: seq<Namespace>,
    open: seq<Segment>, closed: seq<Segment>, nodes: seq<Node>)

  const EMPTY := State(0, 0, [], [], [], [])

  function NamespaceName(n: Namespace): string { n.name }
  function TopicName(t: Topic): string { t.name }
  function GroupName(g: Group): string { g.name }
  function SegmentID(s: Segment): nat { s.id }
  function NodeID(n: Node): nat { n.id }
  function CommitSegment(c: OffsetCommit): nat { c.segment }

  // ---------------------------------------------------------------- queries

  function NamespaceAt(s: State, name: string): (i: nat)
    ensures i <= |s.namespaces|
  {
    Find(s.namespaces, NamespaceName, name)
  }

  function GetTopic(s: State, namespace: string, name: string): Option<Topic> {
    var i := NamespaceAt(s, namespace);
    if i == |s.namespaces| then None
    else
      var topics := s.namespaces[i].topics;
      var j := Find(topics, TopicName, name);
      if j == |topics| then None else Some(topics[j])
  }

  function GetGroup(s: State, namespace: string, name: string): Option<Group> {
    var i := NamespaceAt(s, namespace);
    if i == |s.namespaces| then None
    else
      var groups := s.namespaces[i].groups;
      var j := Find(groups, GroupName, name);
      if j == |groups| then None else Some(groups[j])
  }

  /** Binary search, as every lookup of a segment does it. */
  function Lookup(segments: seq<Segment>, id: nat): Option<Segment> {
    var i := Search(segments, SegmentID, id);
    if i < |segments| && segments[i].id == id then Some(segments[i]) else None
  }

  function GetOpen(s: State, id: nat): Option<Segment> {
    Lookup(s.open, id)
  }

  function GetClosed(s: State, id: nat): Option<Segment> {
    Lookup(s.closed, id)
  }

  function GetSegment(s: State, id: nat): Option<Segment> {
    Resolve(s.open, s.closed, id)
  }

  function Resolve(open: seq<Segment>, closed: seq<Segment>, id: nat): Option<Segment> {
    if Lookup(open, id).Some? then Lookup(open, id) else Lookup(closed, id)
  }

  predicate Owned(g: Segment, kind: SegmentKind, namespace: string, name: string) {
    g.kind == kind && g.ownerNamespace == namespace && g.ownerName == name
  }

  function OpenSegmentsFor(s: State, kind: SegmentKind, namespace: string, name: string): (r: seq<Segment>)
    ensures forall g :: g in r <==> g in s.open && Owned(g, kind, namespace, name)
  {
    Filter(s.open, (g: Segment) => Owned(g, kind, namespace, name))
  }

  // ---------------------------------------------------------------- commands

  datatype Which = InOpen | InClosed

  datatype Command =
    | CreateNamespace(namespace: string)
    | DeleteNamespace(namespace: string)
    | CreateTopic(namespace: string, topic: Topic)
    | DeleteTopic(namespace: string, name: string)
    | CreateGroup(namespace: string, group: Group)
    | DeleteGroup(namespace: string, name: string)
    | UpdateOffsetCommits(namespace: string, name: string, commits: seq<OffsetCommit>)
    | CreateSegment(id: nat, namespace: string, name: string, kind: SegmentKind, generation: nat, shard: nat,
                    openedAt: int, primary: nat, replicating: seq<nat>)
    | CloseSegment(id: nat, doneNode: nat, closedAt: int, size: int, sum: seq<nat>)
    | UpdateNodes(id: nat, which: Which, nodes: Nodes)
    | DeleteSegment(id: nat, which: Which)
    | UpdateNode(id: nat, address: string, state: NodeState, lastSeen: int)

  /** Commands inside a namespace panic when it does not exist. */
  datatype Outcome = Next(state: State) | Panic

  function WithNamespace(s: State, i: nat, n: Namespace): State
    requires i < |s.namespaces|
  {
    s.(namespaces := s.namespaces[i := n])
  }

  function AddNamespace(s: State, name: string): State {
    if NamespaceAt(s, name) < |s.namespaces| then s
    else s.(namespaces := s.namespaces + [Namespace(name, [], [])])
  }

  function RemoveNamespace(s: State, name: string): State {
    var i := NamespaceAt(s, name);
    if i == |s.namespaces| then s else s.(namespaces := Without(s.namespaces, i))
  }

  function PutTopic(s: State, i: nat, t: Topic): State
    requires i < |s.namespaces|
  {
    var n := s.namespaces[i];
    WithNamespace(s, i, n.(topics := Put(n.topics, TopicName, t)))
  }

  /** An existing group keeps its offset commits. */
  function PutGroup(s: State, i: nat, g: Group): State
    requires i < |s.namespaces|
  {
    var n := s.namespaces[i];
    var j := Find(n.groups, GroupName, g.name);
    var commits := if j < |n.groups| then n.groups[j].commits else [];
    WithNamespace(s, i, n.(groups := Put(n.groups, GroupName, g.(commits := commits))))
  }

  /** Bindings to the topic go, and so do commits for its segments and for segments that no longer
      exist. */
  function Unbind(open: seq<Segment>, closed: seq<Segment>, g: Group, namespace: string, topic: string): Group {
    g.(bindings := Filter(g.bindings, (b: Binding) => b.topicName != topic),
       commits := Filter(g.commits, (c: OffsetCommit) =>
         var target := Resolve(open, closed, c.segment);
         target.Some? && !Owned(target.value, TopicSegment, namespace, topic)))
  }

  function UnbindAll(open: seq<Segment>, closed: seq<Segment>, groups: seq<Group>, namespace: string, topic: string)
    : (r: seq<Group>)
    ensures |r| == |groups|
    ensures forall i :: 0 <= i < |r| ==> r[i] == Unbind(open, closed, groups[i], namespace, topic)
  {
    seq(|groups|, i requires 0 <= i < |groups| => Unbind(open, closed, groups[i], namespace, topic))
  }

  function NotOwned(segments: seq<Segment>, kind: SegmentKind, namespace: string, name: string): (r: seq<Segment>)
    ensures forall g :: g in r <==> g in segments && !Owned(g, kind, namespace, name)
  {
    Filter(segments, (g: Segment) => !Owned(g, kind, namespace, name))
  }

  function RemoveTopic(s: State, i: nat, name: string): State
    requires i < |s.namespaces|
  {
    var n := s.namespaces[i];
    var j := Find(n.topics, TopicName, name);
    if j == |n.topics| then s
    else
      WithNamespace(s, i, n.(topics := Without(n.topics, j),
                             groups := UnbindAll(s.open, s.closed, n.groups, n.name, name)))
      .(open := NotOwned(s.open, TopicSegment, n.name, name),
        closed := NotOwned(s.closed, TopicSegment, n.name, name))
  }

  function RemoveGroup(s: State, i: nat, name: string): State
    requires i < |s.namespaces|
  {
    var n := s.namespaces[i];
    var j := Find(n.groups, GroupName, name);
    if j == |n.groups| then s
    else
      WithNamespace(s, i, n.(groups := Without(n.groups, j)))
      .(open := NotOwned(s.open, OffsetCommitsSegment, n.name, name),
        closed := NotOwned(s.closed, OffsetCommitsSegment, n.name, name))
  }

  function SetCommits(s: State, i: nat, name: string, commits: seq<OffsetCommit>): State
    requires i < |s.namespaces|
  {
    var n := s.namespaces[i];
    var j := Find(n.groups, GroupName, name);
    if j == |n.groups| then s
    else WithNamespace(s, i, n.(groups := n.groups[j := n.groups[j].(commits := Sort(commits, CommitSegment))]))
  }

  function Opened(c: Command): Segment
    requires c.CreateSegment?
  {
    Segment(c.id, c.kind, c.namespace, c.name, c.generation, c.shard, c.openedAt, 0,
            Nodes(c.primary, c.replicating, []), 0, [])
  }

  function OpenSegment(s: State, c: Command): State
    requires c.CreateSegment?
  {
    s.(currentSegmentID := if c.id > s.currentSegmentID then c.id else s.currentSegmentID,
       open := Sort(s.open + [Opened(c)], SegmentID))
  }

  /** The first segment with that ID, found by a linear scan. */
  function FindID(segments: seq<Segment>, id: nat, from: nat): (i: nat)
    requires from <= |segments|
    ensures from <= i <= |segments|
    ensures i < |segments| ==> segments[i].id == id
    ensures forall k :: from <= k < i ==> segments[k].id != id
    decreases |segments| - from
  {
    if from == |segments| || segments[from].id == id then from else FindID(segments, id, from + 1)
  }

  function Closed(g: Segment, c: Command): Segment
    requires c.CloseSegment?
  {
    g.(closedAt := c.closedAt, size := c.size, sum := c.sum,
       nodes := Nodes(0, g.nodes.replicating, [c.doneNode]))
  }

  function CloseOpen(s: State, c: Command): State
    requires c.CloseSegment?
  {
    var i := FindID(s.open, c.id, 0);
    if i == |s.open| then s
    else s.(open := Without(s.open, i), closed := Sort(s.closed + [Closed(s.open[i], c)], SegmentID))
  }

  function ReplaceNodes(segments: seq<Segment>, id: nat, nodes: Nodes): (r: seq<Segment>)
    ensures |r| == |segments|
    ensures forall k :: 0 <= k < |r| ==> r[k].id == segments[k].id
  {
    var i := Search(segments, SegmentID, id);
    if i < |segments| && segments[i].id == id then segments[i := segments[i].(nodes := nodes)] else segments
  }

  function Dropped(segments: seq<Segment>, id: nat): seq<Segment> {
    var i := Search(segments, SegmentID, id);
    if i < |segments| && segments[i].id == id then Without(segments, i) else segments
  }

  function FindNodeID(nodes: seq<Node>, id: nat, from: nat): (i: nat)
    requires from <= |nodes|
    ensures from <= i <= |nodes|
    ensures i < |nodes| ==> nodes[i].id == id
    ensures forall k :: from <= k < i ==> nodes[k].id != id
    decreases |nodes| - from
  {
    if from == |nodes| || nodes[from].id == id then from else FindNodeID(nodes, id, from + 1)
  }

  function PutNode(nodes: seq<Node>, n: Node): seq<Node> {
    var i := FindNodeID(nodes, n.id, 0);
    Sort(if i < |nodes| then nodes[i := n] else nodes + [n], NodeID)
  }

  predicate InNamespace(c: Command) {
    c.CreateTopic? || c.DeleteTopic? || c.CreateGroup? || c.DeleteGroup? || c.UpdateOffsetCommits?
  }

  function SetNodes(s: State, id: nat, which: Which, nodes: Nodes): State {
    if which.InOpen? then s.(open := ReplaceNodes(s.open, id, nodes))
    else s.(closed := ReplaceNodes(s.closed, id, nodes))
  }

  function RemoveSegment(s: State, id: nat, which: Which): State {
    if which.InOpen? then s.(open := Dropped(s.open, id)) else s.(closed := Dropped(s.closed, id))
  }

  /** A command for the namespace at position `i`. */
  function ApplyIn(s: State, i: nat, c: Command): State
    requires InNamespace(c) && i < |s.namespaces|
  {
    match c
    case CreateTopic(_, topic) => PutTopic(s, i, topic)
    case DeleteTopic(_, name) => RemoveTopic(s, i, name)
    case CreateGroup(_, group) => PutGroup(s, i, group)
    case DeleteGroup(_, name) => RemoveGroup(s, i, name)
    case UpdateOffsetCommits(_, name, commits) => SetCommits(s, i, name, commits)
  }

  function ApplyTo(s: State, c: Command): State
    requires !InNamespace(c)
  {
    match c
    case CreateNamespace(name) => AddNamespace(s, name)
    case DeleteNamespace(name) => RemoveNamespace(s, name)
    case CreateSegment(_, _, _, _, _, _, _, _, _) => OpenSegment(s, c)
    case CloseSegment(_, _, _, _, _) => CloseOpen(s, c)
    case UpdateNodes(id, which, nodes) => SetNodes(s, id, which, nodes)
    case DeleteSegment(id, which) => RemoveSegment(s, id, which)
    case UpdateNode(id, address, state, lastSeen) =>
      s.(nodes := PutNode(s.nodes, Node(id, address, state, lastSeen)))
  }

  function Apply(s: State, c: Command): Outcome {
    if !InNamespace(c) then Next(ApplyTo(s, c))
    else
      var i := NamespaceAt(s, c.namespace);
      if i == |s.namespaces| then Panic else Next(ApplyIn(s, i, c))
  }
}
