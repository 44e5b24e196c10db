/** What every log of commands keeps about the cluster state, and what lookups may rely on. */
module ClusterInvariant {
  import opened Wrappers
  import opened Lists
  import opened ClusterState

  /** Open and closed segments are each in ascending order of ID, have no ID in common, and no ID is
      above the counter. */
  ghost predicate SegmentsKept(s: State) {
    && Ascending(s.open, SegmentID) && Ascending(s.closed, SegmentID)
    && (forall g, h :: g in s.open && h in s.closed ==> g.id != h.id)
    && (forall g :: g in s.open || g in s.closed ==> g.id <= s.currentSegmentID)
  }

  ghost predicate NamesKept(s: State) {
    && Unique(s.namespaces, NamespaceName)
    && (forall n :: n in s.namespaces ==> Unique(n.topics, TopicName) && Unique(n.groups, GroupName))
  }

  ghost predicate Kept(s: State) {
    SegmentsKept(s) && NamesKept(s) && Ascending(s.nodes, NodeID)
  }

  predicate InUse(s: State, id: nat) {
    HasKey(s.open, SegmentID, id) || HasKey(s.closed, SegmentID, id)
  }

  /** A segment is created under an ID that no segment has. */
  predicate Fresh(s: State, c: Command) {
    c.CreateSegment? ==> !InUse(s, c.id)
  }

  // ---------------------------------------------------------------- segments

  lemma {:induction false} OpenKeeps(s: State, c: Command)
    requires SegmentsKept(s) && c.CreateSegment? && Fresh(s, c)
    ensures SegmentsKept(OpenSegment(s, c))
    ensures forall g :: g in OpenSegment(s, c).open <==> g in s.open || g == Opened(c)
  {
    SortAppend(s.open, SegmentID, Opened(c));
    forall h | h in s.closed ensures h.id != c.id {
      HasKeyOf(s.closed, SegmentID, h);
    }
  }

  lemma {:induction false} FoundByScan(segments: seq<Segment>, id: nat)
    ensures FindID(segments, id, 0) < |segments| <==> HasKey(segments, SegmentID, id)
  {
  }

  lemma {:induction false} CloseKeeps(s: State, c: Command)
    requires SegmentsKept(s) && c.CloseSegment?
    ensures SegmentsKept(CloseOpen(s, c))
  {
    var i := FindID(s.open, c.id, 0);
    if i < |s.open| {
      MoveElements(s, CloseOpen(s, c), i, Closed(s.open[i], c));
    }
  }

  lemma {:induction false} MoveElements(s: State, s': State, i: nat, moved: Segment)
    requires SegmentsKept(s) && i < |s.open| && moved.id == s.open[i].id
    requires s'.open == Without(s.open, i) && s'.closed == Sort(s.closed + [moved], SegmentID)
    ensures Ascending(s'.open, SegmentID) && Ascending(s'.closed, SegmentID)
    ensures forall h :: h in s'.open <==> h in s.open && h.id != moved.id
    ensures forall h :: h in s'.closed <==> h in s.closed || h == moved
    ensures forall h :: h in s.closed ==> h.id != moved.id
  {
    NotInClosed(s, s.open[i]);
    SortAppend(s.closed, SegmentID, moved);
    WithoutAscending(s.open, SegmentID, i);
  }

  /** What closing does to the two lists, seen from the state it leads to. */
  lemma {:induction false} CloseElements(s: State, c: Command, g: Segment, s': State)
    requires SegmentsKept(s) && c.CloseSegment? && GetOpen(s, c.id) == Some(g) && s' == CloseOpen(s, c)
    ensures g in s.open && g.id == c.id && s'.nodes == s.nodes
    ensures forall h :: h in s'.open <==> h in s.open && h.id != g.id
    ensures forall h :: h in s'.closed <==> h in s.closed || h == Closed(g, c)
  {
    LookupIsLinear(s.open, c.id);
    MoveElements(s, s', FindID(s.open, c.id, 0), Closed(g, c));
  }

  lemma {:induction false} NotInClosed(s: State, g: Segment)
    requires SegmentsKept(s) && g in s.open
    ensures !HasKey(s.closed, SegmentID, g.id)
  {
    forall k | 0 <= k < |s.closed| ensures SegmentID(s.closed[k]) != g.id {
      assert s.closed[k] in s.closed;
    }
  }

  predicate SameIDs(a: seq<Segment>, b: seq<Segment>) {
    |a| == |b| && forall k :: 0 <= k < |a| ==> a[k].id == b[k].id
  }

  lemma {:induction false} SameIDsAscending(a: seq<Segment>, b: seq<Segment>)
    requires SameIDs(a, b) && Ascending(a, SegmentID)
    ensures Ascending(b, SegmentID)
  {
    forall i, j | 0 <= i < j < |b| ensures SegmentID(b[i]) < SegmentID(b[j]) {
      assert SegmentID(a[i]) < SegmentID(a[j]);
    }
  }

  lemma {:induction false} SameIDsMember(a: seq<Segment>, b: seq<Segment>, g: Segment) returns (h: Segment)
    requires SameIDs(a, b) && g in b
    ensures h in a && h.id == g.id
  {
    var k :| 0 <= k < |b| && b[k] == g;
    h := a[k];
  }

  lemma {:induction false} SameIDsKept(s: State, s': State)
    requires SegmentsKept(s) && SameIDs(s.open, s'.open) && SameIDs(s.closed, s'.closed)
    requires s'.currentSegmentID == s.currentSegmentID
    ensures SegmentsKept(s')
  {
    SameIDsAscending(s.open, s'.open);
    SameIDsAscending(s.closed, s'.closed);
    forall g, h | g in s'.open && h in s'.closed ensures g.id != h.id {
      var g' := SameIDsMember(s.open, s'.open, g);
      var h' := SameIDsMember(s.closed, s'.closed, h);
    }
    forall g | g in s'.open ensures g.id <= s'.currentSegmentID {
      var g' := SameIDsMember(s.open, s'.open, g);
    }
    forall g | g in s'.closed ensures g.id <= s'.currentSegmentID {
      var g' := SameIDsMember(s.closed, s'.closed, g);
    }
  }

  lemma {:induction false} DropKeeps(segments: seq<Segment>, id: nat)
    requires Ascending(segments, SegmentID)
    ensures Ascending(Dropped(segments, id), SegmentID)
    ensures forall g :: g in Dropped(segments, id) <==> g in segments && g.id != id
  {
    SearchFinds(segments, SegmentID, id);
    var i := Search(segments, SegmentID, id);
    if i < |segments| && segments[i].id == id {
      WithoutAscending(segments, SegmentID, i);
    } else {
      forall g | g in segments ensures g.id != id {
        var k :| 0 <= k < |segments| && segments[k] == g;
        assert SegmentID(segments[k]) == g.id;
      }
    }
  }

  lemma {:induction false} NotOwnedKeeps(s: State, s': State, kind: SegmentKind, namespace: string, name: string)
    requires SegmentsKept(s) && s'.currentSegmentID == s.currentSegmentID
    requires s'.open == NotOwned(s.open, kind, namespace, name)
    requires s'.closed == NotOwned(s.closed, kind, namespace, name)
    ensures SegmentsKept(s')
  {
    FilterAscending(s.open, SegmentID, (g: Segment) => !Owned(g, kind, namespace, name));
    FilterAscending(s.closed, SegmentID, (g: Segment) => !Owned(g, kind, namespace, name));
  }

  lemma {:induction false} CommandKeepsSegments(s: State, c: Command)
    requires SegmentsKept(s) && Fresh(s, c) && Apply(s, c).Next?
    ensures SegmentsKept(Apply(s, c).state)
  {
    if InNamespace(c) {
      if c.DeleteTopic? || c.DeleteGroup? {
        DeletesKeepSegments(s, c);
      }
    } else {
      SegmentCommandKeeps(s, c);
    }
  }

  lemma {:induction false} SegmentCommandKeeps(s: State, c: Command)
    requires SegmentsKept(s) && Fresh(s, c) && !InNamespace(c)
    ensures SegmentsKept(ApplyTo(s, c))
  {
    match c {
      case CreateSegment(_, _, _, _, _, _, _, _, _) => OpenKeeps(s, c);
      case CloseSegment(_, _, _, _, _) => CloseKeeps(s, c);
      case UpdateNodes(id, which, nodes) => UpdateKeepsSegments(s, id, which, nodes);
      case DeleteSegment(id, which) => RemoveKeepsSegments(s, id, which);
      case _ =>
    }
  }

  lemma {:induction false} RemoveKeepsSegments(s: State, id: nat, which: Which)
    requires SegmentsKept(s)
    ensures SegmentsKept(RemoveSegment(s, id, which))
  {
    if which.InOpen? {
      DropKeeps(s.open, id);
    } else {
      DropKeeps(s.closed, id);
    }
  }

  lemma {:induction false} UpdateKeepsSegments(s: State, id: nat, which: Which, nodes: Nodes)
    requires SegmentsKept(s)
    ensures SegmentsKept(SetNodes(s, id, which, nodes))
  {
    SameIDsKept(s, SetNodes(s, id, which, nodes));
  }

  lemma {:induction false} DeletesKeepSegments(s: State, c: Command)
    requires SegmentsKept(s) && (c.DeleteTopic? || c.DeleteGroup?) && Apply(s, c).Next?
    ensures SegmentsKept(Apply(s, c).state)
  {
    var s' := Apply(s, c).state;
    var n := s.namespaces[NamespaceAt(s, c.namespace)];
    if s' != s {
      NotOwnedKeeps(s, s', if c.DeleteTopic? then TopicSegment else OffsetCommitsSegment, n.name, c.name);
    }
  }

  lemma {:induction false} DeletesOnlyDrop(s: State, c: Command)
    requires SegmentsKept(s) && (c.DeleteSegment? || c.DeleteTopic? || c.DeleteGroup?) && Apply(s, c).Next?
    ensures forall g :: g in Apply(s, c).state.open ==> g in s.open
    ensures forall g :: g in Apply(s, c).state.closed ==> g in s.closed
  {
    if c.DeleteSegment? {
      DropKeeps(s.open, c.id);
      DropKeeps(s.closed, c.id);
    }
  }

  // ---------------------------------------------------------------- names

  ghost predicate NamespaceKept(n: Namespace) {
    Unique(n.topics, TopicName) && Unique(n.groups, GroupName)
  }

  lemma {:induction false} WithNamespaceKeeps(s: State, i: nat, n: Namespace)
    requires NamesKept(s) && i < |s.namespaces| && n.name == s.namespaces[i].name && NamespaceKept(n)
    ensures NamesKept(WithNamespace(s, i, n))
  {
  }

  lemma {:induction false} CommandKeepsNames(s: State, c: Command)
    requires NamesKept(s) && Apply(s, c).Next?
    ensures NamesKept(Apply(s, c).state)
  {
    if InNamespace(c) {
      var i := NamespaceAt(s, c.namespace);
      var n := s.namespaces[i];
      assert n in s.namespaces && NamespaceKept(n);
      match c {
        case CreateTopic(_, topic) =>
          PutKeepsUnique(n.topics, TopicName, topic);
          WithNamespaceKeeps(s, i, n.(topics := Put(n.topics, TopicName, topic)));
        case CreateGroup(_, group) => PutGroupKeeps(s, i, group);
        case DeleteTopic(_, name) => RemoveTopicKeeps(s, i, name);
        case DeleteGroup(_, name) =>
          var j := Find(n.groups, GroupName, name);
          if j < |n.groups| {
            WithNamespaceKeeps(s, i, n.(groups := Without(n.groups, j)));
          }
        case UpdateOffsetCommits(_, name, commits) => SetCommitsKeeps(s, i, name, commits);
      }
    } else {
      NamespaceCommandKeeps(s, c);
    }
  }

  lemma {:induction false} PutGroupKeeps(s: State, i: nat, group: Group)
    requires NamesKept(s) && i < |s.namespaces|
    ensures NamesKept(PutGroup(s, i, group))
  {
    var n := s.namespaces[i];
    var j := Find(n.groups, GroupName, group.name);
    var g := group.(commits := if j < |n.groups| then n.groups[j].commits else []);
    assert NamespaceKept(n);
    PutKeepsUnique(n.groups, GroupName, g);
    WithNamespaceKeeps(s, i, n.(groups := Put(n.groups, GroupName, g)));
  }

  lemma {:induction false} SetCommitsKeeps(s: State, i: nat, name: string, commits: seq<OffsetCommit>)
    requires NamesKept(s) && i < |s.namespaces|
    ensures NamesKept(SetCommits(s, i, name, commits))
  {
    var n := s.namespaces[i];
    var j := Find(n.groups, GroupName, name);
    assert NamespaceKept(n);
    if j < |n.groups| {
      var g := n.groups[j].(commits := Sort(commits, CommitSegment));
      WithNamespaceKeeps(s, i, n.(groups := n.groups[j := g]));
    }
  }

  lemma {:induction false} RemoveTopicKeeps(s: State, i: nat, name: string)
    requires NamesKept(s) && i < |s.namespaces|
    ensures NamesKept(RemoveTopic(s, i, name))
  {
    var n := s.namespaces[i];
    var j := Find(n.topics, TopicName, name);
    assert NamespaceKept(n);
    if j < |n.topics| {
      var n' := n.(topics := Without(n.topics, j),
                   groups := UnbindAll(s.open, s.closed, n.groups, n.name, name));
      assert forall k :: 0 <= k < |n'.groups| ==> n'.groups[k].name == n.groups[k].name;
      WithNamespaceKeeps(s, i, n');
    }
  }

  lemma {:induction false} NamespaceCommandKeeps(s: State, c: Command)
    requires NamesKept(s) && !InNamespace(c)
    ensures NamesKept(Apply(s, c).state)
  {
    var s' := Apply(s, c).state;
    forall n | n in s'.namespaces && n !in s.namespaces ensures NamespaceKept(n) {
    }
  }

  // ---------------------------------------------------------------- nodes

  /** The node is there as given, every other node is as it was, and the order holds. */
  lemma {:induction false} PutNodeKeeps(nodes: seq<Node>, n: Node)
    requires Ascending(nodes, NodeID)
    ensures Ascending(PutNode(nodes, n), NodeID)
    ensures forall m :: m in PutNode(nodes, n) <==> m == n || (m in nodes && m.id != n.id)
  {
    var i := FindNodeID(nodes, n.id, 0);
    if i < |nodes| {
      SwapNodeKeeps(nodes, i, n, PutNode(nodes, n));
    } else {
      AddNodeKeeps(nodes, n, PutNode(nodes, n));
    }
  }

  lemma {:induction false} SwapNodeKeeps(nodes: seq<Node>, i: nat, n: Node, r: seq<Node>)
    requires Ascending(nodes, NodeID) && i < |nodes| && nodes[i].id == n.id
    requires r == Sort(nodes[i := n], NodeID)
    ensures Ascending(r, NodeID)
    ensures forall m :: m in r <==> m == n || (m in nodes && m.id != n.id)
  {
    ReplaceAscending(nodes, NodeID, i, n);
    SortOfAscending(nodes[i := n], NodeID);
  }

  lemma {:induction false} AddNodeKeeps(nodes: seq<Node>, n: Node, r: seq<Node>)
    requires Ascending(nodes, NodeID)
    requires forall k :: 0 <= k < |nodes| ==> nodes[k].id != n.id
    requires r == Sort(nodes + [n], NodeID)
    ensures Ascending(r, NodeID)
    ensures forall m :: m in r <==> m == n || (m in nodes && m.id != n.id)
  {
    SortAppend(nodes, NodeID, n);
  }

  // ---------------------------------------------------------------- every log

  lemma {:induction false} CommandKeepsNodes(s: State, c: Command)
    requires Ascending(s.nodes, NodeID) && Apply(s, c).Next?
    ensures Ascending(Apply(s, c).state.nodes, NodeID)
  {
    if c.UpdateNode? {
      PutNodeKeeps(s.nodes, Node(c.id, c.address, c.state, c.lastSeen));
    }
  }

  lemma {:induction false} CommandKeeps(s: State, c: Command)
    requires Kept(s) && Fresh(s, c) && Apply(s, c).Next?
    ensures Kept(Apply(s, c).state)
  {
    CommandKeepsSegments(s, c);
    CommandKeepsNames(s, c);
    CommandKeepsNodes(s, c);
  }

  lemma {:induction false} UsedIDBreaks(s: State, c: Command)
    requires c.CreateSegment? && InUse(s, c.id)
    ensures !SegmentsKept(OpenSegment(s, c))
  {
    var s', x := OpenSegment(s, c), Opened(c);
    assert x in multiset(s'.open);
    if HasKey(s.closed, SegmentID, c.id) {
      var i :| 0 <= i < |s.closed| && SegmentID(s.closed[i]) == c.id;
      assert x in s'.open && s.closed[i] in s'.closed;
    } else {
      var i :| 0 <= i < |s.open| && SegmentID(s.open[i]) == c.id;
      TwiceBreaks(s.open, i, x, s'.open);
    }
  }

  lemma {:induction false} AscendingOnce(r: seq<Segment>, x: Segment)
    requires Ascending(r, SegmentID)
    ensures multiset(r)[x] <= 1
    decreases |r|
  {
    if r != [] {
      var front, last := r[..|r| - 1], r[|r| - 1];
      AscendingOnce(front, x);
      assert forall k :: 0 <= k < |front| ==> front[k] == r[k] && SegmentID(r[k]) < SegmentID(last);
      assert last !in front;
      assert r == front + [last];
    }
  }

  lemma {:induction false} TwiceBreaks(segments: seq<Segment>, i: nat, x: Segment, r: seq<Segment>)
    requires i < |segments| && segments[i].id == x.id && multiset(r) == multiset(segments + [x])
    ensures !Ascending(r, SegmentID)
  {
    var g := segments[i];
    assert g in segments + [x] && x in segments + [x];
    if g == x {
      assert multiset(segments + [x]) == multiset(segments) + multiset{x};
      if Ascending(r, SegmentID) {
        AscendingOnce(r, x);
        assert false;
      }
    } else {
      assert g in multiset(r) && x in multiset(r);
      var j :| 0 <= j < |r| && r[j] == x;
      var k :| 0 <= k < |r| && r[k] == g;
      assert SegmentID(r[k]) == SegmentID(r[j]) && j != k;
    }
  }

  /** A command keeps the invariant exactly when it does not create a segment under an ID in use. */
  lemma {:induction false} CommandKeepsExact(s: State, c: Command)
    requires Kept(s) && Apply(s, c).Next?
    ensures Kept(Apply(s, c).state) <==> Fresh(s, c)
  {
    if Fresh(s, c) {
      CommandKeeps(s, c);
    } else {
      UsedIDBreaks(s, c);
    }
  }

  /** A log that runs without a panic and creates segments under fresh IDs only. */
  predicate IsLog(s: State, log: seq<Command>)
    decreases |log|
  {
    log == [] || (Fresh(s, log[0]) && Apply(s, log[0]).Next? && IsLog(Apply(s, log[0]).state, log[1..]))
  }

  function AfterLog(s: State, log: seq<Command>): State
    requires IsLog(s, log)
    decreases |log|
  {
    if log == [] then s else AfterLog(Apply(s, log[0]).state, log[1..])
  }

  lemma {:induction false} LogKeeps(s: State, log: seq<Command>)
    requires Kept(s) && IsLog(s, log)
    ensures Kept(AfterLog(s, log))
    decreases |log|
  {
    if log != [] {
      CommandKeeps(s, log[0]);
      LogKeeps(Apply(s, log[0]).state, log[1..]);
    }
  }

  // ---------------------------------------------------------------- lookups

  /** Binary search returns a segment exactly when a scan of the whole list would. */
  lemma {:induction false} LookupIsLinear(segments: seq<Segment>, id: nat)
    requires Ascending(segments, SegmentID)
    ensures Lookup(segments, id) ==
            var i := FindID(segments, id, 0); if i < |segments| then Some(segments[i]) else None
    ensures Lookup(segments, id).Some? ==> Lookup(segments, id).value in segments && Lookup(segments, id).value.id == id
    ensures forall g :: g in segments && g.id == id ==> Lookup(segments, id) == Some(g)
  {
    SearchFinds(segments, SegmentID, id);
    FoundByScan(segments, id);
    forall g | g in segments && g.id == id ensures Lookup(segments, id) == Some(g) {
      var k :| 0 <= k < |segments| && segments[k] == g;
      assert SegmentID(segments[k]) == id;
    }
  }

  lemma {:induction false} NeverBoth(s: State, id: nat)
    requires SegmentsKept(s)
    ensures GetOpen(s, id).None? || GetClosed(s, id).None?
  {
    LookupIsLinear(s.open, id);
    LookupIsLinear(s.closed, id);
  }

  /** In the state after any log, closing moves exactly one segment from the open to the closed ones
      and no other lookup changes. */
  lemma {:induction false} CloseMovesOne(log: seq<Command>, c: Command, id: nat)
    requires IsLog(EMPTY, log) && c.CloseSegment?
    requires GetOpen(AfterLog(EMPTY, log), c.id).Some?
    ensures var s := AfterLog(EMPTY, log);
            var s' := Apply(s, c).state;
            && GetClosed(s, c.id).None?
            && GetOpen(s', id) == (if id == c.id then None else GetOpen(s, id))
            && (id != c.id ==> GetClosed(s', id) == GetClosed(s, id)) && GetClosed(s', c.id).Some?
            && var was, now := GetOpen(s, c.id).value, GetClosed(s', c.id).value;
               && now.id == was.id && now.kind == was.kind
               && now.ownerNamespace == was.ownerNamespace && now.ownerName == was.ownerName
               && now.generation == was.generation && now.shard == was.shard && now.createdAt == was.createdAt
               && now.closedAt == c.closedAt && now.size == c.size && now.sum == c.sum
               && now.nodes.primary == 0 && now.nodes.done == [c.doneNode]
               && now.nodes.replicating == was.nodes.replicating
  {
    LogKeeps(EMPTY, log);
    CloseLookups(AfterLog(EMPTY, log), c, c.id);
    CloseLookups(AfterLog(EMPTY, log), c, id);
  }

  lemma {:induction false} CloseLookups(s: State, c: Command, id: nat)
    requires SegmentsKept(s) && c.CloseSegment? && GetOpen(s, c.id).Some?
    ensures var s' := Apply(s, c).state;
            && GetClosed(s, c.id).None?
            && GetOpen(s', id) == (if id == c.id then None else GetOpen(s, id))
            && GetClosed(s', id) == (if id == c.id then Some(Closed(GetOpen(s, id).value, c)) else GetClosed(s, id))
  {
    var s' := Apply(s, c).state;
    LookupIsLinear(s.open, c.id);
    var i := FindID(s.open, c.id, 0);
    MoveElements(s, s', i, Closed(s.open[i], c));
    SameLookup(s.open, s'.open, id, c.id);
    SameLookup(s.closed, s'.closed, id, c.id);
    MovedLookups(s, s', c.id, Closed(s.open[i], c));
  }

  lemma {:induction false} MovedLookups(s: State, s': State, id: nat, moved: Segment)
    requires Ascending(s.closed, SegmentID) && Ascending(s'.closed, SegmentID) && Ascending(s'.open, SegmentID)
    requires moved in s'.closed && moved.id == id
    requires forall h :: h in s.closed || h in s'.open ==> h.id != id
    ensures GetClosed(s, id).None? && GetOpen(s', id).None? && GetClosed(s', id) == Some(moved)
  {
    LookupIsLinear(s'.closed, id);
    LookupIsLinear(s'.open, id);
    LookupIsLinear(s.closed, id);
  }

  /** Two ascending lists that agree except for one ID give the same answers for every other ID. */
  lemma {:induction false} SameLookup(a: seq<Segment>, b: seq<Segment>, id: nat, except: nat)
    requires Ascending(a, SegmentID) && Ascending(b, SegmentID)
    requires forall g: Segment :: g.id != except ==> (g in a <==> g in b)
    ensures id != except ==> Lookup(a, id) == Lookup(b, id)
  {
    LookupIsLinear(a, id);
    LookupIsLinear(b, id);
  }
}
