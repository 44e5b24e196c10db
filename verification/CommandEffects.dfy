/** What each command does to every lookup: it changes the entry it names and no other. */
module CommandEffects {
  import opened Wrappers
  import opened Lists
  import opened ClusterState
  import opened ClusterInvariant

  // ---------------------------------------------------------------- lists by name

  function Get<T>(s: seq<T>, name: T -> string, wanted: string): Option<T> {
    var i := Find(s, name, wanted);
    if i == |s| then None else Some(s[i])
  }

  lemma {:induction false} GetIs<T(!new)>(s: seq<T>, name: T -> string, wanted: string, i: nat)
    requires i <= |s| && (forall k :: 0 <= k < i ==> name(s[k]) != wanted)
    requires i < |s| ==> name(s[i]) == wanted
    ensures Find(s, name, wanted) == i
  {
    var j := Find(s, name, wanted);
    assert forall k :: 0 <= k < j ==> name(s[k]) != wanted;
  }

  lemma {:induction false} GetAfterUpdate<T(!new)>(s: seq<T>, name: T -> string, i: nat, x: T, wanted: string)
    requires i < |s| && name(x) == name(s[i]) && i == Find(s, name, name(x))
    ensures Get(s[i := x], name, wanted) == if wanted == name(x) then Some(x) else Get(s, name, wanted)
  {
    FindSameNames(s, s[i := x], name, wanted);
  }

  lemma {:induction false} GetAfterAppend<T(!new)>(s: seq<T>, name: T -> string, x: T, wanted: string)
    requires Find(s, name, name(x)) == |s|
    ensures Get(s + [x], name, wanted) == if wanted == name(x) then Some(x) else Get(s, name, wanted)
  {
    var i := Find(s, name, wanted);
    var j := if i < |s| || wanted == name(x) then i else |s| + 1;
    GetIs(s + [x], name, wanted, j);
  }

  lemma {:induction false} GetAfterPut<T(!new)>(s: seq<T>, name: T -> string, x: T, wanted: string)
    ensures Get(Put(s, name, x), name, wanted) == if wanted == name(x) then Some(x) else Get(s, name, wanted)
  {
    var i := Find(s, name, name(x));
    if i < |s| {
      GetAfterUpdate(s, name, i, x, wanted);
    } else {
      GetAfterAppend(s, name, x, wanted);
    }
  }

  lemma {:induction false} GetAfterWithout<T(!new)>(s: seq<T>, name: T -> string, i: nat, wanted: string)
    requires Unique(s, name) && i < |s|
    ensures Get(Without(s, i), name, wanted) == if wanted == name(s[i]) then None else Get(s, name, wanted)
  {
    var r, j := Without(s, i), Find(s, name, wanted);
    assert forall k :: 0 <= k < |r| ==> r[k] == s[if k < i then k else k + 1];
    if wanted == name(s[i]) {
      GetIs(r, name, wanted, |r|);
    } else {
      GetIs(r, name, wanted, if j < i then j else j - 1);
    }
  }

  // ---------------------------------------------------------------- namespaces, topics and groups

  function GetNamespace(s: State, name: string): Option<Namespace> {
    Get(s.namespaces, NamespaceName, name)
  }

  function TopicIn(n: Option<Namespace>, name: string): Option<Topic> {
    if n.None? then None else Get(n.value.topics, TopicName, name)
  }

  function GroupIn(n: Option<Namespace>, name: string): Option<Group> {
    if n.None? then None else Get(n.value.groups, GroupName, name)
  }

  lemma {:induction false} QueriesByName(s: State, namespace: string, name: string)
    ensures GetTopic(s, namespace, name) == TopicIn(GetNamespace(s, namespace), name)
    ensures GetGroup(s, namespace, name) == GroupIn(GetNamespace(s, namespace), name)
  {
  }

  lemma {:induction false} WithNamespaceReads(s: State, i: nat, n: Namespace, namespace: string)
    requires i < |s.namespaces| && n.name == s.namespaces[i].name && i == NamespaceAt(s, n.name)
    ensures GetNamespace(WithNamespace(s, i, n), namespace)
         == if namespace == n.name then Some(n) else GetNamespace(s, namespace)
  {
    GetAfterUpdate(s.namespaces, NamespaceName, i, n, namespace);
  }

  /** A namespace that exists is left as it is; a new one is empty. */
  lemma {:induction false} CreateNamespaceReads(s: State, name: string, namespace: string)
    ensures GetNamespace(Apply(s, CreateNamespace(name)).state, namespace) ==
            if namespace == name && GetNamespace(s, name).None? then Some(Namespace(name, [], []))
            else GetNamespace(s, namespace)
  {
    if NamespaceAt(s, name) == |s.namespaces| {
      GetAfterAppend(s.namespaces, NamespaceName, Namespace(name, [], []), namespace);
    }
  }

  lemma {:induction false} DeleteNamespaceReads(s: State, name: string, namespace: string)
    requires NamesKept(s)
    ensures GetNamespace(Apply(s, DeleteNamespace(name)).state, namespace)
         == if namespace == name then None else GetNamespace(s, namespace)
  {
    var i := NamespaceAt(s, name);
    if i < |s.namespaces| {
      GetAfterWithout(s.namespaces, NamespaceName, i, namespace);
    }
  }

  /** The topic reads back as given, and no other topic or group changes. */
  lemma {:induction false} CreateTopicReads(s: State, c: Command, namespace: string, name: string)
    requires c.CreateTopic? && Apply(s, c).Next?
    ensures GetTopic(Apply(s, c).state, namespace, name) ==
            if namespace == c.namespace && name == c.topic.name then Some(c.topic) else GetTopic(s, namespace, name)
    ensures GetGroup(Apply(s, c).state, namespace, name) == GetGroup(s, namespace, name)
  {
    var i := NamespaceAt(s, c.namespace);
    var n := s.namespaces[i];
    var n' := n.(topics := Put(n.topics, TopicName, c.topic));
    WithNamespaceReads(s, i, n', namespace);
    GetAfterPut(n.topics, TopicName, c.topic, name);
    QueriesByName(s, namespace, name);
    QueriesByName(WithNamespace(s, i, n'), namespace, name);
  }

  /** Only that topic is gone. */
  lemma {:induction false} DeleteTopicReads(s: State, c: Command, namespace: string, name: string)
    requires NamesKept(s) && c.DeleteTopic? && Apply(s, c).Next?
    ensures GetTopic(Apply(s, c).state, namespace, name) ==
            if namespace == c.namespace && name == c.name then None else GetTopic(s, namespace, name)
  {
    var i := NamespaceAt(s, c.namespace);
    var n := s.namespaces[i];
    var j := Find(n.topics, TopicName, c.name);
    assert n in s.namespaces;
    QueriesByName(s, namespace, name);
    if j < |n.topics| {
      var n' := n.(topics := Without(n.topics, j),
                   groups := UnbindAll(s.open, s.closed, n.groups, n.name, c.name));
      WithNamespaceReads(s, i, n', namespace);
      GetAfterWithout(n.topics, TopicName, j, name);
      QueriesByName(WithNamespace(s, i, n'), namespace, name);
    }
  }

  /** The group reads back as given but keeps the commits it had, and no other group or topic changes. */
  lemma {:induction false} CreateGroupReads(s: State, c: Command, namespace: string, name: string)
    requires c.CreateGroup? && Apply(s, c).Next?
    ensures var was := GetGroup(s, c.namespace, c.group.name);
            GetGroup(Apply(s, c).state, namespace, name) ==
            if namespace == c.namespace && name == c.group.name
            then Some(c.group.(commits := if was.Some? then was.value.commits else []))
            else GetGroup(s, namespace, name)
    ensures GetTopic(Apply(s, c).state, namespace, name) == GetTopic(s, namespace, name)
  {
    var i := NamespaceAt(s, c.namespace);
    var n := s.namespaces[i];
    var j := Find(n.groups, GroupName, c.group.name);
    var g := c.group.(commits := if j < |n.groups| then n.groups[j].commits else []);
    var n' := n.(groups := Put(n.groups, GroupName, g));
    WithNamespaceReads(s, i, n', namespace);
    GetAfterPut(n.groups, GroupName, g, name);
    QueriesByName(s, namespace, name);
    QueriesByName(WithNamespace(s, i, n'), namespace, name);
  }

  /** The group and its offset-commits segments go; everything else stays. */
  lemma {:induction false} DeleteGroupReads(s: State, c: Command, namespace: string, name: string)
    requires NamesKept(s) && c.DeleteGroup? && GetGroup(s, c.namespace, c.name).Some?
    ensures Apply(s, c).Next?
    ensures var s' := Apply(s, c).state;
            && GetGroup(s', namespace, name) ==
               (if namespace == c.namespace && name == c.name then None else GetGroup(s, namespace, name))
            && GetTopic(s', namespace, name) == GetTopic(s, namespace, name)
            && (forall g :: g in s'.open <==>
                  && g in s.open
                  && !(g.kind.OffsetCommitsSegment? && g.ownerNamespace == c.namespace && g.ownerName == c.name))
            && (forall g :: g in s'.closed <==>
                  && g in s.closed
                  && !(g.kind.OffsetCommitsSegment? && g.ownerNamespace == c.namespace && g.ownerName == c.name))
  {
    var i := NamespaceAt(s, c.namespace);
    var n := s.namespaces[i];
    var j := Find(n.groups, GroupName, c.name);
    var n' := n.(groups := Without(n.groups, j));
    assert n in s.namespaces;
    WithNamespaceReads(s, i, n', namespace);
    GetAfterWithout(n.groups, GroupName, j, name);
    QueriesByName(s, namespace, name);
    QueriesByName(WithNamespace(s, i, n'), namespace, name);
  }

  /** The group's commits are the given ones in ascending order of segment; nothing else changes. */
  lemma {:induction false} UpdateOffsetCommitsReads(s: State, c: Command, namespace: string, name: string)
    requires c.UpdateOffsetCommits? && Apply(s, c).Next?
    ensures var was := GetGroup(s, namespace, name);
            GetGroup(Apply(s, c).state, namespace, name) ==
            if namespace == c.namespace && name == c.name && was.Some?
            then Some(was.value.(commits := Sort(c.commits, CommitSegment))) else was
    ensures multiset(Sort(c.commits, CommitSegment)) == multiset(c.commits)
    ensures InOrder(Sort(c.commits, CommitSegment), CommitSegment)
    ensures GetTopic(Apply(s, c).state, namespace, name) == GetTopic(s, namespace, name)
  {
    var i := NamespaceAt(s, c.namespace);
    var n := s.namespaces[i];
    var j := Find(n.groups, GroupName, c.name);
    SortOrders(c.commits, CommitSegment);
    if j < |n.groups| {
      var g := n.groups[j].(commits := Sort(c.commits, CommitSegment));
      var n' := n.(groups := n.groups[j := g]);
      WithNamespaceReads(s, i, n', namespace);
      GetAfterUpdate(n.groups, GroupName, j, g, name);
      QueriesByName(s, namespace, name);
      QueriesByName(WithNamespace(s, i, n'), namespace, name);
    }
  }

  // ---------------------------------------------------------------- segments

  lemma {:induction false} SameAnswer(a: seq<Segment>, b: seq<Segment>, id: nat)
    requires Ascending(a, SegmentID) && Ascending(b, SegmentID)
    requires forall g: Segment :: g.id == id ==> (g in a <==> g in b)
    ensures Lookup(a, id) == Lookup(b, id)
  {
    LookupIsLinear(a, id);
    LookupIsLinear(b, id);
  }

  /** The new segment is found as the command describes it, without copies, size or sum; every other one as
      before, and the counter is not below its ID. */
  lemma {:induction false} CreateSegmentReads(s: State, c: Command, id: nat)
    requires SegmentsKept(s) && c.CreateSegment? && Fresh(s, c)
    ensures Apply(s, c).Next?
    ensures var s' := Apply(s, c).state;
            && (id != c.id ==> GetOpen(s', id) == GetOpen(s, id)) && GetOpen(s', c.id).Some?
            && var g := GetOpen(s', c.id).value;
               && g.id == c.id && g.kind == c.kind && g.ownerNamespace == c.namespace && g.ownerName == c.name
               && g.generation == c.generation && g.shard == c.shard && g.createdAt == c.openedAt
               && g.nodes.primary == c.primary && g.nodes.replicating == c.replicating && g.nodes.done == []
               && g.closedAt == g.size == 0 && g.sum == []
    ensures var s' := Apply(s, c).state;
            && GetClosed(s', id) == GetClosed(s, id)
            && s'.currentSegmentID == (if c.id > s.currentSegmentID then c.id else s.currentSegmentID)
  {
    OpenKeeps(s, c);
    CreatedLookups(s.open, OpenSegment(s, c).open, Opened(c), id);
    CreatedLookups(s.open, OpenSegment(s, c).open, Opened(c), c.id);
  }

  lemma {:induction false} CreatedLookups(a: seq<Segment>, b: seq<Segment>, x: Segment, id: nat)
    requires Ascending(a, SegmentID) && Ascending(b, SegmentID)
    requires forall g :: g in b <==> g in a || g == x
    ensures Lookup(b, id) == if id == x.id then Some(x) else Lookup(a, id)
  {
    if id == x.id {
      LookupIsLinear(b, id);
    } else {
      SameAnswer(a, b, id);
    }
  }

  function Replaced(g: Option<Segment>, named: bool, nodes: Nodes): Option<Segment> {
    if g.Some? && named then Some(g.value.(nodes := nodes)) else g
  }

  lemma {:induction false} ReplacedLookups(a: seq<Segment>, target: nat, nodes: Nodes, id: nat)
    requires Ascending(a, SegmentID)
    ensures Lookup(ReplaceNodes(a, target, nodes), id) == Replaced(Lookup(a, id), id == target, nodes)
  {
    var i := Search(a, SegmentID, target);
    SearchFinds(a, SegmentID, target);
    if i < |a| && a[i].id == target {
      var x := a[i].(nodes := nodes);
      ReplaceAscending(a, SegmentID, i, x);
      if id == target {
        LookupIsLinear(a[i := x], id);
      } else {
        SameAnswer(a, a[i := x], id);
      }
    }
  }

  lemma {:induction false} SetNodesLookups(s: State, target: nat, which: Which, nodes: Nodes, id: nat)
    requires SegmentsKept(s)
    ensures var s' := SetNodes(s, target, which, nodes);
            && GetOpen(s', id) == Replaced(GetOpen(s, id), which.InOpen? && id == target, nodes)
            && GetClosed(s', id) == Replaced(GetClosed(s, id), which.InClosed? && id == target, nodes)
  {
    if which.InOpen? {
      ReplacedLookups(s.open, target, nodes, id);
    } else {
      ReplacedLookups(s.closed, target, nodes, id);
    }
  }

  /** Only the nodes of the named segment change. */
  lemma {:induction false} UpdateNodesReads(s: State, target: nat, which: Which, nodes: Nodes, id: nat)
    requires SegmentsKept(s)
    ensures var s' := Apply(s, UpdateNodes(target, which, nodes)).state;
            && GetOpen(s', id) == Replaced(GetOpen(s, id), which.InOpen? && id == target, nodes)
            && GetClosed(s', id) == Replaced(GetClosed(s, id), which.InClosed? && id == target, nodes)
  {
    SetNodesLookups(s, target, which, nodes, id);
    assert Apply(s, UpdateNodes(target, which, nodes)) == Next(SetNodes(s, target, which, nodes));
  }

  lemma {:induction false} DroppedLookups(a: seq<Segment>, target: nat, id: nat)
    requires Ascending(a, SegmentID)
    ensures Lookup(Dropped(a, target), id) == if id == target then None else Lookup(a, id)
  {
    DropKeeps(a, target);
    if id == target {
      LookupIsLinear(Dropped(a, target), id);
    } else {
      SameAnswer(a, Dropped(a, target), id);
    }
  }

  /** Only the named segment goes, and only from the list it was named in. */
  lemma {:induction false} DeleteSegmentReads(s: State, target: nat, which: Which, id: nat)
    requires SegmentsKept(s)
    ensures var s' := Apply(s, DeleteSegment(target, which)).state;
            && GetOpen(s', id) == (if which.InOpen? && id == target then None else GetOpen(s, id))
            && GetClosed(s', id) == (if which.InClosed? && id == target then None else GetClosed(s, id))
  {
    if which.InOpen? {
      DroppedLookups(s.open, target, id);
    } else {
      DroppedLookups(s.closed, target, id);
    }
  }

  // ---------------------------------------------------------------- what a command leaves alone

  /** A command panics exactly when it is for a namespace that does not exist. */
  lemma {:induction false} PanicsExactly(s: State, c: Command)
    ensures Apply(s, c).Panic? <==>
      && (c.CreateTopic? || c.DeleteTopic? || c.CreateGroup? || c.DeleteGroup? || c.UpdateOffsetCommits?)
      && forall n :: n in s.namespaces ==> n.name != c.namespace
  {
    if InNamespace(c) {
      var i := NamespaceAt(s, c.namespace);
      if i < |s.namespaces| {
        assert s.namespaces[i] in s.namespaces;
      }
    }
  }

  /** Each command changes one part of the state: nodes only by their own command, the counter only by creating
      a segment, segments only by commands for them and by deleting their owner. */
  lemma {:induction false} CommandFrames(s: State, c: Command)
    requires Apply(s, c).Next?
    ensures var s' := Apply(s, c).state;
            && s'.index == s.index
            && (!c.UpdateNode? ==> s'.nodes == s.nodes)
            && (!c.CreateSegment? ==> s'.currentSegmentID == s.currentSegmentID)
            && (c.CreateNamespace? || c.DeleteNamespace? ==> s'.open == s.open && s'.closed == s.closed)
            && (c.CreateTopic? || c.CreateGroup? ==> s'.open == s.open && s'.closed == s.closed)
            && (c.UpdateOffsetCommits? || c.UpdateNode? ==> s'.open == s.open && s'.closed == s.closed)
            && (c.CreateSegment? ==> s'.closed == s.closed)
            && ((c.UpdateNodes? || c.DeleteSegment?) && c.which.InOpen? ==> s'.closed == s.closed)
            && ((c.UpdateNodes? || c.DeleteSegment?) && c.which.InClosed? ==> s'.open == s.open)
            && (c.CreateSegment? || c.CloseSegment? || c.UpdateNode? ==> s'.namespaces == s.namespaces)
            && (c.UpdateNodes? || c.DeleteSegment? ==> s'.namespaces == s.namespaces)
  {
  }

  /** A command inside a namespace leaves the other namespaces as they are. */
  lemma {:induction false} OtherNamespacesStay(s: State, c: Command, namespace: string)
    requires InNamespace(c) && Apply(s, c).Next? && namespace != c.namespace
    ensures GetNamespace(Apply(s, c).state, namespace) == GetNamespace(s, namespace)
  {
    var i, s' := NamespaceAt(s, c.namespace), Apply(s, c).state;
    assert |s'.namespaces| == |s.namespaces|;
    assert s'.namespaces == s.namespaces[i := s'.namespaces[i]] && s'.namespaces[i].name == s.namespaces[i].name;
    GetAfterUpdate(s.namespaces, NamespaceName, i, s'.namespaces[i], namespace);
  }

  /** Deleting or updating what is not there changes nothing. */
  lemma {:induction false} MissingStays(s: State, c: Command)
    requires Apply(s, c).Next?
    requires || (c.DeleteNamespace? && GetNamespace(s, c.namespace).None?)
             || (c.DeleteTopic? && GetTopic(s, c.namespace, c.name).None?)
             || ((c.DeleteGroup? || c.UpdateOffsetCommits?) && GetGroup(s, c.namespace, c.name).None?)
             || (c.CloseSegment? && forall g :: g in s.open ==> g.id != c.id)
    ensures Apply(s, c).state == s
  {
  }

  /** The node is there as the command describes it, every other one as it was. */
  lemma {:induction false} UpdateNodeReads(s: State, c: Command)
    requires Ascending(s.nodes, NodeID) && c.UpdateNode?
    ensures Apply(s, c).Next?
    ensures forall n :: n in Apply(s, c).state.nodes <==>
      || (n in s.nodes && n.id != c.id)
      || (n.id == c.id && n.address == c.address && n.state == c.state && n.lastSeen == c.lastSeen)
  {
    PutNodeKeeps(s.nodes, Node(c.id, c.address, c.state, c.lastSeen));
  }
}
