/** Which segments a consumer group's offset commits refer to: deleting topics, and the reconciler. */
module OffsetCommits {
  import opened Wrappers
  import opened Lists
  import opened ClusterState
  import opened ClusterInvariant
  import opened Placement
  import opened SegmentOpen
  import CommandEffects

  // ---------------------------------------------------------------- deleting a topic

  lemma {:induction false} LookupRemaining(segments: seq<Segment>, kind: SegmentKind, namespace: string, name: string,
                                           id: nat)
    requires Ascending(segments, SegmentID)
    ensures var was := Lookup(segments, id);
            Lookup(NotOwned(segments, kind, namespace, name), id)
            == if was.Some? && Owned(was.value, kind, namespace, name) then None else was
  {
    FilterAscending(segments, SegmentID, (g: Segment) => !Owned(g, kind, namespace, name));
    LookupIsLinear(segments, id);
    LookupIsLinear(NotOwned(segments, kind, namespace, name), id);
  }

  /** A segment can still be found after the deletion exactly when it was not the topic's. */
  lemma {:induction false} SegmentAfterDelete(s: State, c: Command, id: nat)
    requires Kept(s) && c.DeleteTopic? && GetTopic(s, c.namespace, c.name).Some?
    ensures Apply(s, c).Next?
    ensures var was := GetSegment(s, id);
            GetSegment(Apply(s, c).state, id)
            == if was.Some? && Owned(was.value, TopicSegment, c.namespace, c.name) then None else was
  {
    LookupRemaining(s.open, TopicSegment, c.namespace, c.name, id);
    LookupRemaining(s.closed, TopicSegment, c.namespace, c.name, id);
    NeverBoth(s, id);
  }

  /** Bindings to other topics and commits that still resolve, and only those. */
  ghost predicate Cleaned(s': State, g: Group, g': Group, topic: string) {
    && g' == g.(bindings := g'.bindings, commits := g'.commits)
    && (forall b :: b in g'.bindings <==> b in g.bindings && b.topicName != topic)
    && (forall c :: c in g'.commits <==> c in g.commits && GetSegment(s', c.segment).Some?)
  }

  lemma {:induction false} UnbindCleans(s: State, c: Command, g: Group)
    requires Kept(s) && c.DeleteTopic? && GetTopic(s, c.namespace, c.name).Some?
    ensures Apply(s, c).Next? && Cleaned(Apply(s, c).state, g, Unbind(s.open, s.closed, g, c.namespace, c.name), c.name)
  {
    forall m | m in g.commits
      ensures m in Unbind(s.open, s.closed, g, c.namespace, c.name).commits
              <==> GetSegment(Apply(s, c).state, m.segment).Some?
    {
      SegmentAfterDelete(s, c, m.segment);
    }
  }

  /** Deleting a topic leaves no segment of it, and in its namespace no binding to it and no commit
      that refers to nothing; everything else stays. */
  lemma {:induction false} DeleteTopicLeavesNothing(s: State, c: Command)
    requires Kept(s) && c.DeleteTopic? && GetTopic(s, c.namespace, c.name).Some?
    ensures Apply(s, c).Next?
    ensures forall namespace, name ::
      GetTopic(Apply(s, c).state, namespace, name) ==
      if namespace == c.namespace && name == c.name then None else GetTopic(s, namespace, name)
    ensures var s' := Apply(s, c).state;
            && (forall g :: g in s'.open <==>
                  g in s.open && !(g.kind.TopicSegment? && g.ownerNamespace == c.namespace && g.ownerName == c.name))
            && (forall g :: g in s'.closed <==>
                  g in s.closed && !(g.kind.TopicSegment? && g.ownerNamespace == c.namespace && g.ownerName == c.name))
    ensures var s', i := Apply(s, c).state, NamespaceAt(s, c.namespace);
            && |s'.namespaces| == |s.namespaces| && s'.namespaces == s.namespaces[i := s'.namespaces[i]]
            && |s'.namespaces[i].groups| == |s.namespaces[i].groups|
            && forall j :: 0 <= j < |s.namespaces[i].groups| ==>
                 Cleaned(s', s.namespaces[i].groups[j], s'.namespaces[i].groups[j], c.name)
  {
    var s', i := Apply(s, c).state, NamespaceAt(s, c.namespace);
    var n, n' := s.namespaces[i], s'.namespaces[i];
    forall j | 0 <= j < |n.groups| ensures Cleaned(s', n.groups[j], n'.groups[j], c.name) {
      UnbindCleans(s, c, n.groups[j]);
    }
    forall namespace, name
      ensures GetTopic(s', namespace, name) ==
              if namespace == c.namespace && name == c.name then None else GetTopic(s, namespace, name)
    {
      CommandEffects.DeleteTopicReads(s, c, namespace, name);
    }
  }

  // ---------------------------------------------------------------- reconciling commits

  /** A segment of a topic in this namespace to which the group is bound. */
  predicate Wanted(g: Segment, namespace: string, bound: set<string>) {
    g.kind.TopicSegment? && g.ownerNamespace == namespace && g.ownerName in bound
  }

  function WantedIDs(segments: seq<Segment>, namespace: string, bound: set<string>): set<nat> {
    set g | g in segments && Wanted(g, namespace, bound) :: g.id
  }

  function BoundTopics(bindings: seq<Binding>): set<string> {
    set b | b in bindings :: b.topicName
  }

  function CommittedIDs(commits: seq<OffsetCommit>): set<nat> {
    set c | c in commits :: c.segment
  }

  /** A commit at offset zero for every wanted segment that has none, in order. */
  function NewCommits(segments: seq<Segment>, namespace: string, bound: set<string>, have: set<nat>)
    : seq<OffsetCommit>
  {
    if segments == [] then []
    else
      var front, g := segments[..|segments| - 1], segments[|segments| - 1];
      NewCommits(front, namespace, bound, have)
      + if Wanted(g, namespace, bound) && g.id !in have then [OffsetCommit(g.id, 0)] else []
  }

  function KeptCommits(commits: seq<OffsetCommit>, wanted: set<nat>): (r: seq<OffsetCommit>)
    ensures forall c :: c in r <==> c in commits && c.segment in wanted
  {
    Filter(commits, (c: OffsetCommit) => c.segment in wanted)
  }

  lemma {:induction false} NewCommitsAre(segments: seq<Segment>, namespace: string, bound: set<string>, have: set<nat>)
    ensures forall c :: c in NewCommits(segments, namespace, bound, have) <==>
      c.offset == 0 && c.segment in WantedIDs(segments, namespace, bound) && c.segment !in have
    decreases |segments|
  {
    if segments != [] {
      var front, g := segments[..|segments| - 1], segments[|segments| - 1];
      NewCommitsAre(front, namespace, bound, have);
      WantedStep(segments, |segments| - 1, namespace, bound);
      assert segments[..|segments|] == segments;
    }
  }

  lemma {:induction false} WantedStep(segments: seq<Segment>, i: nat, namespace: string, bound: set<string>)
    requires i < |segments|
    ensures WantedIDs(segments[..i + 1], namespace, bound)
         == WantedIDs(segments[..i], namespace, bound)
            + if Wanted(segments[i], namespace, bound) then {segments[i].id} else {}
  {
    assert segments[..i + 1] == segments[..i] + [segments[i]];
  }

  lemma {:induction false} SameSize(a: set<nat>, b: set<nat>)
    requires a <= b && |a| == |b|
    ensures a == b
  {
    assert b == a + (b - a);
  }

  method CollectBound(bindings: seq<Binding>) returns (bound: set<string>)
    ensures bound == BoundTopics(bindings)
  {
    bound := {};
    for i := 0 to |bindings|
      invariant bound == BoundTopics(bindings[..i])
    {
      assert bindings[..i + 1] == bindings[..i] + [bindings[i]];
      bound := bound + {bindings[i].topicName};
    }
    assert bindings[..|bindings|] == bindings;
  }

  method CollectCommitted(commits: seq<OffsetCommit>) returns (m: set<nat>)
    ensures m == CommittedIDs(commits)
  {
    m := {};
    for i := 0 to |commits|
      invariant m == CommittedIDs(commits[..i])
    {
      assert commits[..i + 1] == commits[..i] + [commits[i]];
      m := m + {commits[i].segment};
    }
    assert commits[..|commits|] == commits;
  }

  /** The open segments and then the closed ones. */
  method Collect(segments: seq<Segment>, namespace: string, bound: set<string>, m: set<nat>)
    returns (added: seq<OffsetCommit>, n: set<nat>)
    ensures added == NewCommits(segments, namespace, bound, m)
    ensures n == WantedIDs(segments, namespace, bound)
  {
    added, n := [], {};
    for i := 0 to |segments|
      invariant added == NewCommits(segments[..i], namespace, bound, m)
      invariant n == WantedIDs(segments[..i], namespace, bound)
    {
      WantedStep(segments, i, namespace, bound);
      assert segments[..i + 1][..i] == segments[..i];
      if Wanted(segments[i], namespace, bound) {
        if segments[i].id !in m {
          added := added + [OffsetCommit(segments[i].id, 0)];
        }
        n := n + {segments[i].id};
      }
    }
    assert segments[..|segments|] == segments;
  }

  /** The group has commits for exactly the segments of the topics it is bound to. */
  predicate Settled(s: State, namespace: string, group: Group) {
    CommittedIDs(group.commits) == WantedIDs(s.open + s.closed, namespace, BoundTopics(group.bindings))
  }

  /** No command when the commits are for exactly the wanted segments; otherwise commits for exactly
      those, with old offsets kept and new ones zero. */
  method ReconcileCommits(s: State, namespace: string, group: Group) returns (r: Option<seq<OffsetCommit>>)
    ensures r.None? <==> Settled(s, namespace, group)
    ensures var wanted := WantedIDs(s.open + s.closed, namespace, BoundTopics(group.bindings));
            && (r.Some? ==>
                 && CommittedIDs(r.value) == wanted
                 && (forall c :: c in r.value <==>
                      || (c in group.commits && c.segment in wanted)
                      || (c.offset == 0 && c.segment in wanted && c.segment !in CommittedIDs(group.commits)))
                 && r.value == KeptCommits(group.commits, wanted)
                      + NewCommits(s.open + s.closed, namespace, BoundTopics(group.bindings),
                                   CommittedIDs(group.commits)))
  {
    var bound := CollectBound(group.bindings);
    var m := CollectCommitted(group.commits);
    var added, n := Collect(s.open + s.closed, namespace, bound, m);
    NewCommitsAre(s.open + s.closed, namespace, bound, m);
    if added == [] && |m| == |n| {
      EarlyExit(added, m, n);
      return None;
    }
    var kept := KeptCommits(group.commits, n);
    EarlyExit(added, m, n);
    CommitsCover(group.commits, n, kept + added);
    r := Some(kept + added);
  }

  lemma {:induction false} CommitsCover(commits: seq<OffsetCommit>, wanted: set<nat>, r: seq<OffsetCommit>)
    requires forall c :: c in r <==>
      || (c in commits && c.segment in wanted)
      || (c.offset == 0 && c.segment in wanted && c.segment !in CommittedIDs(commits))
    ensures CommittedIDs(r) == wanted
  {
    forall id | id in wanted ensures id in CommittedIDs(r) {
      if id in CommittedIDs(commits) {
        var c :| c in commits && c.segment == id;
        assert c in r;
      } else {
        assert OffsetCommit(id, 0) in r;
      }
    }
  }

  /** Nothing new and as many commits as wanted segments means the same segments. */
  lemma {:induction false} EarlyExit(added: seq<OffsetCommit>, m: set<nat>, n: set<nat>)
    requires forall c :: c in added <==> c.offset == 0 && c.segment in n && c.segment !in m
    ensures added == [] && |m| == |n| <==> m == n
  {
    assert |added| > 0 ==> added[0] in added;
    if added == [] {
      forall id | id in n ensures id in m {
        assert OffsetCommit(id, 0) !in added;
      }
      if |m| == |n| {
        SameSize(n, m);
      }
    }
  }

  // ---------------------------------------------------------------- applying the command

  lemma {:induction false} CommitsStored(s: State, namespace: string, name: string, commits: seq<OffsetCommit>)
    requires GetGroup(s, namespace, name).Some?
    ensures var c := UpdateOffsetCommits(namespace, name, commits);
            && Apply(s, c).Next?
            && var s' := Apply(s, c).state;
               && GetGroup(s', namespace, name)
                  == Some(GetGroup(s, namespace, name).value.(commits := Sort(commits, CommitSegment)))
               && CommittedIDs(Sort(commits, CommitSegment)) == CommittedIDs(commits)
               && s'.open == s.open && s'.closed == s.closed
  {
    SameElements(Sort(commits, CommitSegment), commits);
    CommandEffects.UpdateOffsetCommitsReads(s, UpdateOffsetCommits(namespace, name, commits), namespace, name);
  }

  /** A settled group has commits for exactly the segments, open or closed, of the topics it is bound to in its
      namespace. */
  lemma {:induction false} SettledMeans(s: State, namespace: string, group: Group, id: nat)
    requires Settled(s, namespace, group)
    ensures (exists c :: c in group.commits && c.segment == id) <==>
            exists g :: (g in s.open || g in s.closed) && g.id == id && g.kind.TopicSegment?
                        && g.ownerNamespace == namespace
                        && exists b :: b in group.bindings && b.topicName == g.ownerName
  {
    var all, bound := s.open + s.closed, BoundTopics(group.bindings);
    assert (exists c :: c in group.commits && c.segment == id) <==> id in CommittedIDs(group.commits);
    assert id in WantedIDs(all, namespace, bound)
           <==> exists g :: g in all && Wanted(g, namespace, bound) && g.id == id;
  }

  /** Reconciling a group's commits and applying the command, if there is one, settles the group: another
      call would find nothing to do. */
  method ReconcileGroupCommits(s: State, namespace: string, name: string) returns (s': State)
    requires GetGroup(s, namespace, name).Some?
    ensures s'.open == s.open && s'.closed == s.closed
    ensures GetGroup(s', namespace, name).Some?
    ensures var was, group := GetGroup(s, namespace, name).value, GetGroup(s', namespace, name).value;
            && Settled(s', namespace, group)
            && group == was.(commits := group.commits)
            && (forall c :: c in was.commits && c.segment in CommittedIDs(group.commits) ==> c in group.commits)
            && (forall c :: c in group.commits ==>
                  c in was.commits || (c.offset == 0 && c.segment !in CommittedIDs(was.commits)))
  {
    var group := GetGroup(s, namespace, name).value;
    var r := ReconcileCommits(s, namespace, group);
    if r.None? {
      return s;
    }
    CommitsStored(s, namespace, name, r.value);
    SameElements(Sort(r.value, CommitSegment), r.value);
    s' := Apply(s, UpdateOffsetCommits(namespace, name, r.value)).state;
  }

  lemma {:induction false} NewCommitsDistinct(segments: seq<Segment>, namespace: string, bound: set<string>,
                                              have: set<nat>)
    requires DistinctKeys(segments, SegmentID)
    ensures DistinctKeys(NewCommits(segments, namespace, bound, have), CommitSegment)
    decreases |segments|
  {
    if segments != [] {
      var front, g := segments[..|segments| - 1], segments[|segments| - 1];
      NewCommitsDistinct(front, namespace, bound, have);
      NewCommitsAre(front, namespace, bound, have);
      var r := NewCommits(front, namespace, bound, have);
      forall i | 0 <= i < |r| ensures r[i].segment != g.id {
        assert r[i] in r;
        var h :| h in front && h.id == r[i].segment;
        var k :| 0 <= k < |front| && front[k] == h;
        assert SegmentID(segments[k]) != SegmentID(g);
      }
    }
  }

  lemma {:induction false} AllDistinct(s: State)
    requires SegmentsKept(s)
    ensures DistinctKeys(s.open + s.closed, SegmentID)
  {
    var all := s.open + s.closed;
    forall i, j | 0 <= i < j < |all| ensures SegmentID(all[i]) != SegmentID(all[j]) {
      if i < |s.open| <= j {
        assert s.open[i] in s.open && s.closed[j - |s.open|] in s.closed;
      }
    }
  }

  /** A group with one commit per segment keeps it that way, in ascending order. */
  lemma {:induction false} CommitsStayDistinct(s: State, namespace: string, group: Group)
    requires SegmentsKept(s) && DistinctKeys(group.commits, CommitSegment)
    ensures var all, bound := s.open + s.closed, BoundTopics(group.bindings);
            Ascending(Sort(KeptCommits(group.commits, WantedIDs(all, namespace, bound))
                           + NewCommits(all, namespace, bound, CommittedIDs(group.commits)),
                           CommitSegment), CommitSegment)
  {
    var all, bound := s.open + s.closed, BoundTopics(group.bindings);
    var wanted, have := WantedIDs(all, namespace, bound), CommittedIDs(group.commits);
    var kept, added := KeptCommits(group.commits, wanted), NewCommits(all, namespace, bound, have);
    AllDistinct(s);
    NewCommitsDistinct(all, namespace, bound, have);
    NewCommitsAre(all, namespace, bound, have);
    FilterDistinctKeys(group.commits, CommitSegment, (c: OffsetCommit) => c.segment in wanted);
    forall i, j | 0 <= i < |kept| && 0 <= j < |added| ensures kept[i].segment != added[j].segment {
      assert kept[i] in kept && added[j] in added;
    }
    SortOfDistinct(kept + added, CommitSegment);
  }
}
