/** A pass of the reconciler over every segment, each command applied to the cluster state. */
module ReconcilePass {
  import opened Wrappers
  import opened Lists
  import opened ClusterState
  import opened ClusterInvariant
  import opened Placement
  import opened SegmentOpen
  import opened Reconciler
  import opened Convergence
  import Failover

  /** What asking the replicas of a segment for its size gave: nodes that did not answer, and sizes,
      negative when a node has no file. */
  datatype Report = Report(unreachable: set<nat>, sizes: map<nat, int>)

  datatype Action = Delete | Go(plan: Plan)

  function OwnerOf(g: Segment): Owner {
    Owner(g.kind, g.ownerNamespace, g.ownerName)
  }

  function UpNodes(states: States): set<nat> {
    set n | n in states && states[n].Alive?
  }

  // ---------------------------------------------------------------- open segments

  /** The first replica that is not in the table, or is up but does not tell its size. */
  function StopAt(replicating: seq<nat>, states: States, unreachable: set<nat>, from: nat): (i: nat)
    requires from <= |replicating|
    ensures from <= i <= |replicating|
    ensures i < |replicating| ==>
      replicating[i] !in states || (IsUp(states, replicating[i]) && replicating[i] in unreachable)
    ensures forall k :: from <= k < i ==>
      replicating[k] in states && !(IsUp(states, replicating[k]) && replicating[k] in unreachable)
    decreases |replicating| - from
  {
    if from == |replicating| || replicating[from] !in states
       || (IsUp(states, replicating[from]) && replicating[from] in unreachable) then from
    else StopAt(replicating, states, unreachable, from + 1)
  }

  /** A dead primary is replaced by the alive replica with the largest file. A replica that is not in the
      table is a panic and a size that cannot be had ends the attempt, whichever comes first. */
  ghost predicate Promotion(replicating: seq<nat>, states: States, report: Report, plan: Plan) {
    var up, stop := UpNodes(states), StopAt(replicating, states, report.unreachable, 0);
    if stop < |replicating| then plan == if replicating[stop] !in states then Panicked else Keep
    else if forall n :: n in replicating && n in up ==> Failover.Reported(report.sizes, n) < 0 then plan == Keep
    else exists at: nat ::
      && Failover.FirstLargest(replicating, up, report.sizes, at)
      && plan == if replicating[at] == 0 then Keep
                 else Update(Nodes(replicating[at], Failover.Others(replicating, up, replicating[at]), []))
  }

  /** Every alive replica tells its size, one of them has a file, and the first with the largest is no node 0. */
  ghost predicate Promotable(replicating: seq<nat>, states: States, report: Report) {
    && (forall n :: n in replicating && IsUp(states, n) ==> n !in report.unreachable)
    && (exists n :: n in replicating && IsUp(states, n) && Failover.Reported(report.sizes, n) >= 0)
    && forall at: nat :: Failover.FirstLargest(replicating, UpNodes(states), report.sizes, at) ==> replicating[at] != 0
  }

  lemma {:induction false} OneFirstLargest(replicating: seq<nat>, up: set<nat>, sizes: map<nat, int>, i: nat, j: nat)
    requires Failover.FirstLargest(replicating, up, sizes, i) && Failover.FirstLargest(replicating, up, sizes, j)
    ensures i == j
  {
  }

  /** A dead primary is replaced exactly when all replicas are in the table and the segment is promotable. */
  lemma {:induction false} PromotesExactly(replicating: seq<nat>, states: States, report: Report, plan: Plan)
    requires Promotion(replicating, states, report, plan)
    ensures plan.Update? <==> Known(states, replicating) && Promotable(replicating, states, report)
  {
    var up, stop := UpNodes(states), StopAt(replicating, states, report.unreachable, 0);
    if stop < |replicating| {
      assert replicating[stop] in replicating;
    } else if exists n :: n in replicating && n in up && Failover.Reported(report.sizes, n) >= 0 {
      var at: nat :|
        && Failover.FirstLargest(replicating, up, report.sizes, at)
        && plan == if replicating[at] == 0 then Keep
                   else Update(Nodes(replicating[at], Failover.Others(replicating, up, replicating[at]), []));
      forall k: nat | Failover.FirstLargest(replicating, up, report.sizes, k) ensures k == at {
        OneFirstLargest(replicating, up, report.sizes, k, at);
      }
    }
  }

  method ReconcileDeadPrimary(replicating: seq<nat>, states: States, report: Report) returns (plan: Plan)
    ensures Promotion(replicating, states, report, plan)
  {
    for i := 0 to |replicating|
      invariant StopAt(replicating, states, report.unreachable, 0) == StopAt(replicating, states, report.unreachable, i)
    {
      var n := replicating[i];
      if n !in states {
        return Panicked;
      }
      if states[n].Alive? && n in report.unreachable {
        return Keep;
      }
    }
    var cmd, at := Failover.PromoteReplica(replicating, UpNodes(states), {}, report.sizes);
    plan := if cmd.None? then Keep else Update(Nodes(cmd.value.primary, cmd.value.replicating, []));
  }

  ghost predicate OpenAction(s: State, g: Segment, states: States, candidates: seq<nat>, counts: Counts,
                             report: Report, action: Action) {
    if !OwnerExists(s, OwnerOf(g)) then action == Delete
    else
      && action.Go?
      && if g.nodes.primary !in states then action.plan == Panicked
         else if states[g.nodes.primary].Alive? then
           OpenPlan(g.nodes, Factor(s, OwnerOf(g)), states, candidates, counts, action.plan)
         else Promotion(g.nodes.replicating, states, report, action.plan)
  }

  /** Only planning replicas for an alive primary moves the counts. */
  ghost predicate OpenTally(s: State, g: Segment, states: States, action: Action, counts: Counts, counts': Counts) {
    if OwnerExists(s, OwnerOf(g)) && action.Go? && IsUp(states, g.nodes.primary)
    then OpenCounts(g.nodes, Factor(s, OwnerOf(g)), states, action.plan, counts, counts')
    else counts' == counts
  }

  method ReconcileOpenSegment(s: State, g: Segment, states: States, candidates: seq<nat>, counts: Counts,
                              report: Report)
    returns (action: Action, counts': Counts)
    requires Distinct(candidates)
    ensures OpenAction(s, g, states, candidates, counts, report, action)
    ensures OpenTally(s, g, states, action, counts, counts')
  {
    counts' := counts;
    if !OwnerExists(s, OwnerOf(g)) {
      return Delete, counts';
    }
    if g.nodes.primary !in states {
      return Go(Panicked), counts';
    }
    var plan;
    if states[g.nodes.primary].Alive? {
      plan, counts' := ReconcileAlivePrimary(g.nodes, Factor(s, OwnerOf(g)), states, candidates, counts);
    } else {
      plan := ReconcileDeadPrimary(g.nodes.replicating, states, report);
    }
    action := Go(plan);
  }

  // ---------------------------------------------------------------- closed segments

  /** Some group, in whatever namespace, has not consumed the segment to its end. */
  predicate Needed(s: State, g: Segment) {
    exists n :: n in s.namespaces && NeededIn(n, g)
  }

  predicate NeededIn(n: Namespace, g: Segment) {
    exists c :: c in n.groups && NeededBy(c, g)
  }

  predicate NeededBy(c: Group, g: Segment) {
    exists k :: 0 <= k < |c.commits| && c.commits[k].segment == g.id && c.commits[k].offset < g.size
  }

  method IsNeeded(s: State, g: Segment) returns (needed: bool)
    ensures needed <==> Needed(s, g)
  {
    for i := 0 to |s.namespaces|
      invariant forall n :: n in s.namespaces[..i] ==> !NeededIn(n, g)
    {
      var groups := s.namespaces[i].groups;
      for j := 0 to |groups|
        invariant forall c :: c in groups[..j] ==> !NeededBy(c, g)
      {
        for k := 0 to |groups[j].commits|
          invariant forall m :: 0 <= m < k ==>
            groups[j].commits[m].segment == g.id ==> groups[j].commits[m].offset >= g.size
        {
          if groups[j].commits[k].segment == g.id && groups[j].commits[k].offset < g.size {
            assert NeededBy(groups[j], g) && NeededIn(s.namespaces[i], g);
            return true;
          }
        }
        assert groups[..j + 1] == groups[..j] + [groups[j]];
      }
      assert groups[..|groups|] == groups;
      assert s.namespaces[..i + 1] == s.namespaces[..i] + [s.namespaces[i]];
    }
    assert s.namespaces[..|s.namespaces|] == s.namespaces;
    needed := false;
  }

  /** Past its topic's retention at time `now`; a retention of zero keeps segments for ever. */
  predicate Expired(s: State, g: Segment, now: int)
    requires GetTopic(s, g.ownerNamespace, g.ownerName).Some?
  {
    var topic := GetTopic(s, g.ownerNamespace, g.ownerName).value;
    topic.retention > 0 && g.closedAt < now - topic.retention
  }

  ghost predicate ClosedAction(s: State, g: Segment, states: States, candidates: seq<nat>, counts: Counts,
                               now: int, action: Action) {
    if || g.kind.OffsetCommitsSegment?
       || !OwnerExists(s, OwnerOf(g))
       || (Expired(s, g, now) && !Needed(s, g))
    then action == Delete
    else action.Go? && ClosedPlan(g.nodes, Factor(s, OwnerOf(g)), states, candidates, counts, action.plan)
  }

  ghost predicate ClosedTally(s: State, g: Segment, states: States, action: Action, counts: Counts, counts': Counts) {
    if OwnerExists(s, OwnerOf(g)) && action.Go?
    then ClosedCounts(g.nodes, Factor(s, OwnerOf(g)), states, action.plan, counts, counts')
    else counts' == counts
  }

  method ReconcileClosedSegment(s: State, g: Segment, states: States, candidates: seq<nat>, counts: Counts, now: int)
    returns (action: Action, counts': Counts)
    requires Distinct(candidates)
    ensures ClosedAction(s, g, states, candidates, counts, now, action)
    ensures ClosedTally(s, g, states, action, counts, counts')
  {
    counts' := counts;
    if g.kind.OffsetCommitsSegment? || !OwnerExists(s, OwnerOf(g)) {
      return Delete, counts';
    }
    if Expired(s, g, now) {
      var needed := IsNeeded(s, g);
      if !needed {
        return Delete, counts';
      }
    }
    var plan;
    plan, counts' := ReconcileClosedCopies(g.nodes, Factor(s, OwnerOf(g)), states, candidates, counts);
    action := Go(plan);
  }

  // ---------------------------------------------------------------- applying actions

  function Result(g: Segment, action: Action): seq<Segment> {
    match action
    case Delete => []
    case Go(plan) => [g.(nodes := Planned(g.nodes, plan))]
  }

  /** The list after every segment had its action. */
  function Acted(segments: seq<Segment>, actions: seq<Action>): seq<Segment>
    requires |segments| == |actions|
  {
    if segments == [] then []
    else
      var last := |segments| - 1;
      Acted(segments[..last], actions[..last]) + Result(segments[last], actions[last])
  }

  /** The state after the command for an action, if it calls for one. */
  function Do(s: State, g: Segment, which: Which, action: Action): State {
    match action
    case Delete => Apply(s, DeleteSegment(g.id, which)).state
    case Go(Update(nodes)) => Apply(s, UpdateNodes(g.id, which, nodes)).state
    case Go(_) => s
  }

  function In(s: State, which: Which): seq<Segment> {
    if which.InOpen? then s.open else s.closed
  }

  function With(s: State, which: Which, segments: seq<Segment>): State {
    if which.InOpen? then s.(open := segments) else s.(closed := segments)
  }

  lemma {:induction false} FoundAt(before: seq<Segment>, g: Segment, after: seq<Segment>, all: seq<Segment>)
    requires all == before + [g] + after && Ascending(all, SegmentID)
    ensures |before| < |all| && all[|before|] == g && Search(all, SegmentID, g.id) == |before|
  {
    SearchFinds(all, SegmentID, g.id);
    assert all[|before|] == g;
  }

  lemma {:induction false} DropStep(before: seq<Segment>, g: Segment, after: seq<Segment>, all: seq<Segment>)
    requires all == before + [g] + after && Ascending(all, SegmentID)
    ensures Dropped(all, g.id) == before + after && Ascending(before + after, SegmentID)
  {
    FoundAt(before, g, after, all);
    SkipAscends(before, g, after);
    assert all[..|before|] == before && all[|before| + 1..] == after;
  }

  lemma {:induction false} SkipAscends(before: seq<Segment>, g: Segment, after: seq<Segment>)
    requires Ascending(before + [g] + after, SegmentID)
    ensures Ascending(before + after, SegmentID)
  {
    var a, b := before + [g] + after, before + after;
    assert forall i :: 0 <= i < |b| ==> b[i] == a[if i < |before| then i else i + 1];
  }

  lemma {:induction false} ReplaceStep(before: seq<Segment>, g: Segment, after: seq<Segment>, all: seq<Segment>,
                                       nodes: Nodes)
    requires all == before + [g] + after && Ascending(all, SegmentID)
    ensures ReplaceNodes(all, g.id, nodes) == before + [g.(nodes := nodes)] + after
    ensures Ascending(before + [g.(nodes := nodes)] + after, SegmentID)
  {
    FoundAt(before, g, after, all);
    SameKeysAscend(before, g, after, g.(nodes := nodes));
    assert all[|before| := g.(nodes := nodes)] == before + [g.(nodes := nodes)] + after;
  }

  lemma {:induction false} SameKeysAscend(before: seq<Segment>, g: Segment, after: seq<Segment>, h: Segment)
    requires Ascending(before + [g] + after, SegmentID) && h.id == g.id
    ensures Ascending(before + [h] + after, SegmentID)
  {
    var a, b := before + [g] + after, before + [h] + after;
    assert forall i :: 0 <= i < |b| ==> SegmentID(b[i]) == SegmentID(a[i]);
  }

  /** A command changes the segment it is for and nothing else. */
  lemma {:induction false} DoStep(s: State, which: Which, before: seq<Segment>, g: Segment, after: seq<Segment>,
                                  action: Action)
    requires In(s, which) == before + [g] + after && Ascending(In(s, which), SegmentID)
    ensures var r := before + Result(g, action) + after;
            Do(s, g, which, action) == With(s, which, r) && Ascending(r, SegmentID)
  {
    match action {
      case Delete =>
        DropStep(before, g, after, In(s, which));
        assert before + Result(g, action) + after == before + after;
      case Go(plan) => ReplaceStep(before, g, after, In(s, which), Planned(g.nodes, plan));
    }
  }

  lemma {:induction false} ActedStep(segments: seq<Segment>, actions: seq<Action>, action: Action)
    requires |actions| < |segments|
    ensures Acted(segments[..|actions| + 1], actions + [action])
         == Acted(segments[..|actions|], actions) + Result(segments[|actions|], action)
  {
    var i := |actions|;
    assert segments[..i + 1][..i] == segments[..i];
    assert (actions + [action])[..i] == actions;
  }

  /** Half way through a pass: the first segments have had their actions, the others are as before. */
  ghost predicate PassAt(s: State, which: Which, actions: seq<Action>, s': State) {
    && |actions| <= |In(s, which)|
    && var i := |actions|;
       var r := Acted(In(s, which)[..i], actions) + In(s, which)[i..];
       s' == With(s, which, r) && Ascending(r, SegmentID)
  }

  lemma {:induction false} PassStep(s: State, which: Which, actions: seq<Action>, s': State, action: Action)
    requires PassAt(s, which, actions, s') && |actions| < |In(s, which)|
    ensures PassAt(s, which, actions + [action], Do(s', In(s, which)[|actions|], which, action))
  {
    var segments, i := In(s, which), |actions|;
    var before := Acted(segments[..i], actions);
    assert segments[i..] == [segments[i]] + segments[i + 1..];
    assert before + segments[i..] == before + [segments[i]] + segments[i + 1..];
    DoStep(s', which, before, segments[i], segments[i + 1..], action);
    ActedStep(segments, actions, action);
  }

  /** The commands for the segments, one after another. */
  function DoAll(s: State, which: Which, segments: seq<Segment>, actions: seq<Action>): State
    requires |segments| == |actions|
    decreases |segments|
  {
    if segments == [] then s
    else
      var last := |segments| - 1;
      Do(DoAll(s, which, segments[..last], actions[..last]), segments[last], which, actions[last])
  }

  lemma {:induction false} DoAllStep(s: State, which: Which, segments: seq<Segment>, actions: seq<Action>,
                                     action: Action)
    requires |actions| < |segments|
    ensures DoAll(s, which, segments[..|actions| + 1], actions + [action])
         == Do(DoAll(s, which, segments[..|actions|], actions), segments[|actions|], which, action)
  {
    var i := |actions|;
    assert segments[..i + 1][..i] == segments[..i];
    assert (actions + [action])[..i] == actions;
  }

  lemma {:induction false} DoAllPasses(s: State, which: Which, actions: seq<Action>)
    requires Ascending(In(s, which), SegmentID) && |actions| <= |In(s, which)|
    ensures PassAt(s, which, actions, DoAll(s, which, In(s, which)[..|actions|], actions))
    decreases |actions|
  {
    if actions == [] {
      assert Acted([], []) + In(s, which)[0..] == In(s, which);
    } else {
      var front, last := actions[..|actions| - 1], actions[|actions| - 1];
      DoAllPasses(s, which, front);
      DoAllNext(s, which, front, last, DoAll(s, which, In(s, which)[..|front|], front), actions);
    }
  }

  lemma {:induction false} DoAllNext(s: State, which: Which, actions: seq<Action>, action: Action, s': State,
                                     all: seq<Action>)
    requires |actions| < |In(s, which)| && PassAt(s, which, actions, s') && all == actions + [action]
    requires s' == DoAll(s, which, In(s, which)[..|actions|], actions)
    ensures PassAt(s, which, all, DoAll(s, which, In(s, which)[..|all|], all))
  {
    PassStep(s, which, actions, s', action);
    DoAllStep(s, which, In(s, which), actions, action);
  }

  /** The commands of a pass leave every segment with its own result. */
  lemma {:induction false} DoAllIsActed(s: State, which: Which, actions: seq<Action>)
    requires Ascending(In(s, which), SegmentID) && |actions| == |In(s, which)|
    ensures DoAll(s, which, In(s, which), actions) == With(s, which, Acted(In(s, which), actions))
    ensures Ascending(Acted(In(s, which), actions), SegmentID)
  {
    var segments := In(s, which);
    DoAllPasses(s, which, actions);
    assert segments[..|segments|] == segments;
    assert Acted(segments, actions) + segments[|segments|..] == Acted(segments, actions);
  }

  // ---------------------------------------------------------------- the pass

  function StatesOf(nodes: seq<Node>): States {
    if nodes == [] then map[]
    else StatesOf(nodes[..|nodes| - 1])[nodes[|nodes| - 1].id := nodes[|nodes| - 1].state]
  }

  function AliveIDs(nodes: seq<Node>): seq<nat> {
    if nodes == [] then []
    else AliveIDs(nodes[..|nodes| - 1]) + if nodes[|nodes| - 1].state.Alive? then [nodes[|nodes| - 1].id] else []
  }

  predicate Listed(nodes: seq<Node>, n: nat) {
    exists k :: 0 <= k < |nodes| && nodes[k].id == n
  }

  lemma {:induction false} StatesListed(nodes: seq<Node>)
    ensures forall n :: n in StatesOf(nodes) <==> Listed(nodes, n)
    decreases |nodes|
  {
    if nodes != [] {
      StatesListed(nodes[..|nodes| - 1]);
    }
  }

  lemma {:induction false} AliveIDsListed(nodes: seq<Node>)
    ensures forall n :: n in AliveIDs(nodes) ==> Listed(nodes, n)
    decreases |nodes|
  {
    if nodes != [] {
      var front := nodes[..|nodes| - 1];
      AliveIDsListed(front);
      assert forall k :: 0 <= k < |front| ==> nodes[k] == front[k];
    }
  }

  lemma {:induction false} LastIsNew(nodes: seq<Node>)
    requires Ascending(nodes, NodeID) && nodes != []
    ensures var front, last := nodes[..|nodes| - 1], nodes[|nodes| - 1];
            last.id !in StatesOf(front) && last.id !in AliveIDs(front)
  {
    var front, last := nodes[..|nodes| - 1], nodes[|nodes| - 1];
    StatesListed(front);
    AliveIDsListed(front);
    assert forall k :: 0 <= k < |front| ==> front[k] == nodes[k] && NodeID(nodes[k]) < NodeID(last);
    assert !Listed(front, last.id);
  }

  lemma {:induction false} TablesAgree(nodes: seq<Node>)
    requires Ascending(nodes, NodeID)
    ensures AllUp(StatesOf(nodes), AliveIDs(nodes))
    decreases |nodes|
  {
    if nodes != [] {
      TablesAgree(nodes[..|nodes| - 1]);
      LastIsNew(nodes);
    }
  }

  function ReportOf(reports: map<nat, Report>, g: Segment): Report {
    if g.id in reports then reports[g.id] else Report({}, map[])
  }

  /** The action is the right one in this state and with these counts. */
  ghost predicate OpenDecided(s: State, g: Segment, counts: Counts, report: Report, action: Action) {
    OpenAction(s, g, StatesOf(s.nodes), AliveIDs(s.nodes), counts, report, action)
  }

  ghost predicate ClosedDecided(s: State, g: Segment, counts: Counts, now: int, action: Action) {
    ClosedAction(s, g, StatesOf(s.nodes), AliveIDs(s.nodes), counts, now, action)
  }

  /** A node missing from the table or a factor of zero, for a segment that is not deleted. */
  predicate CrashesOpen(s: State, g: Segment, report: Report) {
    && OwnerExists(s, OwnerOf(g))
    && var states, replicating := StatesOf(s.nodes), g.nodes.replicating;
       if g.nodes.primary !in states then true
       else if states[g.nodes.primary].Alive? then Factor(s, OwnerOf(g)) == 0 || !Known(states, replicating)
       else
         var stop := StopAt(replicating, states, report.unreachable, 0);
         stop < |replicating| && replicating[stop] !in states
  }

  predicate CrashesClosed(s: State, g: Segment, now: int) {
    && g.kind.TopicSegment? && OwnerExists(s, OwnerOf(g)) && (Expired(s, g, now) ==> Needed(s, g))
    && (Factor(s, OwnerOf(g)) == 0 || !Known(StatesOf(s.nodes), g.nodes.replicating + g.nodes.done))
  }

  /** The action is decided with the counts `before`, leads to the counts `after`, and is no panic. */
  ghost predicate OpenHandled(s: State, g: Segment, report: Report, action: Action, before: Counts, after: Counts) {
    && OpenDecided(s, g, before, report, action) && !CrashesOpen(s, g, report)
    && OpenTally(s, g, StatesOf(s.nodes), action, before, after)
  }

  ghost predicate ClosedHandled(s: State, g: Segment, now: int, action: Action, before: Counts, after: Counts) {
    && ClosedDecided(s, g, before, now, action) && !CrashesClosed(s, g, now)
    && ClosedTally(s, g, StatesOf(s.nodes), action, before, after)
  }

  lemma {:induction false} OpenPanics(s: State, g: Segment, counts: Counts, report: Report, action: Action)
    requires OpenDecided(s, g, counts, report, action)
    ensures action == Go(Panicked) <==> CrashesOpen(s, g, report)
  {
  }

  lemma {:induction false} ClosedPanics(s: State, g: Segment, counts: Counts, now: int, action: Action)
    requires ClosedDecided(s, g, counts, now, action)
    ensures action == Go(Panicked) <==> CrashesClosed(s, g, now)
  {
  }

  /** Every segment is handled with the counts that the ones before it left; `tallies` lists them. */
  ghost predicate AllOpenHandled(s: State, reports: map<nat, Report>, segments: seq<Segment>, actions: seq<Action>,
                                 tallies: seq<Counts>)
    decreases |segments|
  {
    && |segments| == |actions| && |tallies| == |segments| + 1
    && (segments == [] ||
        (var last := |segments| - 1;
         && OpenHandled(s, segments[last], ReportOf(reports, segments[last]), actions[last], tallies[last],
                        tallies[last + 1])
         && AllOpenHandled(s, reports, segments[..last], actions[..last], tallies[..last + 1])))
  }

  lemma {:induction false} OpenSplit(s: State, reports: map<nat, Report>, segments: seq<Segment>, actions: seq<Action>,
                                     tallies: seq<Counts>)
    requires AllOpenHandled(s, reports, segments, actions, tallies) && segments != []
    ensures |segments| == |actions| == |tallies| - 1
    ensures var last := |segments| - 1;
            && OpenHandled(s, segments[last], ReportOf(reports, segments[last]), actions[last], tallies[last],
                           tallies[last + 1])
            && AllOpenHandled(s, reports, segments[..last], actions[..last], tallies[..last + 1])
  {
  }

  lemma {:induction false} OpenHandledAt(s: State, reports: map<nat, Report>, segments: seq<Segment>,
                                         actions: seq<Action>, tallies: seq<Counts>, i: nat)
    requires AllOpenHandled(s, reports, segments, actions, tallies) && i < |segments|
    ensures |segments| == |actions| == |tallies| - 1
    ensures OpenHandled(s, segments[i], ReportOf(reports, segments[i]), actions[i], tallies[i], tallies[i + 1])
    decreases |segments|
  {
    var last := |segments| - 1;
    OpenSplit(s, reports, segments, actions, tallies);
    if i < last {
      OpenHandledAt(s, reports, segments[..last], actions[..last], tallies[..last + 1], i);
    }
  }

  lemma {:induction false} OneMoreOpen(s: State, reports: map<nat, Report>, segments: seq<Segment>,
                                       actions: seq<Action>, tallies: seq<Counts>, action: Action, counts: Counts)
    requires |actions| < |segments| && AllOpenHandled(s, reports, segments[..|actions|], actions, tallies)
    requires var g := segments[|actions|];
             OpenHandled(s, g, ReportOf(reports, g), action, tallies[|actions|], counts)
    ensures AllOpenHandled(s, reports, segments[..|actions| + 1], actions + [action], tallies + [counts])
  {
    var i := |actions|;
    assert segments[..i + 1][..i] == segments[..i];
    assert (actions + [action])[..i] == actions;
    assert (tallies + [counts])[..i + 1] == tallies;
  }

  ghost predicate AllClosedHandled(s: State, now: int, segments: seq<Segment>, actions: seq<Action>,
                                   tallies: seq<Counts>)
    decreases |segments|
  {
    && |segments| == |actions| && |tallies| == |segments| + 1
    && (segments == [] ||
        (var last := |segments| - 1;
         && ClosedHandled(s, segments[last], now, actions[last], tallies[last], tallies[last + 1])
         && AllClosedHandled(s, now, segments[..last], actions[..last], tallies[..last + 1])))
  }

  lemma {:induction false} ClosedSplit(s: State, now: int, segments: seq<Segment>, actions: seq<Action>,
                                       tallies: seq<Counts>)
    requires AllClosedHandled(s, now, segments, actions, tallies) && segments != []
    ensures |segments| == |actions| == |tallies| - 1
    ensures var last := |segments| - 1;
            && ClosedHandled(s, segments[last], now, actions[last], tallies[last], tallies[last + 1])
            && AllClosedHandled(s, now, segments[..last], actions[..last], tallies[..last + 1])
  {
  }

  lemma {:induction false} ClosedHandledAt(s: State, now: int, segments: seq<Segment>, actions: seq<Action>,
                                           tallies: seq<Counts>, i: nat)
    requires AllClosedHandled(s, now, segments, actions, tallies) && i < |segments|
    ensures |segments| == |actions| == |tallies| - 1
    ensures ClosedHandled(s, segments[i], now, actions[i], tallies[i], tallies[i + 1])
    decreases |segments|
  {
    var last := |segments| - 1;
    ClosedSplit(s, now, segments, actions, tallies);
    if i < last {
      ClosedHandledAt(s, now, segments[..last], actions[..last], tallies[..last + 1], i);
    }
  }

  lemma {:induction false} OneMoreClosed(s: State, now: int, segments: seq<Segment>, actions: seq<Action>,
                                         tallies: seq<Counts>, action: Action, counts: Counts)
    requires |actions| < |segments| && AllClosedHandled(s, now, segments[..|actions|], actions, tallies)
    requires ClosedHandled(s, segments[|actions|], now, action, tallies[|actions|], counts)
    ensures AllClosedHandled(s, now, segments[..|actions| + 1], actions + [action], tallies + [counts])
  {
    var i := |actions|;
    assert segments[..i + 1][..i] == segments[..i];
    assert (actions + [action])[..i] == actions;
    assert (tallies + [counts])[..i + 1] == tallies;
  }

  method DecideOpen(s: State, g: Segment, states: States, candidates: seq<nat>, counts: Counts, report: Report)
    returns (action: Action, counts': Counts)
    requires states == StatesOf(s.nodes) && candidates == AliveIDs(s.nodes) && Distinct(candidates)
    ensures if action == Go(Panicked) then CrashesOpen(s, g, report)
            else OpenHandled(s, g, report, action, counts, counts')
  {
    action, counts' := ReconcileOpenSegment(s, g, states, candidates, counts, report);
    OpenPanics(s, g, counts, report, action);
  }

  method DecideClosed(s: State, g: Segment, states: States, candidates: seq<nat>, counts: Counts, now: int)
    returns (action: Action, counts': Counts)
    requires states == StatesOf(s.nodes) && candidates == AliveIDs(s.nodes) && Distinct(candidates)
    ensures if action == Go(Panicked) then CrashesClosed(s, g, now)
            else ClosedHandled(s, g, now, action, counts, counts')
  {
    action, counts' := ReconcileClosedSegment(s, g, states, candidates, counts, now);
    ClosedPanics(s, g, counts, now, action);
  }

  ghost predicate SomeOpenCrashes(s: State, reports: map<nat, Report>) {
    exists i :: 0 <= i < |s.open| && CrashesOpen(s, s.open[i], ReportOf(reports, s.open[i]))
  }

  ghost predicate SomeClosedCrashes(s: State, now: int) {
    exists i :: 0 <= i < |s.closed| && CrashesClosed(s, s.closed[i], now)
  }

  /** One call per segment, in order, and the command of each applied before the next call. */
  method ReconcileOpenSegments(s: State, counts: Counts, reports: map<nat, Report>)
    returns (s': State, counts': Counts, crashed: bool, ghost actions: seq<Action>, ghost tallies: seq<Counts>)
    requires Ascending(s.nodes, NodeID) && Ascending(s.open, SegmentID)
    ensures crashed ==> SomeOpenCrashes(s, reports)
    ensures !crashed ==>
      && AllOpenHandled(s, reports, s.open, actions, tallies)
      && s' == s.(open := Acted(s.open, actions)) && tallies[0] == counts && tallies[|s.open|] == counts'
  {
    var states, candidates := StatesOf(s.nodes), AliveIDs(s.nodes);
    TablesAgree(s.nodes);
    s', counts', crashed, actions, tallies := s, counts, false, [], [counts];
    for i := 0 to |s.open|
      invariant |actions| == i && !crashed && s' == DoAll(s, InOpen, s.open[..i], actions)
      invariant AllOpenHandled(s, reports, s.open[..i], actions, tallies)
      invariant |tallies| == i + 1 && tallies[0] == counts && tallies[i] == counts'
    {
      var g, report := s.open[i], ReportOf(reports, s.open[i]);
      var action;
      action, counts' := DecideOpen(s, g, states, candidates, counts', report);
      if action == Go(Panicked) {
        crashed := true;
        return;
      }
      OneMoreOpen(s, reports, s.open, actions, tallies, action, counts');
      DoAllStep(s, InOpen, s.open, actions, action);
      s' := Do(s', g, InOpen, action);
      actions, tallies := actions + [action], tallies + [counts'];
    }
    assert s.open[..|s.open|] == s.open;
    DoAllIsActed(s, InOpen, actions);
  }

  /** `snapshot` is the state the pass started from; `s` already holds the results for open segments. */
  method ReconcileClosedSegments(snapshot: State, s: State, counts: Counts, now: int)
    returns (s': State, counts': Counts, crashed: bool, ghost actions: seq<Action>, ghost tallies: seq<Counts>)
    requires Ascending(snapshot.nodes, NodeID) && Ascending(snapshot.closed, SegmentID) && s.closed == snapshot.closed
    ensures crashed ==> SomeClosedCrashes(snapshot, now)
    ensures !crashed ==>
      && AllClosedHandled(snapshot, now, s.closed, actions, tallies)
      && s' == s.(closed := Acted(s.closed, actions)) && tallies[0] == counts && tallies[|s.closed|] == counts'
  {
    var states, candidates := StatesOf(snapshot.nodes), AliveIDs(snapshot.nodes);
    TablesAgree(snapshot.nodes);
    s', counts', crashed, actions, tallies := s, counts, false, [], [counts];
    for i := 0 to |s.closed|
      invariant |actions| == i && !crashed && s' == DoAll(s, InClosed, s.closed[..i], actions)
      invariant AllClosedHandled(snapshot, now, s.closed[..i], actions, tallies)
      invariant |tallies| == i + 1 && tallies[0] == counts && tallies[i] == counts'
    {
      var g := s.closed[i];
      var action;
      action, counts' := DecideClosed(snapshot, g, states, candidates, counts', now);
      if action == Go(Panicked) {
        crashed := true;
        return;
      }
      OneMoreClosed(snapshot, now, s.closed, actions, tallies, action, counts');
      DoAllStep(s, InClosed, s.closed, actions, action);
      s' := Do(s', g, InClosed, action);
      actions, tallies := actions + [action], tallies + [counts'];
    }
    assert s.closed[..|s.closed|] == s.closed;
    DoAllIsActed(s, InClosed, actions);
  }
}
