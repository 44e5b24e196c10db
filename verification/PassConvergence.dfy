/** What passes of the reconciler achieve for the whole cluster state. */
module PassConvergence {
  import opened Lists
  import opened ClusterState
  import opened ClusterInvariant
  import opened Placement
  import opened SegmentOpen
  import opened Reconciler
  import opened Convergence
  import opened ReconcilePass
  import Failover

  /** An open segment that has as many copies as its factor and the alive nodes allow. */
  ghost predicate OpenSettledIn(s: State, g: Segment) {
    var states := StatesOf(s.nodes);
    && OwnerExists(s, OwnerOf(g))
    && IsUp(states, g.nodes.primary) && OpenSound(g.nodes, states)
    && |OpenCopies(g.nodes, states)| == Min(Factor(s, OwnerOf(g)), |AliveIDs(s.nodes)|)
  }

  ghost predicate ClosedSettledIn(s: State, g: Segment) {
    var states := StatesOf(s.nodes);
    && OwnerExists(s, OwnerOf(g))
    && ClosedSound(g.nodes, states) && Up(g.nodes.done, states) != []
    && |ClosedCopies(g.nodes, states)| == Min(Factor(s, OwnerOf(g)), |AliveIDs(s.nodes)|)
  }

  /** The pass changes segments only, so owners, factors and alive nodes are the same for the next. */
  predicate SameCluster(s: State, s': State) {
    s'.namespaces == s.namespaces && s'.nodes == s.nodes
  }

  // ---------------------------------------------------------------- one open segment

  /** A pass settles an open segment whose primary is alive. */
  lemma {:induction false} OpenPassSettles(s: State, g: Segment, counts: Counts, report: Report, action: Action,
                                           s': State)
    requires Ascending(s.nodes, NodeID) && SameCluster(s, s') && OwnerExists(s, OwnerOf(g))
    requires IsUp(StatesOf(s.nodes), g.nodes.primary) && OpenSound(g.nodes, StatesOf(s.nodes))
    requires OpenDecided(s, g, counts, report, action) && action != Go(Panicked)
    ensures action.Go? && OpenSettledIn(s', g.(nodes := Planned(g.nodes, action.plan)))
  {
    TablesAgree(s.nodes);
    OpenConverges(g.nodes, Factor(s, OwnerOf(g)), StatesOf(s.nodes), AliveIDs(s.nodes), counts, action.plan);
  }

  lemma {:induction false} SettledIsLeft(s: State, g: Segment, counts: Counts, report: Report, action: Action)
    requires Ascending(s.nodes, NodeID) && OpenSettledIn(s, g)
    requires OpenDecided(s, g, counts, report, action) && action != Go(Panicked)
    ensures action == Go(Keep)
  {
    TablesAgree(s.nodes);
    OpenSettled(g.nodes, Factor(s, OwnerOf(g)), StatesOf(s.nodes), AliveIDs(s.nodes), counts, action.plan);
  }

  lemma {:induction false} OthersAre(replicating: seq<nat>, up: set<nat>, chosen: nat)
    requires Distinct(replicating)
    ensures Distinct(Failover.Others(replicating, up, chosen))
    ensures forall n :: n in Failover.Others(replicating, up, chosen) <==> n in replicating && n in up && n != chosen
    decreases |replicating|
  {
    if replicating != [] {
      var front, last := replicating[..|replicating| - 1], replicating[|replicating| - 1];
      OthersAre(front, up, chosen);
      assert replicating == front + [last];
      assert last !in front;
    }
  }

  /** After a promotion the primary is alive, so the next pass settles the segment. */
  lemma {:induction false} PromotionRevives(s: State, g: Segment, counts: Counts, report: Report, action: Action)
    requires OwnerExists(s, OwnerOf(g)) && g.nodes.primary in StatesOf(s.nodes)
    requires !IsUp(StatesOf(s.nodes), g.nodes.primary) && OpenSound(g.nodes, StatesOf(s.nodes))
    requires OpenDecided(s, g, counts, report, action) && action !in {Go(Keep), Go(Panicked)}
    ensures action.Go? && action.plan.Update?
    ensures IsUp(StatesOf(s.nodes), action.plan.nodes.primary) && OpenSound(action.plan.nodes, StatesOf(s.nodes))
    ensures forall n :: n in [action.plan.nodes.primary] + action.plan.nodes.replicating <==>
      n in g.nodes.replicating && IsUp(StatesOf(s.nodes), n)
  {
    var states, replicating := StatesOf(s.nodes), g.nodes.replicating;
    var at: nat :|
      && Failover.FirstLargest(replicating, UpNodes(states), report.sizes, at)
      && action.plan
         == Update(Nodes(replicating[at], Failover.Others(replicating, UpNodes(states), replicating[at]), []));
    DistinctParts([g.nodes.primary], replicating);
    OthersAre(replicating, UpNodes(states), replicating[at]);
    DistinctJoin([replicating[at]], action.plan.nodes.replicating);
  }

  // ---------------------------------------------------------------- one closed segment

  /** A pass settles a closed segment that is retained and has an alive complete copy. */
  lemma {:induction false} ClosedPassSettles(s: State, g: Segment, counts: Counts, now: int, action: Action, s': State)
    requires Ascending(s.nodes, NodeID) && SameCluster(s, s')
    requires ClosedSound(g.nodes, StatesOf(s.nodes)) && Up(g.nodes.done, StatesOf(s.nodes)) != []
    requires ClosedDecided(s, g, counts, now, action) && action !in {Delete, Go(Panicked)}
    ensures action.Go? && ClosedSettledIn(s', g.(nodes := Planned(g.nodes, action.plan)))
  {
    TablesAgree(s.nodes);
    ClosedConverges(g.nodes, Factor(s, OwnerOf(g)), StatesOf(s.nodes), AliveIDs(s.nodes), counts, action.plan);
  }

  lemma {:induction false} SettledClosedIsLeft(s: State, g: Segment, counts: Counts, now: int, action: Action)
    requires Ascending(s.nodes, NodeID) && ClosedSettledIn(s, g)
    requires ClosedDecided(s, g, counts, now, action) && action !in {Delete, Go(Panicked)}
    ensures action == Go(Keep)
  {
    TablesAgree(s.nodes);
    ClosedSettled(g.nodes, Factor(s, OwnerOf(g)), StatesOf(s.nodes), AliveIDs(s.nodes), counts, action.plan);
  }

  // ---------------------------------------------------------------- passes over the open segments

  lemma {:induction false} ActedFrom(segments: seq<Segment>, actions: seq<Action>, h: Segment) returns (i: nat)
    requires |segments| == |actions| && h in Acted(segments, actions)
    ensures i < |segments| && h in Result(segments[i], actions[i])
    decreases |segments|
  {
    var last := |segments| - 1;
    if h in Result(segments[last], actions[last]) {
      i := last;
    } else {
      i := ActedFrom(segments[..last], actions[..last], h);
    }
  }

  /** Every open segment names known nodes, each at most once. */
  ghost predicate OpenReady(s: State) {
    && Ascending(s.nodes, NodeID)
    && forall g :: g in s.open ==> OpenSound(g.nodes, StatesOf(s.nodes)) && g.nodes.primary in StatesOf(s.nodes)
  }

  /** A pass over the open segments of `s`, as the loop over them establishes it. */
  ghost predicate OpenPass(s: State, reports: map<nat, Report>, actions: seq<Action>, tallies: seq<Counts>, s': State) {
    && AllOpenHandled(s, reports, s.open, actions, tallies)
    && SameCluster(s, s') && s'.open == Acted(s.open, actions)
  }

  /** What a pass from `s` to `s'` makes of the open segment `g`: settled if its primary is alive, under an
      alive primary if it is promotable, and unchanged otherwise. */
  ghost predicate OpenOutcome(s: State, g: Segment, report: Report, s': State, h: Segment) {
    var states := StatesOf(s.nodes);
    if IsUp(states, g.nodes.primary) then OpenSettledIn(s', h)
    else if Promotable(g.nodes.replicating, states, report) then
      IsUp(states, h.nodes.primary) && OpenSound(h.nodes, states)
    else h == g
  }

  /** After one pass every open segment has the outcome its primary and its replicas' answers call for. */
  lemma {:induction false} PassSettlesOpen(s: State, reports: map<nat, Report>, actions: seq<Action>,
                                           tallies: seq<Counts>, s': State, h: Segment)
    returns (g: Segment)
    requires OpenReady(s) && OpenPass(s, reports, actions, tallies, s') && h in s'.open
    ensures g in s.open && g.id == h.id && OwnerOf(g) == OwnerOf(h) && OwnerExists(s', OwnerOf(h))
    ensures OpenOutcome(s, g, ReportOf(reports, g), s', h)
  {
    var i := ActedFrom(s.open, actions, h);
    g := s.open[i];
    OpenHandledAt(s, reports, s.open, actions, tallies, i);
    OpenResult(s, g, tallies[i], tallies[i + 1], ReportOf(reports, g), actions[i], s');
  }

  lemma {:induction false} OpenResult(s: State, g: Segment, before: Counts, after: Counts, report: Report,
                                      action: Action, s': State)
    requires Ascending(s.nodes, NodeID) && SameCluster(s, s') && action != Delete
    requires OpenSound(g.nodes, StatesOf(s.nodes)) && g.nodes.primary in StatesOf(s.nodes)
    requires OpenHandled(s, g, report, action, before, after)
    ensures OwnerExists(s, OwnerOf(g)) && action.Go?
    ensures OpenOutcome(s, g, report, s', g.(nodes := Planned(g.nodes, action.plan)))
  {
    OpenPanics(s, g, before, report, action);
    if IsUp(StatesOf(s.nodes), g.nodes.primary) {
      OpenPassSettles(s, g, before, report, action, s');
    } else {
      PromotesExactly(g.nodes.replicating, StatesOf(s.nodes), report, action.plan);
      if action.plan.Update? {
        PromotionRevives(s, g, before, report, action);
      }
    }
  }

  lemma {:induction false} ReadyAfterPass(s: State, reports: map<nat, Report>, actions: seq<Action>,
                                          tallies: seq<Counts>, s': State)
    requires OpenReady(s) && OpenPass(s, reports, actions, tallies, s')
    ensures OpenReady(s')
  {
    forall h | h in s'.open ensures OpenSound(h.nodes, StatesOf(s.nodes)) && h.nodes.primary in StatesOf(s.nodes) {
      var g := PassSettlesOpen(s, reports, actions, tallies, s', h);
    }
  }

  /** The next pass has nothing to do for a segment whose primary was alive before this one, and settles one
      that was promotable. */
  lemma {:induction false} NextPassLeaves(s: State, r1: map<nat, Report>, a1: seq<Action>, t1: seq<Counts>, s1: State,
                                          r2: map<nat, Report>, a2: seq<Action>, t2: seq<Counts>, s2: State, i: nat)
    returns (g: Segment)
    requires OpenReady(s) && OpenPass(s, r1, a1, t1, s1) && OpenPass(s1, r2, a2, t2, s2) && i < |s1.open|
    ensures g in s.open && g.id == s1.open[i].id && |a2| == |s1.open|
    ensures IsUp(StatesOf(s.nodes), g.nodes.primary) ==> OpenSettledIn(s1, s1.open[i]) && a2[i] == Go(Keep)
    ensures !IsUp(StatesOf(s.nodes), g.nodes.primary)
            && Promotable(g.nodes.replicating, StatesOf(s.nodes), ReportOf(r1, g)) ==>
      a2[i].Go? && OpenSettledIn(s2, s1.open[i].(nodes := Planned(s1.open[i].nodes, a2[i].plan)))
  {
    var h := s1.open[i];
    g := PassSettlesOpen(s, r1, a1, t1, s1, h);
    OpenHandledAt(s1, r2, s1.open, a2, t2, i);
    OpenPanics(s1, h, t2[i], ReportOf(r2, h), a2[i]);
    if IsUp(StatesOf(s.nodes), g.nodes.primary) {
      SettledIsLeft(s1, h, t2[i], ReportOf(r2, h), a2[i]);
    } else if IsUp(StatesOf(s.nodes), h.nodes.primary) {
      OpenPassSettles(s1, h, t2[i], ReportOf(r2, h), a2[i], s2);
    }
  }

  /** A pass leaves a settled segment where it is, and settled. */
  lemma {:induction false} StaysInPass(s: State, reports: map<nat, Report>, actions: seq<Action>, tallies: seq<Counts>,
                                       s': State, i: nat)
    requires Ascending(s.nodes, NodeID) && OpenPass(s, reports, actions, tallies, s')
    requires i < |s.open| && OpenSettledIn(s, s.open[i])
    ensures |actions| == |s.open| && actions[i] == Go(Keep)
    ensures s.open[i] in s'.open && OpenSettledIn(s', s.open[i])
  {
    var g := s.open[i];
    OpenHandledAt(s, reports, s.open, actions, tallies, i);
    OpenPanics(s, g, tallies[i], ReportOf(reports, g), actions[i]);
    SettledIsLeft(s, g, tallies[i], ReportOf(reports, g), actions[i]);
    ActedHas(s.open, actions, i, g);
  }

  lemma {:induction false} ActedHas(segments: seq<Segment>, actions: seq<Action>, i: nat, h: Segment)
    requires |segments| == |actions| && i < |segments| && h in Result(segments[i], actions[i])
    ensures h in Acted(segments, actions)
    decreases |segments|
  {
    var last := |segments| - 1;
    if i < last {
      ActedHas(segments[..last], actions[..last], i, h);
    }
  }

  /** The reports, actions and counts of a pass from the state `before`. */
  datatype Pass = Pass(before: State, reports: map<nat, Report>, actions: seq<Action>, tallies: seq<Counts>)

  /** Passes one after another, each from the state the one before it led to; nodes do not change. */
  ghost predicate Passes(ps: seq<Pass>, end: State)
    decreases |ps|
  {
    ps == [] ||
    (var p, next := ps[0], if |ps| == 1 then end else ps[1].before;
     OpenPass(p.before, p.reports, p.actions, p.tallies, next) && Passes(ps[1..], end))
  }

  /** In each of these passes the action for `g` is to keep it as it is. */
  ghost predicate LeftAlone(ps: seq<Pass>, g: Segment)
    decreases |ps|
  {
    ps == [] ||
    (&& |ps[0].actions| == |ps[0].before.open| && g in ps[0].before.open
     && (forall i :: 0 <= i < |ps[0].actions| && ps[0].before.open[i] == g ==> ps[0].actions[i] == Go(Keep))
     && LeftAlone(ps[1..], g))
  }

  lemma {:induction false} StaysSettled(ps: seq<Pass>, end: State, s: State, g: Segment)
    requires Passes(ps, end) && s == (if ps == [] then end else ps[0].before)
    requires Ascending(s.nodes, NodeID) && g in s.open && OpenSettledIn(s, g)
    ensures LeftAlone(ps, g) && g in end.open && OpenSettledIn(end, g)
    decreases |ps|
  {
    if ps != [] {
      var p, next := ps[0], if |ps| == 1 then end else ps[1].before;
      forall i | 0 <= i < |s.open| && s.open[i] == g
        ensures |p.actions| == |s.open| && p.actions[i] == Go(Keep) && g in next.open && OpenSettledIn(next, g)
      {
        StaysInPass(s, p.reports, p.actions, p.tallies, next, i);
      }
      StaysSettled(ps[1..], end, next, g);
    }
  }

  /** The segment that a pass makes of `g`, whose owner exists. */
  lemma {:induction false} PassKeeps(s: State, reports: map<nat, Report>, actions: seq<Action>, tallies: seq<Counts>,
                                     s': State, g: Segment)
    returns (h: Segment)
    requires OpenReady(s) && OpenPass(s, reports, actions, tallies, s') && g in s.open && OwnerExists(s, OwnerOf(g))
    ensures h in s'.open && h.id == g.id && OwnerOf(h) == OwnerOf(g) && OwnerExists(s', OwnerOf(h))
    ensures OpenOutcome(s, g, ReportOf(reports, g), s', h)
  {
    var i :| 0 <= i < |s.open| && s.open[i] == g;
    OpenHandledAt(s, reports, s.open, actions, tallies, i);
    OpenResult(s, g, tallies[i], tallies[i + 1], ReportOf(reports, g), actions[i], s');
    h := g.(nodes := Planned(g.nodes, actions[i].plan));
    ActedHas(s.open, actions, i, h);
  }

  /** Convergence: while nodes do not change, every open segment with an owner that has an alive primary, or
      is promotable at the first pass, is settled after two passes, and no later pass, however many there
      are, does anything to it. */
  lemma {:induction false} PassesConverge(s: State, r1: map<nat, Report>, a1: seq<Action>, t1: seq<Counts>, s1: State,
                                          r2: map<nat, Report>, a2: seq<Action>, t2: seq<Counts>, s2: State,
                                          later: seq<Pass>, end: State, g: Segment)
    returns (h: Segment)
    requires OpenReady(s) && OpenPass(s, r1, a1, t1, s1) && OpenPass(s1, r2, a2, t2, s2)
    requires Passes(later, end) && s2 == if later == [] then end else later[0].before
    requires g in s.open && OwnerExists(s, OwnerOf(g))
    requires || IsUp(StatesOf(s.nodes), g.nodes.primary)
             || Promotable(g.nodes.replicating, StatesOf(s.nodes), ReportOf(r1, g))
    ensures h.id == g.id && h in s2.open && OpenSettledIn(s2, h)
    ensures LeftAlone(later, h) && h in end.open && OpenSettledIn(end, h)
  {
    ReadyAfterPass(s, r1, a1, t1, s1);
    var h1 := PassKeeps(s, r1, a1, t1, s1, g);
    h := PassKeeps(s1, r2, a2, t2, s2, h1);
    StaysSettled(later, end, s2, h);
  }

  /** The replicas that join in a pass are least loaded by the counts at that point of the pass, which
      start from the number of segments each node hosts. */
  lemma {:induction false} JoinedInPass(s: State, reports: map<nat, Report>, actions: seq<Action>,
                                        tallies: seq<Counts>, i: nat)
    requires AllOpenHandled(s, reports, s.open, actions, tallies) && i < |s.open|
    requires IsUp(StatesOf(s.nodes), s.open[i].nodes.primary)
    ensures |actions| == |s.open| && |tallies| == |s.open| + 1
    ensures var g, states := s.open[i], StatesOf(s.nodes);
            actions[i].Go? && Joined(g.nodes, states, actions[i].plan) != [] ==>
              && LeastLoaded(Free(AliveIDs(s.nodes), OpenCopies(g.nodes, states)), tallies[i],
                             Joined(g.nodes, states, actions[i].plan))
              && tallies[i + 1] == Bumped(tallies[i], Joined(g.nodes, states, actions[i].plan))
  {
    OpenHandledAt(s, reports, s.open, actions, tallies, i);
  }

  // ---------------------------------------------------------------- passes over the closed segments

  ghost predicate ClosedReady(s: State) {
    && Ascending(s.nodes, NodeID)
    && forall g :: g in s.closed ==> ClosedSound(g.nodes, StatesOf(s.nodes))
  }

  ghost predicate ClosedPass(s: State, now: int, actions: seq<Action>, tallies: seq<Counts>, s': State) {
    && AllClosedHandled(s, now, s.closed, actions, tallies)
    && SameCluster(s, s') && s'.closed == Acted(s.closed, actions)
  }

  /** After one pass every closed segment that is still there is settled if it had an alive complete copy,
      and unchanged otherwise. */
  lemma {:induction false} PassSettlesClosed(s: State, now: int, actions: seq<Action>, tallies: seq<Counts>, s': State,
                                             h: Segment)
    returns (g: Segment)
    requires ClosedReady(s) && ClosedPass(s, now, actions, tallies, s') && h in s'.closed
    ensures g in s.closed && g.id == h.id && OwnerOf(g) == OwnerOf(h) && OwnerExists(s', OwnerOf(h))
    ensures if Up(g.nodes.done, StatesOf(s.nodes)) != [] then ClosedSettledIn(s', h) else h == g
  {
    var i := ActedFrom(s.closed, actions, h);
    g := s.closed[i];
    ClosedHandledAt(s, now, s.closed, actions, tallies, i);
    ClosedPanics(s, g, tallies[i], now, actions[i]);
    if Up(g.nodes.done, StatesOf(s.nodes)) != [] {
      ClosedPassSettles(s, g, tallies[i], now, actions[i], s');
    }
  }

  /** The next pass, at whatever time, deletes such a segment or leaves it alone. */
  lemma {:induction false} NextClosedPassLeaves(s: State, n1: int, a1: seq<Action>, t1: seq<Counts>, s1: State,
                                                n2: int, a2: seq<Action>, t2: seq<Counts>, s2: State, i: nat)
    returns (g: Segment)
    requires ClosedReady(s) && ClosedPass(s, n1, a1, t1, s1) && ClosedPass(s1, n2, a2, t2, s2) && i < |s1.closed|
    ensures g in s.closed && g.id == s1.closed[i].id && |a2| == |s1.closed|
    ensures Up(g.nodes.done, StatesOf(s.nodes)) != [] ==>
      ClosedSettledIn(s1, s1.closed[i]) && (a2[i] == Delete || a2[i] == Go(Keep))
  {
    var h := s1.closed[i];
    g := PassSettlesClosed(s, n1, a1, t1, s1, h);
    ClosedHandledAt(s1, n2, s1.closed, a2, t2, i);
    ClosedPanics(s1, h, t2[i], n2, a2[i]);
    if Up(g.nodes.done, StatesOf(s.nodes)) != [] && a2[i] != Delete {
      SettledClosedIsLeft(s1, h, t2[i], n2, a2[i]);
    }
  }

  // ---------------------------------------------------------------- the whole pass

  lemma {:induction false} SameSegment(segments: seq<Segment>, g: Segment, h: Segment)
    requires Ascending(segments, SegmentID) && g in segments && h in segments && g.id == h.id
    ensures g == h
  {
    var i :| 0 <= i < |segments| && segments[i] == g;
    var j :| 0 <= j < |segments| && segments[j] == h;
    assert i < j ==> SegmentID(segments[i]) < SegmentID(segments[j]);
    assert j < i ==> SegmentID(segments[j]) < SegmentID(segments[i]);
  }

  /** What a pass from `s` to `s'` has settled. */
  ghost predicate SettledAfter(s: State, reports: map<nat, Report>, s': State) {
    && (forall g, h :: g in s.open && h in s'.open && g.id == h.id ==> OpenOutcome(s, g, ReportOf(reports, g), s', h))
    && (forall g, h :: g in s.closed && h in s'.closed && g.id == h.id && Up(g.nodes.done, StatesOf(s.nodes)) != [] ==>
          ClosedSettledIn(s', h))
  }

  lemma {:induction false} PassSettles(s: State, reports: map<nat, Report>, now: int, oa: seq<Action>, ot: seq<Counts>,
                                       ca: seq<Action>, ct: seq<Counts>, s': State)
    requires SegmentsKept(s) && OpenReady(s) && ClosedReady(s)
    requires OpenPass(s, reports, oa, ot, s') && ClosedPass(s, now, ca, ct, s')
    ensures SettledAfter(s, reports, s')
  {
    forall g, h | g in s.open && h in s'.open && g.id == h.id ensures OpenOutcome(s, g, ReportOf(reports, g), s', h) {
      var g' := PassSettlesOpen(s, reports, oa, ot, s', h);
      SameSegment(s.open, g, g');
    }
    forall g, h | g in s.closed && h in s'.closed && g.id == h.id && Up(g.nodes.done, StatesOf(s.nodes)) != []
      ensures ClosedSettledIn(s', h)
    {
      var g' := PassSettlesClosed(s, now, ca, ct, s', h);
      SameSegment(s.closed, g, g');
    }
  }

  /** One pass: count, then the open segments, then the closed ones. Every open segment with an alive
      primary and every retained closed segment with an alive complete copy is settled, and a dead primary
      is replaced exactly when the segment is promotable, unless some segment's handling panics. */
  method ReconcileSegments(s: State, reports: map<nat, Report>, now: int)
    returns (s': State, crashed: bool, ghost oa: seq<Action>, ghost ot: seq<Counts>, ghost ca: seq<Action>,
             ghost ct: seq<Counts>)
    requires SegmentsKept(s) && Ascending(s.nodes, NodeID)
    ensures crashed ==> SomeOpenCrashes(s, reports) || SomeClosedCrashes(s, now)
    ensures !crashed ==> OpenPass(s, reports, oa, ot, s') && ClosedPass(s, now, ca, ct, s')
    ensures !crashed ==> s' == s.(open := s'.open, closed := s'.closed)
    ensures !crashed ==>
      ot != [] && ct != [] && ct[0] == ot[|ot| - 1] && forall n: nat :: Load(ot[0], n) == Weight(s, n)
    ensures !crashed && OpenReady(s) && ClosedReady(s) ==> SettledAfter(s, reports, s')
  {
    oa, ot, ca, ct := [], [], [], [];
    var counts := CountSegmentsPerNode(s);
    s', counts, crashed, oa, ot := ReconcileOpenSegments(s, counts, reports);
    if crashed {
      return;
    }
    s', counts, crashed, ca, ct := ReconcileClosedSegments(s, s', counts, now);
    if !crashed && OpenReady(s) && ClosedReady(s) {
      PassSettles(s, reports, now, oa, ot, ca, ct, s');
    }
  }
}
