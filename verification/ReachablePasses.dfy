/** Passes of the reconciler in the states that the cluster can reach. */
module ReachablePasses {
  import opened Lists
  import opened ClusterState
  import opened ClusterInvariant
  import opened Placement
  import opened SegmentOpen
  import opened Reconciler
  import Convergence
  import opened ReconcilePass
  import opened PassConvergence
  import opened ClusterRuns

  predicate FactorsIn(n: Namespace) {
    forall t :: t in n.topics ==> t.replicationFactor > 0
  }

  /** Every topic asks for at least one copy. */
  predicate Factors(s: State) {
    forall n :: n in s.namespaces ==> FactorsIn(n)
  }

  /** A topic is created with a positive factor; the server puts a default for zero. */
  predicate GivesFactor(e: Event) {
    e.Plain? && e.command.CreateTopic? ==> e.command.topic.replicationFactor > 0
  }

  lemma {:induction false} NamespaceKeepsFactors(s: State, c: Command)
    requires Factors(s) && InNamespace(c) && Apply(s, c).Next? && GivesFactor(Plain(c))
    ensures Factors(Apply(s, c).state)
  {
    var i := NamespaceAt(s, c.namespace);
    var n, s' := s.namespaces[i], Apply(s, c).state;
    var n' := s'.namespaces[i];
    assert n in s.namespaces && s'.namespaces == s.namespaces[i := n'];
    if c.CreateTopic? {
      PutElements(n.topics, c.topic);
    } else if c.DeleteTopic? && n' != n {
      WithoutElements(n.topics, Find(n.topics, TopicName, c.name));
    }
    assert FactorsIn(n');
  }

  lemma {:induction false} EventKeepsFactors(s: State, e: Event)
    requires Factors(s) && ClusterRuns.Enabled(s, e) && GivesFactor(e)
    ensures Factors(ClusterRuns.After(s, e))
  {
    if !e.Plain? {
      SegmentEventsKeepNamespaces(s, e);
    } else if InNamespace(e.command) {
      NamespaceKeepsFactors(s, e.command);
    } else if e.command.DeleteNamespace? {
      var i := NamespaceAt(s, e.command.namespace);
      if i < |s.namespaces| {
        WithoutElements(s.namespaces, i);
      }
    }
  }

  lemma {:induction false} RunKeepsFactors(s: State, events: seq<Event>)
    requires Factors(s) && ClusterRuns.IsRun(s, events) && forall e :: e in events ==> GivesFactor(e)
    ensures Factors(ClusterRuns.AfterRun(s, events))
    decreases |events|
  {
    if events != [] {
      EventKeepsFactors(s, events[0]);
      RunKeepsFactors(ClusterRuns.After(s, events[0]), events[1..]);
    }
  }

  lemma {:induction false} FactorIsPositive(s: State, o: Owner)
    requires Factors(s) && OwnerExists(s, o)
    ensures Factor(s, o) > 0
  {
    if o.kind.TopicSegment? {
      var n := s.namespaces[NamespaceAt(s, o.namespace)];
      assert n in s.namespaces && FactorsIn(n);
      assert GetTopic(s, o.namespace, o.name).value in n.topics;
    }
  }

  lemma {:induction false} ReadyToPass(s: State)
    requires Inv(s)
    ensures OpenReady(s) && ClosedReady(s)
  {
    forall g | g in s.open
      ensures Convergence.OpenSound(g.nodes, StatesOf(s.nodes)) && g.nodes.primary in StatesOf(s.nodes)
    {
      OpenFineIsSound(g, s.nodes);
    }
    forall g | g in s.closed ensures Convergence.ClosedSound(g.nodes, StatesOf(s.nodes)) {
      ClosedFineIsSound(g, s.nodes);
    }
  }

  lemma {:induction false} NothingPanics(s: State, reports: map<nat, Report>, now: int)
    requires Factors(s) && OpenReady(s) && ClosedReady(s)
    ensures !SomeOpenCrashes(s, reports) && !SomeClosedCrashes(s, now)
  {
    forall i | 0 <= i < |s.open| ensures !CrashesOpen(s, s.open[i], ReportOf(reports, s.open[i])) {
      var g := s.open[i];
      assert g in s.open;
      if OwnerExists(s, OwnerOf(g)) {
        FactorIsPositive(s, OwnerOf(g));
      }
    }
    forall i | 0 <= i < |s.closed| ensures !CrashesClosed(s, s.closed[i], now) {
      var g := s.closed[i];
      assert g in s.closed;
      if OwnerExists(s, OwnerOf(g)) {
        FactorIsPositive(s, OwnerOf(g));
      }
    }
  }

  /** In every state that the cluster reaches, while topics are created with positive factors, a pass does not
      panic whatever the replicas answer, and settles what `PassConvergence` says. */
  lemma {:induction false} PassesNeverPanic(events: seq<Event>, reports: map<nat, Report>, now: int)
    requires ClusterRuns.IsRun(EMPTY, events) && forall e :: e in events ==> GivesFactor(e)
    ensures var s := ClusterRuns.AfterRun(EMPTY, events);
            OpenReady(s) && ClosedReady(s) && !SomeOpenCrashes(s, reports) && !SomeClosedCrashes(s, now)
  {
    var s := ClusterRuns.AfterRun(EMPTY, events);
    EmptyInv();
    ClusterRuns.RunKeeps(EMPTY, events);
    RunKeepsFactors(EMPTY, events);
    ReadyToPass(s);
    NothingPanics(s, reports, now);
  }

  // ---------------------------------------------------------------- pass after pass

  ghost predicate IDsFrom(segments: seq<Segment>, r: seq<Segment>) {
    forall h :: h in r ==> exists g :: g in segments && g.id == h.id
  }

  lemma {:induction false} ActedIDs(segments: seq<Segment>, actions: seq<Action>)
    requires |segments| == |actions|
    ensures IDsFrom(segments, Acted(segments, actions))
  {
    forall h | h in Acted(segments, actions) ensures exists g :: g in segments && g.id == h.id {
      var i := ActedFrom(segments, actions, h);
      assert segments[i] in segments && segments[i].id == h.id;
    }
  }

  lemma {:induction false} SameIDsKeep(s: State, s': State)
    requires SegmentsKept(s) && Ascending(s'.open, SegmentID) && Ascending(s'.closed, SegmentID)
    requires IDsFrom(s.open, s'.open) && IDsFrom(s.closed, s'.closed) && s'.currentSegmentID == s.currentSegmentID
    ensures SegmentsKept(s')
  {
  }

  lemma {:induction false} SameNamesKeep(s: State, s': State)
    requires NamesKept(s) && s'.namespaces == s.namespaces
    ensures NamesKept(s')
  {
  }

  lemma {:induction false} PassKeepsOrder(s: State, s': State, oa: seq<Action>, ca: seq<Action>)
    requires Kept(s) && |oa| == |s.open| && |ca| == |s.closed|
    requires s' == s.(open := Acted(s.open, oa), closed := Acted(s.closed, ca))
    ensures Kept(s')
  {
    assert SegmentsKept(s') by {
      DoAllIsActed(s, InOpen, oa);
      DoAllIsActed(s, InClosed, ca);
      ActedIDs(s.open, oa);
      ActedIDs(s.closed, ca);
      SameIDsKeep(s, s');
    }
    SameNamesKeep(s, s');
  }

  lemma {:induction false} PassKeepsFine(s: State, reports: map<nat, Report>, now: int, oa: seq<Action>,
                                         ot: seq<Counts>, ca: seq<Action>, ct: seq<Counts>, s': State)
    requires Inv(s) && OpenPass(s, reports, oa, ot, s') && ClosedPass(s, now, ca, ct, s')
    ensures NodesFine(s')
  {
    ReadyToPass(s);
    ReadyAfterPass(s, reports, oa, ot, s');
    forall h | h in s'.open ensures OpenFine(h, s'.nodes) {
      OpenFineIsSound(h, s'.nodes);
    }
    forall h | h in s'.closed ensures ClosedFine(h, s'.nodes) {
      var g := PassSettlesClosed(s, now, ca, ct, s', h);
      assert ClosedFine(g, s.nodes);
      ClosedFineIsSound(h, s'.nodes);
    }
  }

  lemma {:induction false} PassKeepsIDs(s: State, reports: map<nat, Report>, oa: seq<Action>, ot: seq<Counts>,
                                        s': State, o: Owner)
    requires OpenReady(s) && OpenPass(s, reports, oa, ot, s')
    ensures OpenIDs(s', o) <= OpenIDs(s, o)
  {
    forall h | h in s'.open && Of(h, o) ensures h.id in OpenIDs(s, o) {
      var g := PassSettlesOpen(s, reports, oa, ot, s', h);
      assert g in s.open && Of(g, o);
    }
  }

  /** A pass keeps what every reachable state has, so that the next one does not panic either. */
  lemma {:induction false} PassKeepsInv(s: State, reports: map<nat, Report>, now: int, oa: seq<Action>,
                                        ot: seq<Counts>, ca: seq<Action>, ct: seq<Counts>, s': State)
    requires Inv(s) && Factors(s) && OpenPass(s, reports, oa, ot, s') && ClosedPass(s, now, ca, ct, s')
    requires s' == s.(open := s'.open, closed := s'.closed)
    ensures Inv(s') && Factors(s')
  {
    PassKeepsOrder(s, s', oa, ca);
    PassKeepsFine(s, reports, now, oa, ot, ca, ct, s');
    ReadyToPass(s);
    forall o: Owner | o.kind.OffsetCommitsSegment? ensures |OpenIDs(s', o)| <= 1 {
      PassKeepsIDs(s, reports, oa, ot, s', o);
      SubsetSize(OpenIDs(s', o), OpenIDs(s, o));
    }
  }

  /** One pass from a reachable state, whatever the replicas answer: it does not panic, settles what it can, and
      leaves a state from which the next pass can start. */
  method ReconcileReachable(s: State, reports: map<nat, Report>, now: int) returns (s': State)
    requires Inv(s) && Factors(s)
    ensures SettledAfter(s, reports, s') && Inv(s') && Factors(s')
  {
    ReadyToPass(s);
    NothingPanics(s, reports, now);
    var crashed;
    ghost var oa, ot, ca, ct;
    s', crashed, oa, ot, ca, ct := ReconcileSegments(s, reports, now);
    PassKeepsInv(s, reports, now, oa, ot, ca, ct, s');
  }
}
