/** The consumer-group task's committed offsets: recovered at start, merged with the cluster state,
    and logged commit by commit. */
module OffsetLog {
  import opened DeliveryRing
  import opened RingRuns

  type Offsets = map<nat, int>

  /** Later entries for the same segment win. */
  function FromCommits(cs: seq<Commit>): Offsets {
    if cs == [] then map[] else FromCommits(cs[..|cs| - 1])[cs[|cs| - 1].segment := cs[|cs| - 1].commitOffset]
  }

  /** No later entry is for the same segment. */
  predicate IsLast(cs: seq<Commit>, i: nat) {
    i < |cs| && forall j :: i < j < |cs| ==> cs[j].segment != cs[i].segment
  }

  predicate Names(cs: seq<Commit>, g: nat) {
    exists i :: 0 <= i < |cs| && cs[i].segment == g
  }

  lemma {:induction false} NamesNext(cs: seq<Commit>, c: Commit, g: nat)
    ensures Names(cs + [c], g) <==> Names(cs, g) || c.segment == g
  {
    if Names(cs, g) {
      var i :| 0 <= i < |cs| && cs[i].segment == g;
      assert (cs + [c])[i].segment == g;
    }
    assert (cs + [c])[|cs|] == c;
  }

  /** The segments of the list. */
  lemma {:induction false} KeysAreNamed(cs: seq<Commit>)
    ensures forall g :: g in FromCommits(cs) <==> Names(cs, g)
    decreases |cs|
  {
    if cs != [] {
      var k := |cs| - 1;
      KeysAreNamed(cs[..k]);
      assert cs == cs[..k] + [cs[k]];
      forall g ensures Names(cs, g) <==> Names(cs[..k], g) || cs[k].segment == g {
        NamesNext(cs[..k], cs[k], g);
      }
    }
  }

  /** Each has the offset of its last entry. */
  lemma {:induction false} LastEntryCounts(cs: seq<Commit>, i: nat)
    requires IsLast(cs, i)
    ensures cs[i].segment in FromCommits(cs) && FromCommits(cs)[cs[i].segment] == cs[i].commitOffset
    decreases |cs|
  {
    var k := |cs| - 1;
    if i < k {
      assert cs[k].segment != cs[i].segment;
      LastEntryCounts(cs[..k], i);
    }
  }

  /** A logged commit raises an offset, but only of a segment the cluster state knows. */
  function Raise(m: Offsets, c: Commit): Offsets {
    if c.segment in m && c.commitOffset > m[c.segment] then m[c.segment := c.commitOffset] else m
  }

  function Replay(m: Offsets, log: seq<Commit>): Offsets {
    if log == [] then m else Raise(Replay(m, log[..|log| - 1]), log[|log| - 1])
  }

  /** The segments of the cluster state's commits, each with the highest of its saved and logged offsets. */
  lemma {:induction false} RecoveredIs(offsetCommits: seq<Commit>, log: seq<Commit>)
    ensures var m := Replay(FromCommits(offsetCommits), log);
            && (forall g :: g in m <==> Names(offsetCommits, g))
            && (forall i: nat :: IsLast(offsetCommits, i) ==>
                  var c := offsetCommits[i];
                  c.segment in m && IsHighest(m[c.segment], c.commitOffset, log, c.segment))
  {
    KeysAreNamed(offsetCommits);
    ReplayIsHighest(FromCommits(offsetCommits), log);
    forall i: nat | IsLast(offsetCommits, i)
      ensures var c := offsetCommits[i];
              c.segment in FromCommits(offsetCommits) && FromCommits(offsetCommits)[c.segment] == c.commitOffset
    {
      LastEntryCounts(offsetCommits, i);
    }
  }

  method RecoverOffsets(offsetCommits: seq<Commit>, log: seq<Commit>) returns (m: Offsets)
    ensures m == Replay(FromCommits(offsetCommits), log)
    ensures forall g :: g in m <==> Names(offsetCommits, g)
    ensures forall i: nat :: IsLast(offsetCommits, i) ==>
      var c := offsetCommits[i];
      c.segment in m && IsHighest(m[c.segment], c.commitOffset, log, c.segment)
  {
    m := map[];
    for i := 0 to |offsetCommits|
      invariant m == FromCommits(offsetCommits[..i])
    {
      assert offsetCommits[..i + 1][..i] == offsetCommits[..i];
      m := m[offsetCommits[i].segment := offsetCommits[i].commitOffset];
    }
    assert offsetCommits[..|offsetCommits|] == offsetCommits;
    for i := 0 to |log|
      invariant m == Replay(FromCommits(offsetCommits), log[..i])
    {
      assert log[..i + 1][..i] == log[..i];
      var c := log[i];
      if c.segment in m && c.commitOffset > m[c.segment] {
        m := m[c.segment := c.commitOffset];
      }
    }
    assert log[..|log|] == log;
    RecoveredIs(offsetCommits, log);
  }

  /** The largest of an offset and a segment's logged commits. */
  ghost predicate IsHighest(v: int, start: int, log: seq<Commit>, segment: nat) {
    && v >= start
    && (forall c :: c in log && c.segment == segment ==> c.commitOffset <= v)
    && (v == start || Commit(segment, v) in log)
  }

  /** Recovery gives each segment of the cluster state the highest offset ever logged for it. */
  lemma {:induction false} ReplayIsHighest(m: Offsets, log: seq<Commit>)
    ensures Replay(m, log).Keys == m.Keys
    ensures forall g :: g in m ==> IsHighest(Replay(m, log)[g], m[g], log, g)
    decreases |log|
  {
    if log != [] {
      var front, c := log[..|log| - 1], log[|log| - 1];
      assert log == front + [c];
      ReplayIsHighest(m, front);
      forall g | g in m ensures IsHighest(Replay(m, log)[g], m[g], log, g) {
        assert IsHighest(Replay(m, front)[g], m[g], front, g);
        if g == c.segment {
          assert Commit(g, c.commitOffset) == c;
        }
      }
    }
  }

  /** The order in which commits reached the log does not matter. */
  lemma {:induction false} ReplayAnyOrder(m: Offsets, log: seq<Commit>, log': seq<Commit>)
    requires multiset(log) == multiset(log')
    ensures Replay(m, log) == Replay(m, log')
  {
    ReplayIsHighest(m, log);
    ReplayIsHighest(m, log');
    assert forall c :: c in log <==> c in multiset(log);
    assert forall c :: c in log' <==> c in multiset(log');
    forall g | g in m ensures Replay(m, log)[g] == Replay(m, log')[g] {
      assert IsHighest(Replay(m, log)[g], m[g], log, g) && IsHighest(Replay(m, log')[g], m[g], log', g);
    }
  }

  // ---------------------------------------------------------------- the running task

  /** `cluster` is what a restart would start from, together with `log`; `committed` is what the consumer
      has in memory. */
  datatype Task = Task(cluster: Offsets, log: seq<Commit>, committed: Offsets)

  datatype Event =
    | CommitLogged(c: Commit)
    | CommitRotates(c: Commit, reopenedHere: bool)
    | ClusterChanges(next: Offsets)
    | Tick

  /** The in-memory offsets after the consumer has seen a new cluster state. */
  function Refreshed(cluster: Offsets, committed: Offsets): Offsets {
    map g | g in cluster ::
      if g in committed && committed[g] > cluster[g] then committed[g] else cluster[g]
  }

  /** The offset of the commit's segment is the higher of the commit's and the remembered one. */
  predicate HigherOf(next: Offsets, c: Commit, committed: Offsets) {
    && c.segment in next && next[c.segment] >= c.commitOffset
    && (c.segment in committed ==> next[c.segment] >= committed[c.segment])
    && (next[c.segment] == c.commitOffset || (c.segment in committed && next[c.segment] == committed[c.segment]))
  }

  lemma {:induction false} RefreshedIs(offsetCommits: seq<Commit>, committed: Offsets)
    ensures var next := Refreshed(FromCommits(offsetCommits), committed);
            && (forall g :: g in next <==> Names(offsetCommits, g))
            && (forall i: nat :: IsLast(offsetCommits, i) ==> HigherOf(next, offsetCommits[i], committed))
  {
    KeysAreNamed(offsetCommits);
    forall i: nat | IsLast(offsetCommits, i)
      ensures HigherOf(Refreshed(FromCommits(offsetCommits), committed), offsetCommits[i], committed)
    {
      LastEntryCounts(offsetCommits, i);
    }
  }

  method Refresh(offsetCommits: seq<Commit>, committed: Offsets) returns (next: Offsets)
    ensures next == Refreshed(FromCommits(offsetCommits), committed)
    ensures forall g :: g in next <==> Names(offsetCommits, g)
    ensures forall i: nat :: IsLast(offsetCommits, i) ==> HigherOf(next, offsetCommits[i], committed)
  {
    next := map[];
    for i := 0 to |offsetCommits|
      invariant next == Refreshed(FromCommits(offsetCommits[..i]), committed)
    {
      assert offsetCommits[..i + 1][..i] == offsetCommits[..i];
      var c := offsetCommits[i];
      next := next[c.segment := c.commitOffset];
      if c.segment in committed && committed[c.segment] > c.commitOffset {
        next := next[c.segment := committed[c.segment]];
      }
    }
    assert offsetCommits[..|offsetCommits|] == offsetCommits;
    RefreshedIs(offsetCommits, committed);
  }

  /** The cluster state changes on its own: offsets of segments that stay are kept, and a segment that is
      added, for the first time or again, starts at zero. */
  predicate Enabled(t: Task, e: Event) {
    e.ClusterChanges? ==>
      forall g :: g in e.next ==>
        e.next[g] == if g in t.cluster then t.cluster[g] else 0
  }

  /** What is in memory for a segment, zero when nothing is, is the highest offset in the log or zero. */
  ghost predicate Rejoins(t: Task, g: nat) {
    var v := Committed(t.committed, g);
    && (forall c :: c in t.log && c.segment == g ==> c.commitOffset <= v)
    && (v == 0 || (v > 0 && Commit(g, v) in t.log))
  }

  /** Every segment that the event adds fits what the log says about it. */
  ghost predicate Smooth(t: Task, e: Event) {
    e.ClusterChanges? ==> forall g :: g in e.next && g !in t.cluster ==> Rejoins(t, g)
  }

  /** A commit that finds the log full first saves every offset to the cluster state, and is then
      written to the new log, if that is on this node. */
  function AfterEvent(t: Task, e: Event): Task {
    match e
    case CommitLogged(c) => t.(log := t.log + [c], committed := Merge(t.committed, c))
    case CommitRotates(c, here) =>
      var saved := Merge(t.committed, c);
      Task(saved, if here then [c] else [], saved)
    case ClusterChanges(next) => t.(cluster := next)
    case Tick => t.(committed := Refreshed(t.cluster, t.committed))
  }

  /** What the consumer has for a segment is the highest offset a restart could find; a segment it has not
      seen yet starts from nothing. */
  ghost predicate Inv(t: Task) {
    forall g :: g in t.cluster ==>
      && IsHighest(InMemory(t, g), t.cluster[g], t.log, g)
      && (g !in t.committed ==> t.cluster[g] == 0)
  }

  /** The offset the consumer works with. */
  function InMemory(t: Task, g: nat): int
    requires g in t.cluster
  {
    if g in t.committed then t.committed[g] else t.cluster[g]
  }

  /** A restart, reading the log in any order, finds the offset the consumer has for every segment of the
      cluster state. */
  lemma {:induction false} RestartFindsTheSame(t: Task, log: seq<Commit>)
    requires Inv(t) && multiset(log) == multiset(t.log)
    ensures Replay(t.cluster, log).Keys == t.cluster.Keys
    ensures forall g :: g in t.cluster ==> Replay(t.cluster, log)[g] == InMemory(t, g)
  {
    ReplayAnyOrder(t.cluster, log, t.log);
    ReplayIsHighest(t.cluster, t.log);
    forall g | g in t.cluster ensures Replay(t.cluster, t.log)[g] == InMemory(t, g) {
      assert IsHighest(Replay(t.cluster, t.log)[g], t.cluster[g], t.log, g);
    }
  }

  lemma {:induction false} SmoothEventKeeps(t: Task, e: Event)
    requires Inv(t) && Enabled(t, e) && Smooth(t, e)
    ensures Inv(AfterEvent(t, e))
  {
    var t' := AfterEvent(t, e);
    forall g | g in t'.cluster
      ensures IsHighest(InMemory(t', g), t'.cluster[g], t'.log, g)
    {
      match e {
        case CommitLogged(c) =>
          assert IsHighest(InMemory(t, g), t.cluster[g], t.log, g);
          assert g == c.segment ==> Commit(g, c.commitOffset) == c;
        case CommitRotates(c, here) =>
        case ClusterChanges(next) =>
          assert if g in t.cluster then IsHighest(InMemory(t, g), t.cluster[g], t.log, g) else Rejoins(t, g);
        case Tick =>
          assert IsHighest(InMemory(t, g), t.cluster[g], t.log, g);
      }
    }
  }

  /** Every event keeps memory and log in agreement, except exactly a change that adds a segment about
      which they disagree. */
  lemma {:induction false} EventKeeps(t: Task, e: Event)
    requires Inv(t) && Enabled(t, e)
    ensures Inv(AfterEvent(t, e)) <==> Smooth(t, e)
  {
    if Smooth(t, e) {
      SmoothEventKeeps(t, e);
    } else {
      var g :| g in e.next && g !in t.cluster && !Rejoins(t, g);
      var t' := AfterEvent(t, e);
      assert g in t'.cluster && !IsHighest(InMemory(t', g), t'.cluster[g], t'.log, g);
    }
  }

  predicate IsRun(t: Task, es: seq<Event>)
    decreases |es|
  {
    es == [] || (Enabled(t, es[0]) && IsRun(AfterEvent(t, es[0]), es[1..]))
  }

  function AfterRun(t: Task, es: seq<Event>): Task
    requires IsRun(t, es)
    decreases |es|
  {
    if es == [] then t else AfterRun(AfterEvent(t, es[0]), es[1..])
  }

  ghost predicate SmoothRun(t: Task, es: seq<Event>)
    requires IsRun(t, es)
    decreases |es|
  {
    es == [] || (Smooth(t, es[0]) && SmoothRun(AfterEvent(t, es[0]), es[1..]))
  }

  lemma {:induction false} RunKeeps(t: Task, es: seq<Event>)
    requires Inv(t) && IsRun(t, es) && SmoothRun(t, es)
    ensures Inv(AfterRun(t, es))
    decreases |es|
  {
    if es != [] {
      EventKeeps(t, es[0]);
      RunKeeps(AfterEvent(t, es[0]), es[1..]);
    }
  }

  /** From any recovered start, through commits, rotations and cluster changes, a restart at any moment
      recovers exactly the offsets the running task had. */
  lemma {:induction false} RestartAnytime(cluster: Offsets, log: seq<Commit>, es: seq<Event>, shuffled: seq<Commit>)
    requires IsRun(Task(cluster, log, Replay(cluster, log)), es)
    requires SmoothRun(Task(cluster, log, Replay(cluster, log)), es)
    requires multiset(shuffled) == multiset(AfterRun(Task(cluster, log, Replay(cluster, log)), es).log)
    ensures var t := AfterRun(Task(cluster, log, Replay(cluster, log)), es);
            forall g :: g in t.cluster ==>
              g in Replay(t.cluster, shuffled) && Replay(t.cluster, shuffled)[g] == InMemory(t, g)
  {
    ReplayIsHighest(cluster, log);
    RunKeeps(Task(cluster, log, Replay(cluster, log)), es);
    RestartFindsTheSame(AfterRun(Task(cluster, log, Replay(cluster, log)), es), shuffled);
  }

  /** For a segment that is added at offset zero, with an offset still in memory or not, the consumer and a
      restart agree exactly when memory fits the log. */
  lemma {:induction false} AddedSegmentExact(t: Task, next: Offsets, g: nat)
    requires g in next && next[g] == 0
    ensures g in Replay(next, t.log)
    ensures InMemory(AfterEvent(t, ClusterChanges(next)), g) == Replay(next, t.log)[g] <==> Rejoins(t, g)
  {
    ReplayIsHighest(next, t.log);
    var v := Replay(next, t.log)[g];
    assert IsHighest(v, 0, t.log, g);
    if v != 0 {
      assert Commit(g, v) in t.log;
    }
  }

  /** A segment that leaves the group and comes back is the exception: the consumer starts it over, while a
      restart still finds its old commits in the log. */
  lemma {:induction false} ReturningSegmentDiverges(g: nat, off: int)
    requires off > 0
    ensures var c := Commit(g, off);
            var t := Task(map[g := 0], [c], map[g := off]);
            var away := AfterEvent(AfterEvent(t, ClusterChanges(map[])), Tick);
            var back := AfterEvent(AfterEvent(away, ClusterChanges(map[g := 0])), Tick);
            && Inv(t) && Smooth(t, ClusterChanges(map[])) && !Smooth(away, ClusterChanges(map[g := 0]))
            && back.committed == map[g := 0] && Replay(back.cluster, back.log) == map[g := off]
  {
    var c := Commit(g, off);
    var t := Task(map[g := 0], [c], map[g := off]);
    assert IsHighest(off, 0, [c], g);
    var away := AfterEvent(AfterEvent(t, ClusterChanges(map[])), Tick);
    assert c in away.log && g in map[g := 0];
    var none: seq<Commit> := [];
    assert [c][..0] == none;
    assert Replay(map[g := 0], none) == map[g := 0];
  }
}
