/** Bringing a segment to its replication factor: trimming, adding and giving up. */
module Reconciler {
  import opened Lists
  import opened ClusterState
  import opened Placement

  type States = map<nat, NodeState>

  predicate IsUp(states: States, n: nat) {
    n in states && states[n].Alive?
  }

  predicate Known(states: States, ids: seq<nat>) {
    forall n :: n in ids ==> n in states
  }

  function Up(ids: seq<nat>, states: States): (r: seq<nat>)
    ensures forall n :: n in r <==> n in ids && IsUp(states, n)
    ensures |r| <= |ids|
  {
    Filter(ids, (n: nat) => IsUp(states, n))
  }

  function Free(candidates: seq<nat>, taken: seq<nat>): (r: seq<nat>)
    ensures forall n :: n in r <==> n in candidates && n !in taken
  {
    Filter(candidates, (n: nat) => n !in taken)
  }

  /** A node that is not in the table, or a factor of zero, is a panic. */
  datatype Plan = Keep | Update(nodes: Nodes) | Panicked

  function Planned(nodes: Nodes, plan: Plan): Nodes {
    if plan.Update? then plan.nodes else nodes
  }

  // ---------------------------------------------------------------- what a plan must be

  /** The nodes that join: those that come after the replicas that are up. */
  function Joined(nodes: Nodes, states: States, plan: Plan): seq<nat> {
    var kept := |Up(nodes.replicating, states)|;
    if plan.Update? && |plan.nodes.replicating| > kept then plan.nodes.replicating[kept..] else []
  }

  /** The nodes that join are as many as are missing or can be had, and least loaded. */
  ghost predicate Joining(candidates: seq<nat>, taken: seq<nat>, counts: Counts, missing: int, added: seq<nat>) {
    var free := Free(candidates, taken);
    LeastLoaded(free, counts, added) && |added| == if missing <= 0 then 0 else Min(missing, |free|)
  }

  /** For an open segment whose primary is alive. */
  ghost predicate OpenPlan(nodes: Nodes, factor: nat, states: States, candidates: seq<nat>, counts: Counts,
                           plan: Plan)
  {
    var kept, added := Up(nodes.replicating, states), Joined(nodes, states, plan);
    if factor == 0 || !Known(states, nodes.replicating) then plan == Panicked
    else if 1 + |kept| > factor then plan == Update(Nodes(nodes.primary, Firsts(kept, factor - 1), []))
    else
      && Joining(candidates, [nodes.primary] + kept, counts, factor - 1 - |kept|, added)
      && plan == if added == [] then Keep else Update(Nodes(nodes.primary, kept + added, []))
  }

  /** For a closed segment: complete copies go first, and without an alive one nothing is done. */
  ghost predicate ClosedPlan(nodes: Nodes, factor: nat, states: States, candidates: seq<nat>, counts: Counts,
                             plan: Plan)
  {
    var done, kept, added := Up(nodes.done, states), Up(nodes.replicating, states), Joined(nodes, states, plan);
    if factor == 0 || !Known(states, nodes.replicating + nodes.done) then plan == Panicked
    else if done == [] then plan == Keep
    else if |done| + |kept| > factor then
      plan == Update(Nodes(0, Firsts(kept, factor - |Firsts(done, factor)|), Firsts(done, factor)))
    else
      && Joining(candidates, done + kept, counts, factor - |done| - |kept|, added)
      && plan == if added == [] then Keep else Update(Nodes(0, kept + added, done))
  }

  /** Trimming moves the counts along unless the factor is one; joining counts the nodes that join. */
  ghost predicate OpenCounts(nodes: Nodes, factor: nat, states: States, plan: Plan, counts: Counts, counts': Counts) {
    var added := Joined(nodes, states, plan);
    if plan.Update? && added == [] && factor > 1
    then Shifted(counts, nodes.replicating, plan.nodes.replicating, counts')
    else counts' == Bumped(counts, added)
  }

  /** Trimming moves the counts of incomplete copies along unless complete ones are enough. */
  ghost predicate ClosedCounts(nodes: Nodes, factor: nat, states: States, plan: Plan, counts: Counts, counts': Counts) {
    var added := Joined(nodes, states, plan);
    if plan.Update? && added == [] && |plan.nodes.done| < factor
    then Shifted(counts, nodes.replicating, plan.nodes.replicating, counts')
    else counts' == Bumped(counts, added)
  }

  lemma {:induction false} JoinedAre(nodes: Nodes, states: States, plan: Plan, kept: seq<nat>, added: seq<nat>)
    requires kept == Up(nodes.replicating, states)
    requires if plan.Update? then plan.nodes.replicating == kept + added else added == []
    ensures Joined(nodes, states, plan) == added
  {
    assert (kept + added)[|kept|..] == added;
  }

  lemma {:induction false} NoneJoin(nodes: Nodes, states: States, plan: Plan, limit: nat)
    requires plan.Update? ==> plan.nodes.replicating == Firsts(Up(nodes.replicating, states), limit)
    ensures Joined(nodes, states, plan) == []
  {
  }

  // ---------------------------------------------------------------- the loops

  lemma {:induction false} UpStep(ids: seq<nat>, i: nat, states: States)
    requires i < |ids|
    ensures Up(ids[..i + 1], states) == Up(ids[..i], states) + if IsUp(states, ids[i]) then [ids[i]] else []
  {
    assert ids[..i + 1][..i] == ids[..i];
  }

  method CountUp(ids: seq<nat>, states: States) returns (n: nat)
    requires Known(states, ids)
    ensures n == |Up(ids, states)|
  {
    n := 0;
    for i := 0 to |ids|
      invariant n == |Up(ids[..i], states)|
    {
      UpStep(ids, i, states);
      if states[ids[i]].Alive? {
        n := n + 1;
      }
    }
    assert ids[..|ids|] == ids;
  }

  /** The first `limit` elements, or all when there are fewer. */
  function Firsts(s: seq<nat>, limit: nat): seq<nat> {
    s[..Min(limit, |s|)]
  }

  lemma {:induction false} FirstsStep(ids: seq<nat>, i: nat, states: States, limit: nat, r: seq<nat>)
    requires i < |ids| && r == Firsts(Up(ids[..i], states), limit)
    ensures Firsts(Up(ids[..i + 1], states), limit)
         == r + if IsUp(states, ids[i]) && |r| < limit then [ids[i]] else []
  {
    UpStep(ids, i, states);
  }

  /** The first `limit` nodes that are up. */
  method TakeUp(ids: seq<nat>, states: States, limit: nat) returns (r: seq<nat>)
    requires Known(states, ids)
    ensures r == Firsts(Up(ids, states), limit)
    ensures limit >= |ids| ==> r == Up(ids, states)
  {
    r := [];
    for i := 0 to |ids|
      invariant r == Firsts(Up(ids[..i], states), limit)
    {
      FirstsStep(ids, i, states, limit, r);
      if states[ids[i]].Alive? && |r| < limit {
        r := r + [ids[i]];
      }
    }
    assert ids[..|ids|] == ids;
  }

  /** Every node's count changed by as much as the list of nodes did. */
  ghost predicate Shifted(counts: Counts, before: seq<nat>, after: seq<nat>, counts': Counts) {
    forall n: nat ::
      Load(counts', n) == Load(counts, n) - multiset(before)[n] + multiset(after)[n]
  }

  lemma {:induction false} ShiftedSame(counts: Counts, before: seq<nat>, after: seq<nat>, counts': Counts, x: nat)
    requires Shifted(counts, before, after, counts')
    ensures Shifted(counts, before + [x], after + [x], counts')
  {
    assert multiset(before + [x]) == multiset(before) + multiset{x};
    assert multiset(after + [x]) == multiset(after) + multiset{x};
  }

  lemma {:induction false} ShiftedLess(counts: Counts, before: seq<nat>, after: seq<nat>, counts': Counts, x: nat)
    requires Shifted(counts, before, after, counts')
    ensures Shifted(counts, before + [x], after, Add(counts', x, -1))
  {
    assert multiset(before + [x]) == multiset(before) + multiset{x};
  }

  lemma {:induction false} ShiftedStep(counts: Counts, ids: seq<nat>, i: nat, r: seq<nat>, counts': Counts)
    requires i < |ids| && Shifted(counts, ids[..i], r, counts')
    ensures Shifted(counts, ids[..i + 1], r + [ids[i]], counts')
    ensures Shifted(counts, ids[..i + 1], r, Add(counts', ids[i], -1))
  {
    ShiftedSame(counts, ids[..i], r, counts', ids[i]);
    ShiftedLess(counts, ids[..i], r, counts', ids[i]);
    assert ids[..i + 1] == ids[..i] + [ids[i]];
  }

  /** As above, and the nodes that are left out lose one in their count. */
  method TrimUp(ids: seq<nat>, states: States, limit: nat, counts: Counts) returns (r: seq<nat>, trimmed: Counts)
    requires Known(states, ids)
    ensures r == Firsts(Up(ids, states), limit)
    ensures Shifted(counts, ids, r, trimmed)
  {
    r, trimmed := [], counts;
    for i := 0 to |ids|
      invariant r == Firsts(Up(ids[..i], states), limit)
      invariant Shifted(counts, ids[..i], r, trimmed)
    {
      FirstsStep(ids, i, states, limit, r);
      ShiftedStep(counts, ids, i, r, trimmed);
      if states[ids[i]].Alive? && |r| < limit {
        r := r + [ids[i]];
      } else {
        trimmed := Add(trimmed, ids[i], -1);
      }
    }
    assert ids[..|ids|] == ids;
  }

  method FindFree(candidates: seq<nat>, taken: seq<nat>) returns (free: seq<nat>)
    ensures free == Free(candidates, taken)
  {
    free := [];
    for i := 0 to |candidates|
      invariant free == Free(candidates[..i], taken)
    {
      assert candidates[..i + 1][..i] == candidates[..i];
      if candidates[i] !in taken {
        free := free + [candidates[i]];
      }
    }
    assert candidates[..|candidates|] == candidates;
  }

  lemma {:induction false} FilterDistinct(s: seq<nat>, keep: nat -> bool)
    requires Distinct(s)
    ensures Distinct(Filter(s, keep))
    decreases |s|
  {
    if s != [] {
      var front := s[..|s| - 1];
      FilterDistinct(front, keep);
      assert s[|s| - 1] !in front;
    }
  }

  method Join(kept: seq<nat>, taken: seq<nat>, candidates: seq<nat>, counts: Counts, target: nat)
    returns (chosen: seq<nat>, bumped: Counts, ghost added: seq<nat>)
    requires Distinct(candidates)
    ensures chosen == kept + added && bumped == Bumped(counts, added)
    ensures Joining(candidates, taken, counts, target - |kept|, added)
  {
    var free := FindFree(candidates, taken);
    FilterDistinct(candidates, (n: nat) => n !in taken);
    chosen, bumped, added := FillUp(kept, free, counts, target);
  }

  // ---------------------------------------------------------------- the two reconcilers

  /** An open segment whose primary is alive. */
  method ReconcileAlivePrimary(nodes: Nodes, factor: nat, states: States, candidates: seq<nat>, counts: Counts)
    returns (plan: Plan, counts': Counts)
    requires Distinct(candidates)
    ensures OpenPlan(nodes, factor, states, candidates, counts, plan)
    ensures OpenCounts(nodes, factor, states, plan, counts, counts')
  {
    counts' := counts;
    if factor < 1 || exists n :: n in nodes.replicating && n !in states {
      return Panicked, counts';
    }
    var alive := CountUp(nodes.replicating, states);
    if 1 + alive > factor {
      var replicating := [];
      if factor - 1 > 0 {
        replicating, counts' := TrimUp(nodes.replicating, states, factor - 1, counts);
      }
      plan := Update(Nodes(nodes.primary, replicating, []));
      NoneJoin(nodes, states, plan, factor - 1);
    } else if 1 + alive < factor {
      var kept := TakeUp(nodes.replicating, states, |nodes.replicating|);
      var chosen;
      ghost var added;
      chosen, counts', added := Join(kept, [nodes.primary] + kept, candidates, counts, factor - 1);
      plan := if |chosen| > |kept| then Update(Nodes(nodes.primary, chosen, [])) else Keep;
      JoinedAre(nodes, states, plan, kept, added);
    } else {
      plan := Keep;
    }
  }

  /** A closed segment that is retained. */
  method ReconcileClosedCopies(nodes: Nodes, factor: nat, states: States, candidates: seq<nat>, counts: Counts)
    returns (plan: Plan, counts': Counts)
    requires Distinct(candidates)
    ensures ClosedPlan(nodes, factor, states, candidates, counts, plan)
    ensures ClosedCounts(nodes, factor, states, plan, counts, counts')
  {
    if (exists n :: n in nodes.replicating + nodes.done && n !in states) || factor < 1 {
      return Panicked, counts;
    }
    plan, counts' := AdjustClosed(nodes, factor, states, candidates, counts);
  }

  method AdjustClosed(nodes: Nodes, factor: nat, states: States, candidates: seq<nat>, counts: Counts)
    returns (plan: Plan, counts': Counts)
    requires Distinct(candidates) && Known(states, nodes.done) && Known(states, nodes.replicating) && factor >= 1
    ensures ClosedPlan(nodes, factor, states, candidates, counts, plan)
    ensures ClosedCounts(nodes, factor, states, plan, counts, counts')
  {
    counts' := counts;
    var aliveDone := CountUp(nodes.done, states);
    var alive := CountUp(nodes.replicating, states);
    if aliveDone + alive > factor {
      if aliveDone == 0 {
        return Keep, counts';
      }
      plan, counts' := TrimClosed(nodes, factor, states, counts);
      NoneJoin(nodes, states, plan, factor - |plan.nodes.done|);
    } else if aliveDone + alive < factor {
      if aliveDone == 0 {
        return Keep, counts';
      }
      plan, counts' := GrowClosed(nodes, factor, states, candidates, counts);
    } else {
      plan := Keep;
    }
  }

  method GrowClosed(nodes: Nodes, factor: nat, states: States, candidates: seq<nat>, counts: Counts)
    returns (plan: Plan, counts': Counts)
    requires Distinct(candidates) && Known(states, nodes.done) && Known(states, nodes.replicating)
    requires |Up(nodes.done, states)| + |Up(nodes.replicating, states)| < factor
    ensures var done, kept, added := Up(nodes.done, states), Up(nodes.replicating, states), Joined(nodes, states, plan);
            && Joining(candidates, done + kept, counts, factor - |done| - |kept|, added)
            && plan == (if added == [] then Keep else Update(Nodes(0, kept + added, done)))
            && counts' == Bumped(counts, added)
  {
    var done := TakeUp(nodes.done, states, |nodes.done|);
    var kept := TakeUp(nodes.replicating, states, |nodes.replicating|);
    var chosen;
    ghost var added;
    chosen, counts', added := Join(kept, done + kept, candidates, counts, factor - |done|);
    plan := if |chosen| > |kept| then Update(Nodes(0, chosen, done)) else Keep;
    JoinedAre(nodes, states, plan, kept, added);
  }

  method TrimClosed(nodes: Nodes, factor: nat, states: States, counts: Counts)
    returns (plan: Plan, counts': Counts)
    requires Known(states, nodes.done) && Known(states, nodes.replicating)
    ensures var done := Firsts(Up(nodes.done, states), factor);
            plan == Update(Nodes(0, Firsts(Up(nodes.replicating, states), factor - |done|), done))
    ensures |plan.nodes.done| < factor ==> Shifted(counts, nodes.replicating, plan.nodes.replicating, counts')
    ensures |plan.nodes.done| >= factor ==> counts' == counts
  {
    var done := TakeUp(nodes.done, states, factor);
    var replicating := [];
    counts' := counts;
    if |done| < factor {
      replicating, counts' := TrimUp(nodes.replicating, states, factor - |done|, counts);
    }
    plan := Update(Nodes(0, replicating, done));
  }

  // ---------------------------------------------------------------- do the counts follow?

  lemma {:induction false} BumpedLoad(counts: Counts, added: seq<nat>, n: nat)
    ensures Load(Bumped(counts, added), n) == Load(counts, n) + multiset(added)[n]
    decreases |added|
  {
    if added != [] {
      var front, last := added[..|added| - 1], added[|added| - 1];
      BumpedLoad(counts, front, n);
      assert added == front + [last];
    }
  }

  lemma {:induction false} UpTally(ids: seq<nat>, states: States)
    ensures multiset(Up(ids, states)) == multiset(ids) <==> forall n :: n in ids ==> IsUp(states, n)
    decreases |ids|
  {
    if forall n :: n in ids ==> IsUp(states, n) {
      UpOfUp(ids, states);
    } else {
      var n :| n in ids && !IsUp(states, n);
      assert n in multiset(ids) && n !in multiset(Up(ids, states));
    }
  }

  lemma {:induction false} UpOfUp(ids: seq<nat>, states: States)
    requires forall n :: n in ids ==> IsUp(states, n)
    ensures Up(ids, states) == ids
    decreases |ids|
  {
    if ids != [] {
      var front, last := ids[..|ids| - 1], ids[|ids| - 1];
      assert ids == front + [last];
      UpOfUp(front, states);
    }
  }

  lemma {:induction false} BumpFollows(counts: Counts, before: seq<nat>, kept: seq<nat>, added: seq<nat>)
    ensures Shifted(counts, before, kept + added, Bumped(counts, added)) <==> multiset(kept) == multiset(before)
  {
    forall n: nat ensures Load(Bumped(counts, added), n) == Load(counts, n) + multiset(added)[n] {
      BumpedLoad(counts, added, n);
    }
    assert multiset(kept + added) == multiset(kept) + multiset(added);
    if Shifted(counts, before, kept + added, Bumped(counts, added)) {
      forall n: nat ensures multiset(kept)[n] == multiset(before)[n] {
        assert Load(Bumped(counts, added), n) == Load(counts, n) + multiset(added)[n];
      }
    }
  }

  lemma {:induction false} OpenCountsByPlan(nodes: Nodes, factor: nat, states: States, candidates: seq<nat>,
                                           counts: Counts, plan: Plan, counts': Counts)
    requires OpenPlan(nodes, factor, states, candidates, counts, plan)
    requires OpenCounts(nodes, factor, states, plan, counts, counts')
    ensures var joined := Joined(nodes, states, plan) != [];
            Shifted(counts, nodes.replicating, Planned(nodes, plan).replicating, counts')
            <==> || !plan.Update?
                 || (!joined && factor > 1)
                 || (joined && forall n :: n in nodes.replicating ==> IsUp(states, n))
  {
    var kept, added := Up(nodes.replicating, states), Joined(nodes, states, plan);
    UpTally(nodes.replicating, states);
    if plan.Update? && added != [] {
      BumpFollows(counts, nodes.replicating, kept, added);
    } else if plan.Update? && factor == 1 {
      BumpFollows(counts, nodes.replicating, [], []);
      assert kept[0] in kept;
      assert nodes.replicating != [] && multiset(nodes.replicating) != multiset([]);
    }
  }

  /** Nothing is to be done, or replicas are trimmed to a factor above one, or some join and every listed
      replica is up. */
  predicate OpenFollows(nodes: Nodes, factor: nat, states: States, candidates: seq<nat>) {
    var kept := Up(nodes.replicating, states);
    || factor == 0 || !Known(states, nodes.replicating)
    || if 1 + |kept| > factor then factor > 1
       else
         || 1 + |kept| == factor || Free(candidates, [nodes.primary] + kept) == []
         || forall n :: n in nodes.replicating ==> IsUp(states, n)
  }

  /** The counts used for placement change as the listed replicas do exactly then. */
  lemma {:induction false} OpenCountsExact(nodes: Nodes, factor: nat, states: States, candidates: seq<nat>,
                                           counts: Counts, plan: Plan, counts': Counts)
    requires OpenPlan(nodes, factor, states, candidates, counts, plan)
    requires OpenCounts(nodes, factor, states, plan, counts, counts')
    ensures Shifted(counts, nodes.replicating, Planned(nodes, plan).replicating, counts')
            <==> OpenFollows(nodes, factor, states, candidates)
  {
    OpenCountsByPlan(nodes, factor, states, candidates, counts, plan, counts');
  }

  /** Two inputs where they do not: a replica trimmed to a factor of one, and a dead replica replaced. */
  lemma {:induction false} CountsLag()
    ensures !OpenFollows(Nodes(1, [2], []), 1, map[1 := Alive, 2 := Alive], [1, 2])
    ensures !OpenFollows(Nodes(1, [2], []), 2, map[1 := Alive, 2 := Dead, 3 := Alive], [1, 3])
  {
    assert 2 in [2];
    assert 2 in Up([2], map[1 := Alive, 2 := Alive]);
    assert Up([2], map[1 := Alive, 2 := Dead, 3 := Alive]) == [];
    assert 3 in Free([1, 3], [1] + []);
  }

  /** The copies of a closed segment, complete ones first. */
  function Copied(nodes: Nodes): seq<nat> {
    nodes.done + nodes.replicating
  }

  lemma {:induction false} ShiftedInto(counts: Counts, counts': Counts, done: seq<nat>, done': seq<nat>,
                                       before: seq<nat>, after: seq<nat>)
    requires Shifted(counts, before, after, counts')
    ensures Shifted(counts, done + before, done' + after, counts') <==> multiset(done) == multiset(done')
  {
    assert multiset(done + before) == multiset(done) + multiset(before);
    assert multiset(done' + after) == multiset(done') + multiset(after);
    if Shifted(counts, done + before, done' + after, counts') {
      forall n: nat ensures multiset(done)[n] == multiset(done')[n] {
        assert Load(counts', n) == Load(counts, n) - multiset(before)[n] + multiset(after)[n];
      }
    }
  }

  lemma {:induction false} ClosedCountsByPlan(nodes: Nodes, factor: nat, states: States, candidates: seq<nat>,
                                             counts: Counts, plan: Plan, counts': Counts)
    requires ClosedPlan(nodes, factor, states, candidates, counts, plan)
    requires ClosedCounts(nodes, factor, states, plan, counts, counts')
    ensures var joined := Joined(nodes, states, plan) != [];
            Shifted(counts, Copied(nodes), Copied(Planned(nodes, plan)), counts')
            <==> || !plan.Update?
                 || (!joined && |plan.nodes.done| < factor && forall n :: n in nodes.done ==> IsUp(states, n))
                 || (joined && forall n :: n in Copied(nodes) ==> IsUp(states, n))
  {
    if plan.Update? && Joined(nodes, states, plan) != [] {
      ClosedJoinFollows(nodes, factor, states, candidates, counts, plan);
    } else if plan.Update? && |plan.nodes.done| < factor {
      ClosedTrimFollows(nodes, factor, states, candidates, counts, plan, counts');
    } else if plan.Update? {
      ClosedTrimLags(nodes, factor, states, candidates, counts, plan);
    }
  }

  /** For a closed segment: nothing is to be done, or incomplete copies are trimmed and every complete copy is
      up, or some join and every listed copy is up. */
  predicate ClosedFollows(nodes: Nodes, factor: nat, states: States, candidates: seq<nat>) {
    var done, kept := Up(nodes.done, states), Up(nodes.replicating, states);
    || factor == 0 || !Known(states, nodes.replicating + nodes.done) || done == []
    || if |done| + |kept| > factor then |done| < factor && forall n :: n in nodes.done ==> IsUp(states, n)
       else
         || |done| + |kept| == factor || Free(candidates, done + kept) == []
         || forall n :: n in Copied(nodes) ==> IsUp(states, n)
  }

  lemma {:induction false} ClosedCountsExact(nodes: Nodes, factor: nat, states: States, candidates: seq<nat>,
                                             counts: Counts, plan: Plan, counts': Counts)
    requires ClosedPlan(nodes, factor, states, candidates, counts, plan)
    requires ClosedCounts(nodes, factor, states, plan, counts, counts')
    ensures Shifted(counts, Copied(nodes), Copied(Planned(nodes, plan)), counts')
            <==> ClosedFollows(nodes, factor, states, candidates)
  {
    ClosedCountsByPlan(nodes, factor, states, candidates, counts, plan, counts');
  }

  lemma {:induction false} ClosedTrimFollows(nodes: Nodes, factor: nat, states: States, candidates: seq<nat>,
                                             counts: Counts, plan: Plan, counts': Counts)
    requires ClosedPlan(nodes, factor, states, candidates, counts, plan) && plan.Update?
    requires Joined(nodes, states, plan) == [] && |plan.nodes.done| < factor
    requires Shifted(counts, nodes.replicating, plan.nodes.replicating, counts')
    ensures Shifted(counts, Copied(nodes), Copied(plan.nodes), counts')
            <==> forall n :: n in nodes.done ==> IsUp(states, n)
  {
    assert plan.nodes.done == Up(nodes.done, states);
    ShiftedInto(counts, counts', nodes.done, plan.nodes.done, nodes.replicating, plan.nodes.replicating);
    UpTally(nodes.done, states);
  }

  lemma {:induction false} ClosedJoinIs(nodes: Nodes, factor: nat, states: States, candidates: seq<nat>,
                                        counts: Counts, plan: Plan, done: seq<nat>, kept: seq<nat>)
    requires ClosedPlan(nodes, factor, states, candidates, counts, plan) && Joined(nodes, states, plan) != []
    requires done == Up(nodes.done, states) && kept == Up(nodes.replicating, states)
    ensures plan == Update(Nodes(0, kept + Joined(nodes, states, plan), done))
  {
  }

  lemma {:induction false} ClosedJoinFollows(nodes: Nodes, factor: nat, states: States, candidates: seq<nat>,
                                             counts: Counts, plan: Plan)
    requires ClosedPlan(nodes, factor, states, candidates, counts, plan) && Joined(nodes, states, plan) != []
    ensures Shifted(counts, Copied(nodes), Copied(plan.nodes), Bumped(counts, Joined(nodes, states, plan)))
            <==> forall n :: n in Copied(nodes) ==> IsUp(states, n)
  {
    var done, kept := Up(nodes.done, states), Up(nodes.replicating, states);
    ClosedJoinIs(nodes, factor, states, candidates, counts, plan, done, kept);
    CopiesFollow(nodes, states, counts, done, kept, Joined(nodes, states, plan));
  }

  lemma {:induction false} CopiesFollow(nodes: Nodes, states: States, counts: Counts, done: seq<nat>, kept: seq<nat>,
                                        added: seq<nat>)
    requires done == Up(nodes.done, states) && kept == Up(nodes.replicating, states)
    ensures Shifted(counts, Copied(nodes), done + (kept + added), Bumped(counts, added))
            <==> forall n :: n in Copied(nodes) ==> IsUp(states, n)
  {
    var copies, up := Copied(nodes), Up(Copied(nodes), states);
    assert up == done + kept by {
      UpConcat(nodes.done, nodes.replicating, states);
    }
    Regroup(done, kept, added);
    CopiesTally(copies, up, states, counts, added);
  }

  lemma {:induction false} CopiesTally(copies: seq<nat>, up: seq<nat>, states: States, counts: Counts, added: seq<nat>)
    requires up == Up(copies, states)
    ensures Shifted(counts, copies, up + added, Bumped(counts, added)) <==> forall n :: n in copies ==> IsUp(states, n)
  {
    BumpFollows(counts, copies, up, added);
    UpTally(copies, states);
  }

  lemma {:induction false} UpPush(ids: seq<nat>, n: nat, states: States)
    ensures Up(ids + [n], states) == Up(ids, states) + if IsUp(states, n) then [n] else []
  {
    assert (ids + [n])[..|ids|] == ids;
  }

  lemma {:induction false} UpConcat(a: seq<nat>, b: seq<nat>, states: States)
    ensures Up(a + b, states) == Up(a, states) + Up(b, states)
    decreases |b|
  {
    if b == [] {
      assert a + b == a;
    } else {
      var front, n := b[..|b| - 1], b[|b| - 1];
      UpConcat(a, front, states);
      assert b == front + [n];
      Regroup(a, front, [n]);
      UpPush(a + front, n, states);
      UpPush(front, n, states);
      Regroup(Up(a, states), Up(front, states), if IsUp(states, n) then [n] else []);
    }
  }

  lemma {:induction false} Regroup(a: seq<nat>, b: seq<nat>, c: seq<nat>)
    ensures a + b + c == a + (b + c)
  {
  }

  lemma {:induction false} ClosedTrimLags(nodes: Nodes, factor: nat, states: States, candidates: seq<nat>,
                                          counts: Counts, plan: Plan)
    requires ClosedPlan(nodes, factor, states, candidates, counts, plan) && plan.Update?
    requires Joined(nodes, states, plan) == [] && |plan.nodes.done| >= factor
    ensures !Shifted(counts, Copied(nodes), Copied(plan.nodes), Bumped(counts, []))
  {
    BumpFollows(counts, Copied(nodes), Copied(plan.nodes), []);
    assert Copied(plan.nodes) + [] == Copied(plan.nodes);
    if multiset(Copied(nodes)) == multiset(Copied(plan.nodes)) {
      assert |multiset(Copied(nodes))| == |Copied(nodes)| && |multiset(Copied(plan.nodes))| == |Copied(plan.nodes)|;
    }
  }
}
