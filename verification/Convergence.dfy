/** One pass of the reconciler is enough: a segment ends with as many copies as its factor and the
    number of alive nodes allow, and the next pass leaves it alone. */
module Convergence {
  import opened Lists
  import opened ClusterState
  import opened Placement
  import opened Reconciler

  /** The candidates are the alive nodes, each once. */
  ghost predicate AllUp(states: States, candidates: seq<nat>) {
    Distinct(candidates) && forall n :: n in candidates <==> IsUp(states, n)
  }

  // ---------------------------------------------------------------- counting distinct nodes

  function Elements(s: seq<nat>): set<nat> { set n | n in s }

  lemma {:induction false} DistinctSize(s: seq<nat>)
    requires Distinct(s)
    ensures |Elements(s)| == |s|
    decreases |s|
  {
    if s != [] {
      var front, last := s[..|s| - 1], s[|s| - 1];
      DistinctSize(front);
      assert s == front + [last];
      assert Elements(s) == Elements(front) + {last};
      assert last !in front;
    }
  }

  lemma {:induction false} FreeSize(candidates: seq<nat>, taken: seq<nat>)
    requires Distinct(candidates) && Distinct(taken) && forall n :: n in taken ==> n in candidates
    ensures |Free(candidates, taken)| == |candidates| - |taken|
  {
    var free := Free(candidates, taken);
    FilterDistinct(candidates, (n: nat) => n !in taken);
    DistinctSize(free);
    DistinctSize(candidates);
    DistinctSize(taken);
    assert Elements(free) == Elements(candidates) - Elements(taken);
    assert Elements(taken) <= Elements(candidates);
  }

  lemma {:induction false} UpDistinct(ids: seq<nat>, states: States)
    requires Distinct(ids)
    ensures Distinct(Up(ids, states))
  {
    FilterDistinct(ids, (n: nat) => IsUp(states, n));
  }

  /** Distinct lists without a common element make a distinct list. */
  lemma {:induction false} DistinctJoin(a: seq<nat>, b: seq<nat>)
    requires Distinct(a) && Distinct(b) && forall n :: n in a ==> n !in b
    ensures Distinct(a + b)
  {
    forall i, j | 0 <= i < j < |a + b| ensures (a + b)[i] != (a + b)[j] {
      if i < |a| <= j {
        assert a[i] in a && b[j - |a|] in b;
      }
    }
  }

  // ---------------------------------------------------------------- filling up

  /** With `taken` distinct alive nodes, joining `added` gives `target` nodes or all alive ones. */
  lemma {:induction false} JoinReaches(states: States, candidates: seq<nat>, taken: seq<nat>, counts: Counts,
                                       target: nat, added: seq<nat>)
    requires AllUp(states, candidates) && Distinct(taken) && forall n :: n in taken ==> IsUp(states, n)
    requires |taken| <= target && Joining(candidates, taken, counts, target - |taken|, added)
    ensures Distinct(taken + added) && (forall n :: n in taken + added ==> IsUp(states, n))
    ensures |taken + added| == Min(target, |candidates|)
  {
    FreeSize(candidates, taken);
    DistinctJoin(taken, added);
  }

  lemma {:induction false} AtMostAll(states: States, candidates: seq<nat>, taken: seq<nat>)
    requires AllUp(states, candidates) && Distinct(taken) && forall n :: n in taken ==> IsUp(states, n)
    ensures |taken| <= |candidates|
  {
    FreeSize(candidates, taken);
  }

  // ---------------------------------------------------------------- open segments

  /** The nodes that hold an open segment and are up, the primary being one of them. */
  function OpenCopies(nodes: Nodes, states: States): seq<nat> {
    [nodes.primary] + Up(nodes.replicating, states)
  }

  ghost predicate OpenSound(nodes: Nodes, states: States) {
    && Distinct([nodes.primary] + nodes.replicating) && nodes.done == []
    && Known(states, nodes.replicating)
  }

  lemma {:induction false} OpenCopiesDistinct(nodes: Nodes, states: States)
    requires OpenSound(nodes, states) && IsUp(states, nodes.primary)
    ensures Distinct(OpenCopies(nodes, states)) && forall n :: n in OpenCopies(nodes, states) ==> IsUp(states, n)
  {
    var all := [nodes.primary] + nodes.replicating;
    assert all[1..] == nodes.replicating;
    assert forall i :: 0 <= i < |nodes.replicating| ==> all[i + 1] == nodes.replicating[i] && all[0] != all[i + 1];
    assert nodes.primary !in nodes.replicating;
    UpDistinct(nodes.replicating, states);
    DistinctJoin([nodes.primary], Up(nodes.replicating, states));
  }

  lemma {:induction false} OpenConverges(nodes: Nodes, factor: nat, states: States, candidates: seq<nat>,
                                         counts: Counts, plan: Plan)
    requires AllUp(states, candidates) && factor >= 1
    requires OpenSound(nodes, states) && IsUp(states, nodes.primary)
    requires OpenPlan(nodes, factor, states, candidates, counts, plan)
    ensures var nodes' := Planned(nodes, plan);
            && nodes'.primary == nodes.primary && OpenSound(nodes', states)
            && |OpenCopies(nodes', states)| == Min(factor, |candidates|)
  {
    OpenCopiesDistinct(nodes, states);
    var kept := Up(nodes.replicating, states);
    if 1 + |kept| > factor {
      TrimmedOpenConverges(plan.nodes, factor, states, candidates, kept);
    } else {
      JoinedOpenConverges(nodes, factor, states, candidates, counts, plan, kept, Joined(nodes, states, plan));
    }
  }

  lemma {:induction false} TrimmedOpenConverges(nodes: Nodes, factor: nat, states: States, candidates: seq<nat>,
                                                kept: seq<nat>)
    requires AllUp(states, candidates) && 1 <= factor < 1 + |kept|
    requires Distinct([nodes.primary] + kept) && forall n :: n in [nodes.primary] + kept ==> IsUp(states, n)
    requires nodes == Nodes(nodes.primary, Firsts(kept, factor - 1), [])
    ensures OpenSound(nodes, states) && |OpenCopies(nodes, states)| == Min(factor, |candidates|)
  {
    AtMostAll(states, candidates, [nodes.primary] + kept);
    assert [nodes.primary] + nodes.replicating == ([nodes.primary] + kept)[..factor];
    UpOfUp(nodes.replicating, states);
  }

  lemma {:induction false} JoinedOpenConverges(nodes: Nodes, factor: nat, states: States, candidates: seq<nat>,
                                               counts: Counts, plan: Plan, kept: seq<nat>, added: seq<nat>)
    requires AllUp(states, candidates) && factor >= 1 + |kept| && OpenSound(nodes, states)
    requires Distinct([nodes.primary] + kept) && forall n :: n in [nodes.primary] + kept ==> IsUp(states, n)
    requires kept == Up(nodes.replicating, states)
    requires Joining(candidates, [nodes.primary] + kept, counts, factor - 1 - |kept|, added)
    requires plan == if added == [] then Keep else Update(Nodes(nodes.primary, kept + added, []))
    ensures var nodes' := Planned(nodes, plan);
            && nodes'.primary == nodes.primary && OpenSound(nodes', states)
            && |OpenCopies(nodes', states)| == Min(factor, |candidates|)
  {
    var held := [nodes.primary] + kept;
    JoinReaches(states, candidates, held, counts, factor, added);
    if added != [] {
      assert [nodes.primary] + (kept + added) == held + added;
      UpOfUp(kept + added, states);
    } else {
      assert held + added == held;
    }
  }

  /** A segment that has what it can have is left alone, whatever the counts are. */
  lemma {:induction false} OpenSettled(nodes: Nodes, factor: nat, states: States, candidates: seq<nat>,
                                       counts: Counts, plan: Plan)
    requires AllUp(states, candidates) && factor >= 1
    requires OpenSound(nodes, states) && IsUp(states, nodes.primary)
    requires |OpenCopies(nodes, states)| == Min(factor, |candidates|)
    requires OpenPlan(nodes, factor, states, candidates, counts, plan)
    ensures plan == Keep
  {
    OpenCopiesDistinct(nodes, states);
    FreeSize(candidates, OpenCopies(nodes, states));
  }

  // ---------------------------------------------------------------- closed segments

  function ClosedCopies(nodes: Nodes, states: States): seq<nat> {
    Up(nodes.done, states) + Up(nodes.replicating, states)
  }

  ghost predicate ClosedSound(nodes: Nodes, states: States) {
    && Distinct(nodes.done + nodes.replicating) && nodes.primary == 0
    && Known(states, nodes.replicating + nodes.done)
  }

  lemma {:induction false} DistinctParts(a: seq<nat>, b: seq<nat>)
    requires Distinct(a + b)
    ensures Distinct(a) && Distinct(b) && forall n :: n in a ==> n !in b
  {
    forall i, j | 0 <= i < |a| && 0 <= j < |b| ensures a[i] != b[j] {
      assert (a + b)[i] == a[i] && (a + b)[|a| + j] == b[j];
    }
    forall i, j | 0 <= i < j < |a| ensures a[i] != a[j] {
      assert (a + b)[i] == a[i] && (a + b)[j] == a[j];
    }
    forall i, j | 0 <= i < j < |b| ensures b[i] != b[j] {
      assert (a + b)[|a| + i] == b[i] && (a + b)[|a| + j] == b[j];
    }
  }

  lemma {:induction false} ClosedCopiesDistinct(nodes: Nodes, states: States)
    requires ClosedSound(nodes, states)
    ensures Distinct(ClosedCopies(nodes, states)) && forall n :: n in ClosedCopies(nodes, states) ==> IsUp(states, n)
  {
    DistinctParts(nodes.done, nodes.replicating);
    UpDistinct(nodes.done, states);
    UpDistinct(nodes.replicating, states);
    DistinctJoin(Up(nodes.done, states), Up(nodes.replicating, states));
  }

  /** Done copies that are all up, followed by others that are all up. */
  lemma {:induction false} AllCopiesUp(nodes: Nodes, states: States)
    requires Distinct(nodes.done + nodes.replicating) && nodes.primary == 0
    requires forall n :: n in nodes.done + nodes.replicating ==> IsUp(states, n)
    ensures ClosedSound(nodes, states) && ClosedCopies(nodes, states) == nodes.done + nodes.replicating
    ensures Up(nodes.done, states) == nodes.done
  {
    UpOfUp(nodes.done, states);
    UpOfUp(nodes.replicating, states);
  }

  lemma {:induction false} ClosedConverges(nodes: Nodes, factor: nat, states: States, candidates: seq<nat>,
                                           counts: Counts, plan: Plan)
    requires AllUp(states, candidates) && factor >= 1
    requires ClosedSound(nodes, states) && Up(nodes.done, states) != []
    requires ClosedPlan(nodes, factor, states, candidates, counts, plan)
    ensures var nodes' := Planned(nodes, plan);
            && ClosedSound(nodes', states) && Up(nodes'.done, states) != []
            && |ClosedCopies(nodes', states)| == Min(factor, |candidates|)
  {
    ClosedCopiesDistinct(nodes, states);
    var done, kept := Up(nodes.done, states), Up(nodes.replicating, states);
    if |done| + |kept| > factor {
      TrimmedConverges(plan.nodes, factor, states, candidates, done, kept);
    } else {
      JoinedConverges(nodes, factor, states, candidates, counts, plan, done, kept, Joined(nodes, states, plan));
    }
  }

  lemma {:induction false} TrimmedConverges(nodes: Nodes, factor: nat, states: States, candidates: seq<nat>,
                                            done: seq<nat>, kept: seq<nat>)
    requires AllUp(states, candidates) && 1 <= factor < |done| + |kept| && done != []
    requires Distinct(done + kept) && forall n :: n in done + kept ==> IsUp(states, n)
    requires nodes == Nodes(0, Firsts(kept, factor - |Firsts(done, factor)|), Firsts(done, factor))
    ensures ClosedSound(nodes, states) && Up(nodes.done, states) != []
    ensures |ClosedCopies(nodes, states)| == Min(factor, |candidates|)
  {
    AtMostAll(states, candidates, done + kept);
    assert nodes.done + nodes.replicating == (done + kept)[..factor];
    AllCopiesUp(nodes, states);
  }

  lemma {:induction false} JoinedConverges(nodes: Nodes, factor: nat, states: States, candidates: seq<nat>,
                                           counts: Counts, plan: Plan, done: seq<nat>, kept: seq<nat>, added: seq<nat>)
    requires AllUp(states, candidates) && factor >= |done| + |kept| && done != []
    requires Distinct(done + kept) && forall n :: n in done + kept ==> IsUp(states, n)
    requires ClosedSound(nodes, states) && done == Up(nodes.done, states) && kept == Up(nodes.replicating, states)
    requires Joining(candidates, done + kept, counts, factor - |done| - |kept|, added)
    requires plan == if added == [] then Keep else Update(Nodes(0, kept + added, done))
    ensures var nodes' := Planned(nodes, plan);
            && ClosedSound(nodes', states) && Up(nodes'.done, states) != []
            && |ClosedCopies(nodes', states)| == Min(factor, |candidates|)
  {
    JoinReaches(states, candidates, done + kept, counts, factor, added);
    if added != [] {
      assert done + (kept + added) == done + kept + added;
      AllCopiesUp(plan.nodes, states);
    } else {
      assert done + kept + added == done + kept;
    }
  }

  lemma {:induction false} ClosedSettled(nodes: Nodes, factor: nat, states: States, candidates: seq<nat>,
                                         counts: Counts, plan: Plan)
    requires AllUp(states, candidates) && factor >= 1
    requires ClosedSound(nodes, states) && Up(nodes.done, states) != []
    requires |ClosedCopies(nodes, states)| == Min(factor, |candidates|)
    requires ClosedPlan(nodes, factor, states, candidates, counts, plan)
    ensures plan == Keep
  {
    ClosedCopiesDistinct(nodes, states);
    FreeSize(candidates, ClosedCopies(nodes, states));
  }
}
