/** How many segments each node hosts, and the greedy choice of nodes for new copies. */
module Placement {
  import opened Lists
  import opened ClusterState

  /** A node without an entry counts as hosting nothing. */
  type Counts = map<nat, int>

  function Load(counts: Counts, n: nat): int {
    if n in counts then counts[n] else 0
  }

  function Add(counts: Counts, n: nat, by1: int): Counts {
    counts[n := Load(counts, n) + by1]
  }

  predicate Distinct(s: seq<nat>) {
    forall i, j :: 0 <= i < j < |s| ==> s[i] != s[j]
  }

  // ---------------------------------------------------------------- counting

  /** How often a segment names a node; node 0 as primary stands for none. */
  function Copies(g: Segment, n: nat): nat {
    (if g.nodes.primary == n && n > 0 then 1 else 0) + multiset(g.nodes.replicating)[n] + multiset(g.nodes.done)[n]
  }

  function Hosted(segments: seq<Segment>, n: nat): nat {
    if segments == [] then 0
    else Hosted(segments[..|segments| - 1], n) + Copies(segments[|segments| - 1], n)
  }

  method AddEach(counts: Counts, ids: seq<nat>) returns (r: Counts)
    ensures forall n: nat :: Load(r, n) == Load(counts, n) + multiset(ids)[n]
  {
    r := counts;
    for i := 0 to |ids|
      invariant forall n: nat :: Load(r, n) == Load(counts, n) + multiset(ids[..i])[n]
    {
      assert ids[..i + 1] == ids[..i] + [ids[i]];
      r := Add(r, ids[i], 1);
    }
    assert ids[..|ids|] == ids;
  }

  method CountIn(counts: Counts, segments: seq<Segment>) returns (r: Counts)
    ensures forall n: nat :: Load(r, n) == Load(counts, n) + Hosted(segments, n)
  {
    r := counts;
    for i := 0 to |segments|
      invariant forall n: nat :: Load(r, n) == Load(counts, n) + Hosted(segments[..i], n)
    {
      assert segments[..i + 1][..i] == segments[..i];
      var nodes := segments[i].nodes;
      if nodes.primary > 0 {
        r := Add(r, nodes.primary, 1);
      }
      r := AddEach(r, nodes.replicating);
      r := AddEach(r, nodes.done);
    }
    assert segments[..|segments|] == segments;
  }

  method CountSegmentsPerNode(s: State) returns (counts: Counts)
    ensures forall n: nat :: Load(counts, n) == Hosted(s.open, n) + Hosted(s.closed, n)
  {
    counts := CountIn(map[], s.open);
    counts := CountIn(counts, s.closed);
  }

  // ---------------------------------------------------------------- choosing

  /** Of the candidates with the lowest load, `at` is the first. */
  predicate FirstLeast(candidates: seq<nat>, counts: Counts, at: nat) {
    && at < |candidates|
    && (forall j :: 0 <= j < |candidates| ==> Load(counts, candidates[at]) <= Load(counts, candidates[j]))
    && (forall j :: 0 <= j < at ==> Load(counts, candidates[at]) < Load(counts, candidates[j]))
  }

  method PickLeast(candidates: seq<nat>, counts: Counts) returns (at: nat)
    requires candidates != []
    ensures FirstLeast(candidates, counts, at)
  {
    var index := -1;
    for i := 0 to |candidates|
      invariant i == 0 ==> index == -1
      invariant i > 0 ==> 0 <= index < i && FirstLeast(candidates[..i], counts, index)
    {
      if index == -1 || Load(counts, candidates[i]) < Load(counts, candidates[index]) {
        index := i;
      }
    }
    assert candidates[..|candidates|] == candidates;
    at := index;
  }

  function Bumped(counts: Counts, added: seq<nat>): Counts {
    if added == [] then counts
    else Add(Bumped(counts, added[..|added| - 1]), added[|added| - 1], 1)
  }

  /** `added` are distinct candidates in order of load, and no candidate left over has a lower load. */
  ghost predicate LeastLoaded(candidates: seq<nat>, counts: Counts, added: seq<nat>) {
    && Distinct(added)
    && (forall n :: n in added ==> n in candidates)
    && (forall i, j :: 0 <= i < j < |added| ==> Load(counts, added[i]) <= Load(counts, added[j]))
    && (forall n, m :: n in added && m in candidates && m !in added ==> Load(counts, n) <= Load(counts, m))
  }

  function Min(a: int, b: int): int { if a <= b then a else b }

  /** Half way: `all` are the candidates, each once, of which the first `n` have been chosen. */
  ghost predicate Filling(candidates: seq<nat>, counts: Counts, all: seq<nat>, n: nat) {
    && Distinct(all) && |all| == |candidates|
    && (forall c :: c in candidates <==> c in all)
    && (forall i, j :: 0 <= i < j < |all| && i < n ==> Load(counts, all[i]) <= Load(counts, all[j]))
  }

  lemma {:induction false} BumpedElsewhere(counts: Counts, added: seq<nat>, n: nat)
    requires n !in added
    ensures Load(Bumped(counts, added), n) == Load(counts, n)
    decreases |added|
  {
    if added != [] {
      BumpedElsewhere(counts, added[..|added| - 1], n);
    }
  }

  /** Where the element at `i` was before the one at `from` was moved to `to`. */
  function Before(i: nat, to: nat, from: nat): nat {
    if i < to || i > from then i else if i == to then from else i - 1
  }

  lemma {:induction false} FillStep(candidates: seq<nat>, counts: Counts, added: seq<nat>, rest: seq<nat>, at: nat)
    requires Filling(candidates, counts, added + rest, |added|) && FirstLeast(rest, Bumped(counts, added), at)
    ensures Filling(candidates, counts, added + [rest[at]] + Without(rest, at), |added| + 1)
  {
    var all, all' := added + rest, added + [rest[at]] + Without(rest, at);
    var to := |added|;
    assert forall i :: 0 <= i < |all'| ==> all'[i] == all[Before(i, to, to + at)];
    assert forall c :: c in all' <==> c in all by {
      WithoutElements(rest, at);
    }
    forall j | to < j < |all'| ensures Load(counts, all'[to]) <= Load(counts, all'[j]) {
      var k := Before(j, to, to + at);
      assert all[k] == rest[k - to];
      NotAdded(added, rest, at);
      NotAdded(added, rest, k - to);
      BumpedElsewhere(counts, added, rest[at]);
      BumpedElsewhere(counts, added, rest[k - to]);
    }
  }

  lemma {:induction false} NotAdded(added: seq<nat>, rest: seq<nat>, k: nat)
    requires Distinct(added + rest) && k < |rest|
    ensures rest[k] !in added
  {
    assert (added + rest)[|added| + k] == rest[k];
    assert forall i :: 0 <= i < |added| ==> (added + rest)[i] == added[i];
  }

  lemma {:induction false} FillEnds(candidates: seq<nat>, counts: Counts, added: seq<nat>, rest: seq<nat>)
    requires Filling(candidates, counts, added + rest, |added|)
    ensures LeastLoaded(candidates, counts, added)
  {
    var all := added + rest;
    assert forall i :: 0 <= i < |added| ==> all[i] == added[i];
    forall n, m | n in added && m in candidates && m !in added ensures Load(counts, n) <= Load(counts, m) {
      var i :| 0 <= i < |added| && added[i] == n;
      var j :| 0 <= j < |rest| && rest[j] == m;
      assert all[i] == n && all[|added| + j] == m;
    }
  }

  lemma {:induction false} BumpedNext(counts: Counts, added: seq<nat>, n: nat)
    ensures Bumped(counts, added + [n]) == Add(Bumped(counts, added), n, 1)
  {
    assert (added + [n])[..|added|] == added;
  }

  /** Adds least-loaded candidates until there are `target` nodes or no candidate is left. */
  method FillUp(kept: seq<nat>, candidates: seq<nat>, counts: Counts, target: nat)
    returns (chosen: seq<nat>, bumped: Counts, ghost added: seq<nat>)
    requires Distinct(candidates)
    ensures chosen == kept + added && bumped == Bumped(counts, added)
    ensures LeastLoaded(candidates, counts, added)
    ensures |added| == if |kept| >= target then 0 else Min(target - |kept|, |candidates|)
  {
    chosen, bumped, added := kept, counts, [];
    var rest := candidates;
    assert [] + candidates == candidates;
    while rest != [] && |chosen| < target
      invariant chosen == kept + added && bumped == Bumped(counts, added)
      invariant added == [] || |chosen| <= target
      invariant |added| + |rest| == |candidates| && Filling(candidates, counts, added + rest, |added|)
      decreases |rest|
    {
      var at := PickLeast(rest, bumped);
      FillStep(candidates, counts, added, rest, at);
      BumpedNext(counts, added, rest[at]);
      bumped := Add(bumped, rest[at], 1);
      chosen := chosen + [rest[at]];
      added := added + [rest[at]];
      rest := Without(rest, at);
    }
    FillEnds(candidates, counts, added, rest);
  }
}
