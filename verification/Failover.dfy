/** Losing the primary of an open segment: which replica takes over, and what survives. */
module Failover {
  import opened Wrappers
  import opened Framing

  type Node = nat

  /** A node's copy of the segment. */
  datatype Copy = NoFile | Has(log: seq<Message>)

  datatype Segment = Segment(primary: Node, replicating: seq<Node>, alive: set<Node>, copies: map<Node, Copy>)

  function CopyOf(s: Segment, n: Node): Copy {
    if n in s.copies then s.copies[n] else NoFile
  }

  function LogOf(s: Segment, n: Node): seq<Message> {
    if CopyOf(s, n).Has? then CopyOf(s, n).log else []
  }

  /** The size a node reports for its copy; -1 when it has no file. */
  function SizeOf(s: Segment, n: Node): int {
    if CopyOf(s, n).Has? then |Disk(LogOf(s, n))| else -1
  }

  function Sizes(s: Segment): map<Node, int> {
    map n | n in s.copies :: SizeOf(s, n)
  }

  function Reported(sizes: map<Node, int>, n: Node): int {
    if n in sizes then sizes[n] else -1
  }

  // ---------------------------------------------------------------- choosing the new primary

  /** The command that replaces the nodes of the segment. */
  datatype NodesUpdate = NodesUpdate(primary: Node, replicating: seq<Node>)

  function Others(replicating: seq<Node>, alive: set<Node>, chosen: Node): seq<Node> {
    if replicating == [] then []
    else
      var front, n := replicating[..|replicating| - 1], replicating[|replicating| - 1];
      Others(front, alive, chosen) + if n != chosen && n in alive then [n] else []
  }

  /** `chosen` is the first alive replica whose file is as large as any alive replica's. */
  ghost predicate FirstLargest(replicating: seq<Node>, alive: set<Node>, sizes: map<Node, int>, at: nat) {
    && at < |replicating| && replicating[at] in alive && Reported(sizes, replicating[at]) >= 0
    && (forall j :: 0 <= j < |replicating| && replicating[j] in alive ==>
          Reported(sizes, replicating[j]) <= Reported(sizes, replicating[at]))
    && (forall j :: 0 <= j < at && replicating[j] in alive ==>
          Reported(sizes, replicating[j]) < Reported(sizes, replicating[at]))
  }

  /** Promotes the alive replica with the largest file. A size that cannot be fetched gives up, and so does
      a choice of node 0, which stands for no node. */
  method PromoteReplica(replicating: seq<Node>, alive: set<Node>, unreachable: set<Node>, sizes: map<Node, int>)
    returns (cmd: Option<NodesUpdate>, ghost at: nat)
    ensures cmd.Some? ==>
      && FirstLargest(replicating, alive, sizes, at) && replicating[at] != 0
      && cmd.value == NodesUpdate(replicating[at], Others(replicating, alive, replicating[at]))
    ensures cmd.None? <==>
      || (exists n :: n in replicating && n in alive && n in unreachable)
      || (forall n :: n in replicating && n in alive ==> Reported(sizes, n) < 0)
      || (exists k: nat :: FirstLargest(replicating, alive, sizes, k) && replicating[k] == 0)
  {
    at := 0;
    if |replicating| == 0 {
      return None, at;
    }
    var newPrimary: Node, newSize := 0, -1;
    for i := 0 to |replicating|
      invariant newSize >= -1 && (newSize == -1 ==> newPrimary == 0)
      invariant newSize >= 0 ==>
        at < i && replicating[at] == newPrimary && newPrimary in alive && Reported(sizes, newPrimary) == newSize
      invariant forall j :: 0 <= j < i && replicating[j] in alive ==>
        Reported(sizes, replicating[j]) <= newSize && replicating[j] !in unreachable
      invariant newSize >= 0 ==>
        forall j :: 0 <= j < at && replicating[j] in alive ==> Reported(sizes, replicating[j]) < newSize
    {
      var n := replicating[i];
      if n in alive {
        if n in unreachable {
          return None, at;
        }
        if Reported(sizes, n) > newSize {
          newPrimary, newSize, at := n, Reported(sizes, n), i;
        }
      }
    }
    assert newSize >= 0 ==> FirstLargest(replicating, alive, sizes, at);
    if newPrimary == 0 {
      return None, at;
    }
    var rest: seq<Node> := [];
    for i := 0 to |replicating|
      invariant rest == Others(replicating[..i], alive, newPrimary)
    {
      assert replicating[..i + 1][..i] == replicating[..i];
      if replicating[i] != newPrimary && replicating[i] in alive {
        rest := rest + [replicating[i]];
      }
    }
    assert replicating[..|replicating|] == replicating;
    cmd := Some(NodesUpdate(newPrimary, rest));
  }

  // ---------------------------------------------------------------- the protocol

  /** Nodes stop for good when they crash. A newly assigned replica may still have a file of its own. */
  datatype Step =
    | PrimaryWrites(m: Message)
    | ReplicaAligns(n: Node)
    | ReplicaReceives(n: Node)
    | Crashes(n: Node)
    | Assigned(n: Node)
    | Dropped(n: Node)
    | Collected(n: Node)
    | Promoted(at: nat)

  predicate IsReplica(s: Segment, n: Node) {
    n in s.replicating && n in s.alive
  }

  ghost predicate Enabled(s: Segment, step: Step) {
    match step
    case PrimaryWrites(_) => s.primary in s.alive
    case ReplicaAligns(n) => IsReplica(s, n) && s.primary in s.alive
    case ReplicaReceives(n) =>
      IsReplica(s, n) && s.primary in s.alive && CopyOf(s, n).Has? && |LogOf(s, n)| < |LogOf(s, s.primary)|
    case Crashes(n) => n in s.alive
    case Assigned(n) =>
      s.primary in s.alive && n in s.alive && n != s.primary && n !in s.replicating
    case Dropped(n) => s.primary in s.alive
    case Collected(n) => n != s.primary && n !in s.replicating
    case Promoted(at) => s.primary !in s.alive && FirstLargest(s.replicating, s.alive, Sizes(s), at)
  }

  function Remove(ns: seq<Node>, n: Node): seq<Node> {
    if ns == [] then [] else (if ns[0] == n then [] else [ns[0]]) + Remove(ns[1..], n)
  }

  ghost function After(s: Segment, step: Step): Segment
    requires Enabled(s, step)
  {
    match step
    case PrimaryWrites(m) => s.(copies := s.copies[s.primary := Has(LogOf(s, s.primary) + [m])])
    case ReplicaAligns(n) =>
      var kept := if LogOf(s, n) <= LogOf(s, s.primary) then LogOf(s, n) else [];
      s.(copies := s.copies[n := Has(kept)])
    case ReplicaReceives(n) =>
      var l := LogOf(s, n);
      s.(copies := s.copies[n := Has(l + [LogOf(s, s.primary)[|l|]])])
    case Crashes(n) => s.(alive := s.alive - {n})
    case Assigned(n) => s.(replicating := s.replicating + [n])
    case Dropped(n) => s.(replicating := Remove(s.replicating, n))
    case Collected(n) => s.(copies := s.copies[n := NoFile])
    case Promoted(at) =>
      var chosen := s.replicating[at];
      s.(primary := chosen, replicating := Others(s.replicating, s.alive, chosen))
  }

  lemma {:induction false} OthersHas(replicating: seq<Node>, alive: set<Node>, chosen: Node, n: Node)
    ensures n in Others(replicating, alive, chosen) <==> n in replicating && n in alive && n != chosen
    decreases |replicating|
  {
    if replicating != [] {
      var front, last := replicating[..|replicating| - 1], replicating[|replicating| - 1];
      OthersHas(front, alive, chosen, n);
      assert replicating == front + [last];
    }
  }

  lemma {:induction false} RemoveHas(ns: seq<Node>, gone: Node, n: Node)
    ensures n in Remove(ns, gone) <==> n in ns && n != gone
  {
    if ns != [] {
      RemoveHas(ns[1..], gone, n);
      assert ns == [ns[0]] + ns[1..];
    }
  }

  /** Which nodes a step leaves with the segment, and which logs. */
  lemma {:induction false} StepEffects(s: Segment, step: Step, n: Node)
    requires Enabled(s, step)
    ensures var s' := After(s, step);
            && s'.alive == (if step.Crashes? then s.alive - {step.n} else s.alive)
            && s'.primary == (if step.Promoted? then s.replicating[step.at] else s.primary)
            && (n in s'.replicating <==>
                  || (step.Assigned? && n == step.n)
                  || (n in s.replicating && !(step.Dropped? && n == step.n)
                      && (step.Promoted? ==> n in s.alive && n != s'.primary)))
            && (step.PrimaryWrites? && n == s.primary ==> LogOf(s', n) == LogOf(s, n) + [step.m])
            && (step.Collected? && n == step.n ==> CopyOf(s', n) == NoFile)
            && (step.Crashes? || step.Assigned? || step.Dropped? || step.Promoted? ==> CopyOf(s', n) == CopyOf(s, n))
            && (step.PrimaryWrites? && n != s.primary ==> CopyOf(s', n) == CopyOf(s, n))
            && ((step.ReplicaAligns? || step.ReplicaReceives? || step.Collected?) && n != step.n ==>
                  CopyOf(s', n) == CopyOf(s, n))
  {
    if step.Promoted? {
      OthersHas(s.replicating, s.alive, s.replicating[step.at], n);
    } else if step.Dropped? {
      RemoveHas(s.replicating, step.n, n);
    }
  }

  ghost predicate Safe(s: Segment) {
    && s.primary !in s.replicating
    && (forall n :: IsReplica(s, n) ==> LogOf(s, n) <= LogOf(s, s.primary))
  }

  /** A node that is assigned has nothing the primary does not have; having no file is enough. */
  predicate Clean(s: Segment, step: Step) {
    step.Assigned? ==> LogOf(s, step.n) <= LogOf(s, s.primary)
  }

  /** Logs that are prefixes of one log are ordered by their file sizes. */
  lemma {:induction false} ShorterIsPrefix(a: seq<Message>, b: seq<Message>, whole: seq<Message>)
    requires a <= whole && b <= whole && |Disk(a)| <= |Disk(b)|
    ensures a <= b
  {
    assert whole[..|a|] == a && whole[..|b|] == b;
    if |a| > |b| {
      PositionsIncrease(whole, |b|, |a|);
    }
  }

  lemma {:induction false} OthersMember(ns: seq<Node>, alive: set<Node>, chosen: Node, n: Node)
    ensures n in Others(ns, alive, chosen) <==> n in ns && n in alive && n != chosen
    decreases |ns|
  {
    if ns != [] {
      OthersMember(ns[..|ns| - 1], alive, chosen, n);
      assert ns == ns[..|ns| - 1] + [ns[|ns| - 1]];
    }
  }

  lemma {:induction false} RemoveMember(ns: seq<Node>, x: Node, n: Node)
    ensures n in Remove(ns, x) <==> n in ns && n != x
  {
    if ns != [] {
      RemoveMember(ns[1..], x, n);
    }
  }

  /** The promoted replica holds everything any alive replica held, and nothing the old primary did
      not hold. */
  lemma {:induction false} PromotionKeepsReplicas(s: Segment, at: nat, n: Node)
    requires Safe(s) && Enabled(s, Promoted(at)) && IsReplica(s, n)
    ensures LogOf(s, n) <= LogOf(s, s.replicating[at]) <= LogOf(s, s.primary)
  {
    var j :| 0 <= j < |s.replicating| && s.replicating[j] == n;
    var chosen := s.replicating[at];
    assert IsReplica(s, chosen);
    assert Reported(Sizes(s), s.replicating[j]) <= Reported(Sizes(s), chosen);
    if CopyOf(s, n).Has? {
      ShorterIsPrefix(LogOf(s, n), LogOf(s, chosen), LogOf(s, s.primary));
    }
  }

  /** The promoted replica has everything any alive replica has exactly when the alive replicas' logs can
      be compared pairwise, whether or not the old primary's log bounds them. */
  lemma {:induction false} PromotionExact(s: Segment, at: nat)
    requires Enabled(s, Promoted(at))
    ensures (forall n :: IsReplica(s, n) ==> LogOf(s, n) <= LogOf(s, s.replicating[at]))
            <==> forall n, m :: IsReplica(s, n) && IsReplica(s, m) ==>
                   LogOf(s, n) <= LogOf(s, m) || LogOf(s, m) <= LogOf(s, n)
  {
    var chosen := s.replicating[at];
    assert IsReplica(s, chosen);
    if forall n, m :: IsReplica(s, n) && IsReplica(s, m) ==>
         LogOf(s, n) <= LogOf(s, m) || LogOf(s, m) <= LogOf(s, n) {
      forall n | IsReplica(s, n) ensures LogOf(s, n) <= LogOf(s, chosen) {
        LargestIsLongest(s, at, n);
      }
    }
  }

  lemma {:induction false} LargestIsLongest(s: Segment, at: nat, n: Node)
    requires Enabled(s, Promoted(at)) && IsReplica(s, n)
    requires LogOf(s, n) <= LogOf(s, s.replicating[at]) || LogOf(s, s.replicating[at]) <= LogOf(s, n)
    ensures LogOf(s, n) <= LogOf(s, s.replicating[at])
  {
    var j :| 0 <= j < |s.replicating| && s.replicating[j] == n;
    var chosen := s.replicating[at];
    assert Reported(Sizes(s), s.replicating[j]) <= Reported(Sizes(s), chosen);
    if CopyOf(s, n).Has? && LogOf(s, chosen) <= LogOf(s, n) {
      ShorterIsPrefix(LogOf(s, n), LogOf(s, chosen), LogOf(s, n));
    }
  }

  /** A step keeps every alive replica a prefix of the primary exactly when it is clean: for everything
      but an assignment that is always. */
  lemma {:induction false} StepKeepsSafe(s: Segment, step: Step)
    requires Safe(s) && Enabled(s, step)
    ensures Safe(After(s, step)) <==> Clean(s, step)
  {
    if Clean(s, step) {
      CleanStepKeepsSafe(s, step);
    } else {
      assert IsReplica(After(s, step), step.n);
    }
  }

  lemma {:induction false} CleanStepKeepsSafe(s: Segment, step: Step)
    requires Safe(s) && Enabled(s, step) && Clean(s, step)
    ensures Safe(After(s, step))
  {
    var s' := After(s, step);
    forall n | IsReplica(s', n) ensures LogOf(s', n) <= LogOf(s', s'.primary) {
      match step {
        case Promoted(at) =>
          OthersMember(s.replicating, s.alive, s'.primary, n);
          PromotionKeepsReplicas(s, at, n);
        case Dropped(x) =>
          RemoveMember(s.replicating, x, n);
          assert IsReplica(s, n);
        case Assigned(x) =>
          assert n == x || IsReplica(s, n);
        case _ =>
          assert IsReplica(s, n);
      }
    }
    match step {
      case Promoted(at) => OthersMember(s.replicating, s.alive, s'.primary, s'.primary);
      case Dropped(x) => RemoveMember(s.replicating, x, s.primary);
      case _ =>
    }
  }

  // ---------------------------------------------------------------- whole runs

  ghost predicate IsRun(s: Segment, steps: seq<Step>)
    decreases |steps|
  {
    steps == [] || (Enabled(s, steps[0]) && IsRun(After(s, steps[0]), steps[1..]))
  }

  ghost function AfterRun(s: Segment, steps: seq<Step>): Segment
    requires IsRun(s, steps)
    decreases |steps|
  {
    if steps == [] then s else AfterRun(After(s, steps[0]), steps[1..])
  }

  /** Every assignment of the run is clean. */
  ghost predicate CleanRun(s: Segment, steps: seq<Step>)
    requires IsRun(s, steps)
    decreases |steps|
  {
    steps == [] || (Clean(s, steps[0]) && CleanRun(After(s, steps[0]), steps[1..]))
  }

  /** In every clean run, every alive replica's log stays a prefix of the current primary's. */
  lemma {:induction false} RunKeepsSafe(s: Segment, steps: seq<Step>)
    requires Safe(s) && IsRun(s, steps) && CleanRun(s, steps)
    ensures Safe(AfterRun(s, steps))
    decreases |steps|
  {
    if steps != [] {
      StepKeepsSafe(s, steps[0]);
      RunKeepsSafe(After(s, steps[0]), steps[1..]);
    }
  }

  /** Some alive node of the segment has these records. */
  ghost predicate Held(s: Segment, l: seq<Message>) {
    exists n :: (n == s.primary || n in s.replicating) && n in s.alive && l <= LogOf(s, n)
  }

  ghost predicate HeldThroughout(s: Segment, steps: seq<Step>, l: seq<Message>)
    requires IsRun(s, steps)
    decreases |steps|
  {
    Held(s, l) && (steps == [] || HeldThroughout(After(s, steps[0]), steps[1..], l))
  }

  lemma {:induction false} StepKeepsHeld(s: Segment, step: Step, l: seq<Message>)
    requires Safe(s) && Enabled(s, step) && Held(s, l) && l <= LogOf(s, s.primary)
    ensures l <= LogOf(After(s, step), After(s, step).primary)
  {
    if step.Promoted? {
      var n :| (n == s.primary || n in s.replicating) && n in s.alive && l <= LogOf(s, n);
      assert IsReplica(s, n);
      PromotionKeepsReplicas(s, step.at, n);
    }
  }

  /** Records are lost only when no alive node has them: as long as, at every moment of a run, some
      alive node of the segment holds them, the primary of the moment holds them too. */
  lemma {:induction false} HeldRecordsSurvive(s: Segment, steps: seq<Step>, l: seq<Message>)
    requires Safe(s) && IsRun(s, steps) && CleanRun(s, steps) && HeldThroughout(s, steps, l)
    requires l <= LogOf(s, s.primary)
    ensures l <= LogOf(AfterRun(s, steps), AfterRun(s, steps).primary)
    decreases |steps|
  {
    if steps != [] {
      StepKeepsSafe(s, steps[0]);
      StepKeepsHeld(s, steps[0], l);
      HeldRecordsSurvive(After(s, steps[0]), steps[1..], l);
    }
  }

  // ---------------------------------------------------------------- a stale file

  ghost predicate Goes(s: Segment, step: Step, s': Segment) {
    Enabled(s, step) && After(s, step) == s'
  }

  ghost predicate Reaches(from: Segment, steps: seq<Step>, to: Segment) {
    IsRun(from, steps) && AfterRun(from, steps) == to
  }

  lemma {:induction false} Prepend(s: Segment, step: Step, s': Segment, steps: seq<Step>, to: Segment, all: seq<Step>)
    requires Goes(s, step, s') && Reaches(s', steps, to) && all == [step] + steps
    ensures Reaches(s, all, to)
  {
    assert all[1..] == steps;
  }

  const OLD: Message := [0]
  const NEW: Message := [1]

  function Logs(one: seq<Message>, two: seq<Message>, three: seq<Message>): map<Node, Copy> {
    map[1 := Has(one), 2 := Has(two), 3 := Has(three)]
  }

  /** Three nodes with empty logs; a fourth is alive. */
  const START := Segment(1, [2, 3], {1, 2, 3, 4}, Logs([], [], []))

  /** Node 3 has two records that node 2, which was promoted, never had, and is no replica any more. */
  const LEFT := Segment(2, [], {2, 3, 4}, Logs([OLD, OLD], [], [OLD, OLD]))

  /** Node 2 wrote a record that node 4 has too, node 3 came back with its old file, and node 2 died. */
  const RETURNED := Segment(2, [4, 3], {3, 4}, Logs([OLD, OLD], [NEW], [OLD, OLD])[4 := Has([NEW])])

  const LEAVING: seq<Step> := [
    PrimaryWrites(OLD), PrimaryWrites(OLD), ReplicaReceives(3), ReplicaReceives(3), Dropped(3), Crashes(1), Promoted(0)]

  const RETURNING: seq<Step> := [
    PrimaryWrites(NEW), Assigned(4), ReplicaAligns(4), ReplicaReceives(4), Assigned(3), Crashes(2)]

  lemma {:induction false} OldRecords()
    ensures var s := START;
            && Goes(s, PrimaryWrites(OLD), s.(copies := Logs([OLD], [], [])))
            && Goes(s.(copies := Logs([OLD], [], [])), PrimaryWrites(OLD), s.(copies := Logs([OLD, OLD], [], [])))
  {
    var none: seq<Message> := [];
    assert none + [OLD] == [OLD] && [OLD] + [OLD] == [OLD, OLD];
    assert Logs([], [], [])[1 := Has([OLD])] == Logs([OLD], [], []);
    assert Logs([OLD], [], [])[1 := Has([OLD, OLD])] == Logs([OLD, OLD], [], []);
  }

  lemma {:induction false} NodeThreeReceives()
    ensures var s := START;
            && Goes(s.(copies := Logs([OLD, OLD], [], [])), ReplicaReceives(3),
                    s.(copies := Logs([OLD, OLD], [], [OLD])))
            && Goes(s.(copies := Logs([OLD, OLD], [], [OLD])), ReplicaReceives(3), s.(copies := LEFT.copies))
  {
    var none: seq<Message> := [];
    assert none + [OLD] == [OLD] && [OLD] + [OLD] == [OLD, OLD];
    assert Logs([OLD, OLD], [], [])[3 := Has([OLD])] == Logs([OLD, OLD], [], [OLD]);
    assert Logs([OLD, OLD], [], [OLD])[3 := Has([OLD, OLD])] == LEFT.copies;
  }

  lemma {:induction false} NodeTwoTakesOver()
    ensures var s := START.(copies := LEFT.copies);
            && Goes(s, Dropped(3), s.(replicating := [2]))
            && Goes(s.(replicating := [2]), Crashes(1), s.(replicating := [2], alive := LEFT.alive))
            && Goes(s.(replicating := [2], alive := LEFT.alive), Promoted(0), LEFT)
  {
    var s := START.(copies := LEFT.copies);
    assert Remove([2, 3], 3) == [2];
    var t := s.(replicating := [2], alive := LEFT.alive);
    assert t.alive == s.alive - {1};
    assert FirstLargest(t.replicating, t.alive, Sizes(t), 0);
    assert Others([2], t.alive, 2) == [];
  }

  lemma {:induction false} TakeOverReached()
    ensures Reaches(START.(copies := LEFT.copies), LEAVING[4..], LEFT)
  {
    var full := START.(copies := LEFT.copies);
    NodeTwoTakesOver();
    Prepend(full.(replicating := [2], alive := LEFT.alive), Promoted(0), LEFT, [], LEFT, LEAVING[6..]);
    Prepend(full.(replicating := [2]), Crashes(1), full.(replicating := [2], alive := LEFT.alive),
            LEAVING[6..], LEFT, LEAVING[5..]);
    Prepend(full, Dropped(3), full.(replicating := [2]), LEAVING[5..], LEFT, LEAVING[4..]);
  }

  lemma {:induction false} RecordsReached()
    ensures Reaches(START.(copies := Logs([OLD, OLD], [], [])), LEAVING[2..], LEFT)
  {
    var s := START;
    TakeOverReached();
    NodeThreeReceives();
    Prepend(s.(copies := Logs([OLD, OLD], [], [OLD])), ReplicaReceives(3), s.(copies := LEFT.copies),
            LEAVING[4..], LEFT, LEAVING[3..]);
    Prepend(s.(copies := Logs([OLD, OLD], [], [])), ReplicaReceives(3), s.(copies := Logs([OLD, OLD], [], [OLD])),
            LEAVING[3..], LEFT, LEAVING[2..]);
  }

  lemma {:induction false} NodeThreeLeaves()
    ensures Reaches(START, LEAVING, LEFT)
  {
    var s := START;
    RecordsReached();
    OldRecords();
    Prepend(s.(copies := Logs([OLD], [], [])), PrimaryWrites(OLD), s.(copies := Logs([OLD, OLD], [], [])),
            LEAVING[2..], LEFT, LEAVING[1..]);
    Prepend(s, PrimaryWrites(OLD), s.(copies := Logs([OLD], [], [])), LEAVING[1..], LEFT, LEAVING);
  }

  const WRITTEN := LEFT.(copies := Logs([OLD, OLD], [NEW], [OLD, OLD]))
  const JOINED := WRITTEN.(replicating := [4], copies := WRITTEN.copies[4 := Has([])])
  const RECEIVED := JOINED.(copies := RETURNED.copies)

  lemma {:induction false} NodeFourJoins()
    ensures Goes(LEFT, PrimaryWrites(NEW), WRITTEN)
    ensures Goes(WRITTEN, Assigned(4), WRITTEN.(replicating := [4]))
    ensures Goes(WRITTEN.(replicating := [4]), ReplicaAligns(4), JOINED)
  {
    var none: seq<Message> := [];
    assert none + [NEW] == [NEW];
    assert Logs([OLD, OLD], [], [OLD, OLD])[2 := Has([NEW])] == WRITTEN.copies;
    assert [] + [4] == [4];
  }

  lemma {:induction false} NodeThreeIsBack()
    ensures Goes(JOINED, ReplicaReceives(4), RECEIVED)
    ensures Goes(RECEIVED, Assigned(3), RECEIVED.(replicating := [4, 3]))
    ensures Goes(RECEIVED.(replicating := [4, 3]), Crashes(2), RETURNED)
  {
    var none: seq<Message> := [];
    assert none + [NEW] == [NEW];
    assert JOINED.copies[4 := Has([NEW])] == RETURNED.copies;
    assert [4] + [3] == [4, 3];
    assert {2, 3, 4} - {2} == {3, 4};
  }

  lemma {:induction false} ReturnReached()
    ensures Reaches(JOINED, RETURNING[3..], RETURNED)
  {
    NodeThreeIsBack();
    Prepend(RECEIVED.(replicating := [4, 3]), Crashes(2), RETURNED, [], RETURNED, RETURNING[5..]);
    Prepend(RECEIVED, Assigned(3), RECEIVED.(replicating := [4, 3]), RETURNING[5..], RETURNED, RETURNING[4..]);
    Prepend(JOINED, ReplicaReceives(4), RECEIVED, RETURNING[4..], RETURNED, RETURNING[3..]);
  }

  lemma {:induction false} NodeThreeReturns()
    ensures Reaches(LEFT, RETURNING, RETURNED)
  {
    NodeFourJoins();
    ReturnReached();
    Prepend(WRITTEN.(replicating := [4]), ReplicaAligns(4), JOINED, RETURNING[3..], RETURNED, RETURNING[2..]);
    Prepend(WRITTEN, Assigned(4), WRITTEN.(replicating := [4]), RETURNING[2..], RETURNED, RETURNING[1..]);
    Prepend(LEFT, PrimaryWrites(NEW), WRITTEN, RETURNING[1..], RETURNED, RETURNING);
  }

  /** One unclean assignment is enough: a node that comes back with an old, longer file is promoted, and a
      record that another alive replica holds is gone. */
  lemma {:induction false} StaleFileLosesRecords()
    ensures Safe(START) && Reaches(START, LEAVING, LEFT) && Reaches(LEFT, RETURNING, RETURNED)
    ensures Held(RETURNED, [NEW]) && [NEW] <= LogOf(RETURNED, RETURNED.primary)
    ensures Enabled(RETURNED, Promoted(1))
    ensures var s := After(RETURNED, Promoted(1)); !([NEW] <= LogOf(s, s.primary))
  {
    NodeThreeLeaves();
    NodeThreeReturns();
    var s := RETURNED;
    SizesOfLogs();
    assert FirstLargest(s.replicating, s.alive, Sizes(s), 1);
    assert 4 in s.replicating && [NEW] <= LogOf(s, 4);
  }

  lemma {:induction false} SizesOfLogs()
    ensures |Disk([NEW])| == 3 && |Disk([OLD, OLD])| == 5
  {
    FramesAppend([], NEW);
    FramesAppend([], OLD);
    FramesAppend([OLD], OLD);
    assert [] + [NEW] == [NEW] && [] + [OLD] == [OLD] && [OLD] + [OLD] == [OLD, OLD];
  }
}
