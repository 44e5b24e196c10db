/** The store that publishes cluster states by compare-and-swap, as a machine over the steps of its
    callers. */
module StateStore {
  import opened Wrappers
  import opened Lists
  import opened ClusterState
  import opened ClusterInvariant

  /** A caller draws a segment ID or applies the entry of the replicated log at `index`. */
  datatype Op = Draw | Do(index: nat, command: Option<Command>)

  function Effect(s: State, op: Op): Outcome {
    match op
    case Draw => Next(s.(currentSegmentID := s.currentSegmentID + 1))
    case Do(index, None) => Next(s.(index := index))
    case Do(index, Some(c)) =>
      match Apply(s, c)
      case Next(next) => Next(next.(index := index))
      case Panic => Panic
  }

  /** What a run of operations without any interleaving gives. */
  function Serial(ops: seq<Op>): Outcome
    decreases |ops|
  {
    if ops == [] then Next(EMPTY)
    else
      match Serial(ops[..|ops| - 1])
      case Next(s) => Effect(s, ops[|ops| - 1])
      case Panic => Panic
  }

  /** A caller in its retry loop: `Wanting` before the load, `Trying` between load and swap. A state is
      never changed once published, so `version` identifies the one that was loaded. `Drew` holds
      the ID that was drawn last. */
  datatype Caller = Idle | Drew(id: nat) | Wanting(op: Op) | Trying(op: Op, version: nat, seen: State)

  /** `swapped` lists the operations whose swap succeeded, in that order. */
  datatype Store = Store(version: nat, current: State, callers: seq<Caller>, swapped: seq<Op>)

  datatype Step = Begin(caller: nat, op: Op) | Load(caller: nat) | Swap(caller: nat)

  predicate Creates(op: Op) {
    op.Do? && op.command.Some? && op.command.value.CreateSegment?
  }

  /** Any caller may apply any entry, whoever wrote it to the log. A swap whose operation panics ends the
      run. */
  predicate Enabled(p: Store, step: Step) {
    && step.caller < |p.callers|
    && var caller := p.callers[step.caller];
       match step
       case Begin(_, _) => caller.Idle? || caller.Drew?
       case Load(_) => caller.Wanting?
       case Swap(_) => caller.Trying? && Effect(caller.seen, caller.op).Next?
  }

  function Finished(op: Op, s: State): Caller {
    if op.Draw? then Drew(s.currentSegmentID) else Idle
  }

  function After(p: Store, step: Step): Store
    requires Enabled(p, step)
  {
    var t := step.caller;
    match step
    case Begin(_, op) => p.(callers := p.callers[t := Wanting(op)])
    case Load(_) => p.(callers := p.callers[t := Trying(p.callers[t].op, p.version, p.current)])
    case Swap(_) =>
      var Trying(op, version, seen) := p.callers[t];
      if version != p.version then p.(callers := p.callers[t := Wanting(op)])
      else
        var next := Effect(seen, op).state;
        Store(p.version + 1, next, p.callers[t := Finished(op, next)], p.swapped + [op])
  }

  predicate IsRun(p: Store, steps: seq<Step>)
    decreases |steps|
  {
    steps == [] || (Enabled(p, steps[0]) && IsRun(After(p, steps[0]), steps[1..]))
  }

  function AfterRun(p: Store, steps: seq<Step>): Store
    requires IsRun(p, steps)
    decreases |steps|
  {
    if steps == [] then p else AfterRun(After(p, steps[0]), steps[1..])
  }

  function Start(callers: nat): Store {
    Store(0, EMPTY, seq(callers, _ => Idle), [])
  }

  // ---------------------------------------------------------------- what every step keeps

  ghost predicate Coherent(p: Store) {
    forall t :: 0 <= t < |p.callers| && p.callers[t].Trying? ==>
      && p.callers[t].version <= p.version
      && (p.callers[t].version == p.version ==> p.callers[t].seen == p.current)
  }

  predicate Within(segments: seq<Segment>, limit: nat) {
    forall g :: g in segments ==> g.id <= limit
  }

  /** No segment has an ID above the counter. */
  predicate Bounded(s: State) {
    Within(s.open, s.currentSegmentID) && Within(s.closed, s.currentSegmentID)
  }

  ghost predicate Sound(p: Store) {
    Coherent(p) && Serial(p.swapped) == Next(p.current) && Bounded(p.current)
  }

  lemma {:induction false} SerialAppend(ops: seq<Op>, op: Op, s: State)
    requires Serial(ops) == Next(s)
    ensures Serial(ops + [op]) == Effect(s, op)
  {
    assert (ops + [op])[..|ops|] == ops;
  }

  // ---------------------------------------------------------------- the counter

  lemma {:induction false} CounterGrows(s: State, op: Op)
    requires Effect(s, op).Next?
    ensures s.currentSegmentID <= Effect(s, op).state.currentSegmentID
    ensures op.Draw? ==> s.currentSegmentID < Effect(s, op).state.currentSegmentID
  {
  }

  lemma {:induction false} SortWithin(segments: seq<Segment>, x: Segment, limit: nat)
    requires Within(segments, limit) && x.id <= limit
    ensures Within(Sort(segments + [x], SegmentID), limit)
  {
    var r := Sort(segments + [x], SegmentID);
    forall g | g in r ensures g.id <= limit {
      assert g in multiset(r);
    }
  }

  lemma {:induction false} DroppedWithin(segments: seq<Segment>, id: nat, limit: nat)
    requires Within(segments, limit)
    ensures Within(Dropped(segments, id), limit)
  {
    var i := Search(segments, SegmentID, id);
    if i < |segments| {
      WithoutElements(segments, i);
    }
  }

  lemma {:induction false} ReplacedWithin(segments: seq<Segment>, id: nat, nodes: Nodes, limit: nat)
    requires Within(segments, limit)
    ensures Within(ReplaceNodes(segments, id, nodes), limit)
  {
    var r := ReplaceNodes(segments, id, nodes);
    forall g | g in r ensures g.id <= limit {
      var k :| 0 <= k < |r| && r[k] == g;
      assert segments[k] in segments;
    }
  }

  lemma {:induction false} CloseBounded(s: State, c: Command)
    requires Bounded(s) && c.CloseSegment?
    ensures Bounded(CloseOpen(s, c))
  {
    var i := FindID(s.open, c.id, 0);
    if i < |s.open| {
      assert s.open[i] in s.open;
      WithoutElements(s.open, i);
      SortWithin(s.closed, Closed(s.open[i], c), s.currentSegmentID);
    }
  }

  lemma {:induction false} OpenBounded(s: State, c: Command)
    requires Bounded(s) && c.CreateSegment?
    ensures Bounded(OpenSegment(s, c))
  {
    SortWithin(s.open, Opened(c), OpenSegment(s, c).currentSegmentID);
  }

  lemma {:induction false} SetBounded(s: State, id: nat, which: Which, nodes: Nodes)
    requires Bounded(s)
    ensures Bounded(SetNodes(s, id, which, nodes)) && Bounded(RemoveSegment(s, id, which))
  {
    var segments := if which.InOpen? then s.open else s.closed;
    ReplacedWithin(segments, id, nodes, s.currentSegmentID);
    DroppedWithin(segments, id, s.currentSegmentID);
  }

  /** Creating a segment under any ID, drawn here or not, lifts the counter to it. */
  lemma {:induction false} CommandBounded(s: State, c: Command)
    requires Bounded(s) && Apply(s, c).Next?
    ensures Bounded(Apply(s, c).state)
  {
    match c {
      case CreateSegment(_, _, _, _, _, _, _, _, _) => OpenBounded(s, c);
      case CloseSegment(_, _, _, _, _) => CloseBounded(s, c);
      case UpdateNodes(id, which, nodes) => SetBounded(s, id, which, nodes);
      case DeleteSegment(id, which) => SetBounded(s, id, which, Nodes(0, [], []));
      case _ =>
    }
  }

  lemma {:induction false} EffectBounded(s: State, op: Op)
    requires Bounded(s) && Effect(s, op).Next?
    ensures Bounded(Effect(s, op).state)
  {
    if op.Do? && op.command.Some? {
      CommandBounded(s, op.command.value);
    }
  }

  // ---------------------------------------------------------------- every step

  /** A swap succeeds exactly when nothing was published since the load. It then publishes what the operation
      makes of the state it replaces, although it was computed from the state loaded earlier: a draw raises
      the counter by one, an entry applies its command and sets the index. */
  lemma {:induction false} SwapIsAtomic(p: Store, t: nat)
    requires Coherent(p) && Enabled(p, Swap(t))
    ensures var p' := After(p, Swap(t));
            var op := p.callers[t].op;
            if p.callers[t].version != p.version
            then p' == p.(callers := p.callers[t := Wanting(op)])
            else
              && p'.version == p.version + 1 && p'.swapped == p.swapped + [op]
              && match op
                 case Draw =>
                   && p'.current == p.current.(currentSegmentID := p.current.currentSegmentID + 1)
                   && p'.callers == p.callers[t := Drew(p'.current.currentSegmentID)]
                 case Do(index, None) =>
                   p'.current == p.current.(index := index) && p'.callers == p.callers[t := Idle]
                 case Do(index, Some(c)) =>
                   && Apply(p.current, c).Next? && p'.current == Apply(p.current, c).state.(index := index)
                   && p'.callers == p.callers[t := Idle]
  {
  }

  lemma {:induction false} StepKeeps(p: Store, step: Step)
    requires Sound(p) && Enabled(p, step)
    ensures Sound(After(p, step))
  {
    if step.Swap? && p.callers[step.caller].version == p.version {
      var op := p.callers[step.caller].op;
      SerialAppend(p.swapped, op, p.current);
      EffectBounded(p.current, op);
    }
  }

  lemma {:induction false} StartSound(callers: nat)
    ensures Sound(Start(callers))
  {
    assert forall t :: 0 <= t < callers ==> Start(callers).callers[t] == Idle;
  }

  lemma {:induction false} RunKeeps(p: Store, steps: seq<Step>)
    requires Sound(p) && IsRun(p, steps)
    ensures Sound(AfterRun(p, steps))
    decreases |steps|
  {
    if steps != [] {
      StepKeeps(p, steps[0]);
      RunKeeps(After(p, steps[0]), steps[1..]);
    }
  }

  // ---------------------------------------------------------------- every run

  /** The commands among the operations, in order. */
  function CommandsOf(ops: seq<Op>): seq<Command> {
    if ops == [] then []
    else
      var front, op := CommandsOf(ops[..|ops| - 1]), ops[|ops| - 1];
      if op.Do? && op.command.Some? then front + [op.command.value] else front
  }

  /** What the commands give one after another, from the empty state. */
  function ApplyAll(cs: seq<Command>): Outcome
    decreases |cs|
  {
    if cs == [] then Next(EMPTY)
    else
      match ApplyAll(cs[..|cs| - 1])
      case Next(s) => Apply(s, cs[|cs| - 1])
      case Panic => Panic
  }

  /** The states differ at most in index and counter. */
  predicate SameData(s: State, s': State) {
    s'.namespaces == s.namespaces && s'.nodes == s.nodes && s'.open == s.open && s'.closed == s.closed
  }

  lemma {:induction false} ApplyInAgrees(s: State, s': State, c: Command)
    requires SameData(s, s') && InNamespace(c) && Apply(s, c).Next?
    ensures Apply(s', c).Next? && SameData(Apply(s, c).state, Apply(s', c).state)
  {
  }

  /** A command does the same to the data of both. */
  lemma {:induction false} ApplyAgrees(s: State, s': State, c: Command)
    requires SameData(s, s') && Apply(s, c).Next?
    ensures Apply(s', c).Next? && SameData(Apply(s, c).state, Apply(s', c).state)
  {
    if InNamespace(c) {
      ApplyInAgrees(s, s', c);
    }
  }

  /** Draws and empty entries leave the data alone. */
  lemma {:induction false} SerialIsFold(ops: seq<Op>)
    requires Serial(ops).Next?
    ensures ApplyAll(CommandsOf(ops)).Next? && SameData(Serial(ops).state, ApplyAll(CommandsOf(ops)).state)
    decreases |ops|
  {
    if ops != [] {
      var front, op := ops[..|ops| - 1], ops[|ops| - 1];
      SerialIsFold(front);
      if op.Do? && op.command.Some? {
        assert CommandsOf(ops)[..|CommandsOf(front)|] == CommandsOf(front);
        ApplyAgrees(Serial(front).state, ApplyAll(CommandsOf(front)).state, op.command.value);
      }
    }
  }

  // ---------------------------------------------------------------- none lost, none twice

  function PendingOf(c: Caller): multiset<Op> {
    if c.Wanting? || c.Trying? then multiset{c.op} else multiset{}
  }

  /** The operations that callers have begun and not finished. */
  function Pending(callers: seq<Caller>): multiset<Op> {
    if callers == [] then multiset{}
    else Pending(callers[..|callers| - 1]) + PendingOf(callers[|callers| - 1])
  }

  function BegunBy(step: Step): multiset<Op> {
    if step.Begin? then multiset{step.op} else multiset{}
  }

  function Begun(steps: seq<Step>): multiset<Op>
    decreases |steps|
  {
    if steps == [] then multiset{} else BegunBy(steps[0]) + Begun(steps[1..])
  }

  lemma {:induction false} Commute(a: multiset<Op>, b: multiset<Op>, c: multiset<Op>)
    ensures a + b + c == a + c + b
  {
  }

  lemma {:induction false} Extend(x: multiset<Op>, a: multiset<Op>, y: multiset<Op>, b: multiset<Op>, l: multiset<Op>)
    requires x + a == y + b
    ensures x + l + a == y + l + b
  {
    Commute(x, l, a);
    Commute(y, l, b);
  }

  lemma {:induction false} PendingUpdate(callers: seq<Caller>, t: nat, c: Caller)
    requires t < |callers|
    ensures Pending(callers[t := c]) + PendingOf(callers[t]) == Pending(callers) + PendingOf(c)
    decreases |callers|
  {
    var k := |callers| - 1;
    var front, last := callers[..k], PendingOf(callers[k]);
    var callers' := callers[t := c];
    if t == k {
      assert callers'[..k] == front;
      assert Pending(callers') == Pending(front) + PendingOf(c);
      Commute(Pending(front), PendingOf(c), last);
    } else {
      PendingUpdate(front, t, c);
      assert callers'[..k] == front[t := c];
      assert Pending(callers') == Pending(front[t := c]) + last;
      Extend(Pending(front[t := c]), PendingOf(callers[t]), Pending(front), PendingOf(c), last);
    }
  }

  /** What pending and swapped come to when one caller's operation goes from `before` to `after`. */
  lemma {:induction false} Accounts(swapped: multiset<Op>, was: multiset<Op>, before: multiset<Op>, now: multiset<Op>,
                                    after: multiset<Op>, done: multiset<Op>, begun: multiset<Op>)
    requires now + before == was + after && done + after == before + begun
    ensures swapped + done + now == swapped + was + begun
  {
    forall x ensures (swapped + done + now)[x] == (swapped + was + begun)[x] {
      assert (now + before)[x] == (was + after)[x];
      assert (done + after)[x] == (before + begun)[x];
    }
  }

  function SwappedBy(p: Store, step: Step): multiset<Op>
    requires Enabled(p, step)
  {
    if step.Swap? && p.callers[step.caller].version == p.version then multiset{p.callers[step.caller].op}
    else multiset{}
  }

  lemma {:induction false} OneCaller(p: Store, step: Step)
    requires Enabled(p, step)
    ensures var p', t := After(p, step), step.caller;
            && p'.callers == p.callers[t := p'.callers[t]]
            && p'.swapped == if SwappedBy(p, step) == multiset{} then p.swapped else p.swapped + [p.callers[t].op]
  {
  }

  lemma {:induction false} SwappedGrows(p: Store, step: Step)
    requires Enabled(p, step)
    ensures multiset(After(p, step).swapped) == multiset(p.swapped) + SwappedBy(p, step)
  {
    OneCaller(p, step);
    if SwappedBy(p, step) != multiset{} {
      var op := p.callers[step.caller].op;
      assert multiset(p.swapped + [op]) == multiset(p.swapped) + multiset{op};
    }
  }

  lemma {:induction false} Zero(a: multiset<Op>)
    ensures a + multiset{} == a == multiset{} + a
  {
  }

  lemma {:induction false} CallerAccounts(p: Store, step: Step)
    requires Enabled(p, step)
    ensures SwappedBy(p, step) + PendingOf(After(p, step).callers[step.caller])
         == PendingOf(p.callers[step.caller]) + BegunBy(step)
  {
    match step {
      case Begin(_, op) => Zero(multiset{op});
      case Load(t) => Zero(multiset{p.callers[t].op});
      case Swap(t) => Zero(multiset{p.callers[t].op});
    }
  }

  /** A step begins an operation, keeps it pending, or moves it from pending to swapped. */
  lemma {:induction false} StepAccounts(p: Store, step: Step)
    requires Enabled(p, step)
    ensures var p' := After(p, step);
            multiset(p'.swapped) + Pending(p'.callers) == multiset(p.swapped) + Pending(p.callers) + BegunBy(step)
  {
    var p', t := After(p, step), step.caller;
    OneCaller(p, step);
    SwappedGrows(p, step);
    CallerAccounts(p, step);
    PendingUpdate(p.callers, t, p'.callers[t]);
    Accounts(multiset(p.swapped), Pending(p.callers), PendingOf(p.callers[t]), Pending(p'.callers),
             PendingOf(p'.callers[t]), SwappedBy(p, step), BegunBy(step));
  }

  lemma {:induction false} Group3(a: multiset<Op>, b: multiset<Op>, c: multiset<Op>)
    ensures a + b + c == a + (b + c)
  {
  }

  lemma {:induction false} RunAccounts(p: Store, steps: seq<Step>)
    requires IsRun(p, steps)
    ensures var p' := AfterRun(p, steps);
            multiset(p'.swapped) + Pending(p'.callers) == multiset(p.swapped) + Pending(p.callers) + Begun(steps)
    decreases |steps|
  {
    if steps != [] {
      var p1 := After(p, steps[0]);
      StepAccounts(p, steps[0]);
      RunAccounts(p1, steps[1..]);
      Group3(multiset(p.swapped) + Pending(p.callers), BegunBy(steps[0]), Begun(steps[1..]));
    }
  }

  lemma {:induction false} NonePending(callers: seq<Caller>)
    requires forall t :: 0 <= t < |callers| ==> callers[t] == Idle
    ensures Pending(callers) == multiset{}
    decreases |callers|
  {
    if callers != [] {
      NonePending(callers[..|callers| - 1]);
    }
  }

  /** However the callers interleave, and whoever wrote the log: every operation begun so far was swapped
      exactly once or is still pending, and namespaces, nodes and segments of the published state are what the
      swapped commands give one after another, whatever draws lie between them. */
  lemma {:induction false} RunsAreSerial(callers: nat, steps: seq<Step>)
    requires IsRun(Start(callers), steps)
    ensures var p := AfterRun(Start(callers), steps);
            && multiset(p.swapped) + Pending(p.callers) == Begun(steps)
            && ApplyAll(CommandsOf(p.swapped)).Next?
            && SameData(p.current, ApplyAll(CommandsOf(p.swapped)).state)
            && Serial(p.swapped) == Next(p.current) && Bounded(p.current)
  {
    StartSound(callers);
    RunKeeps(Start(callers), steps);
    SerialIsFold(AfterRun(Start(callers), steps).swapped);
    NonePending(Start(callers).callers);
    RunAccounts(Start(callers), steps);
  }

  /** An ID handed out is above every segment's ID and above every ID handed out before. */
  lemma {:induction false} DrawnIDIsNew(callers: nat, steps: seq<Step>, t: nat, id: nat)
    requires IsRun(Start(callers), steps)
    requires var p := AfterRun(Start(callers), steps);
             Enabled(p, Swap(t)) && p.callers[t].op.Draw? && After(p, Swap(t)).callers[t] == Drew(id)
    ensures var p := AfterRun(Start(callers), steps);
            && (forall g :: g in p.current.open || g in p.current.closed ==> g.id < id)
            && (forall i :: 0 <= i < |p.swapped| && p.swapped[i].Draw? ==> IDDrawnAt(p.swapped, i) < id)
  {
    StartSound(callers);
    RunKeeps(Start(callers), steps);
    DrawnAbove(AfterRun(Start(callers), steps), t, id);
  }

  lemma {:induction false} DrawnAbove(p: Store, t: nat, id: nat)
    requires Sound(p) && Enabled(p, Swap(t)) && p.callers[t].op.Draw? && After(p, Swap(t)).callers[t] == Drew(id)
    ensures forall g :: g in p.current.open || g in p.current.closed ==> g.id < id
    ensures forall i :: 0 <= i < |p.swapped| && p.swapped[i].Draw? ==> IDDrawnAt(p.swapped, i) < id
  {
    assert id == p.current.currentSegmentID + 1;
    forall i | 0 <= i < |p.swapped| ensures IDDrawnAt(p.swapped, i) < id {
      CounterAt(p.swapped, i + 1);
    }
  }

  /** The ID that the operation at position `i` handed out. */
  function IDDrawnAt(ops: seq<Op>, i: nat): nat
    requires i < |ops|
  {
    var s := Serial(ops[..i + 1]);
    if s.Next? then s.state.currentSegmentID else 0
  }

  lemma {:induction false} CounterAt(ops: seq<Op>, i: nat)
    requires Serial(ops).Next? && i <= |ops|
    ensures Serial(ops[..i]).Next?
    ensures Serial(ops[..i]).state.currentSegmentID <= Serial(ops).state.currentSegmentID
    decreases |ops|
  {
    if i == |ops| {
      assert ops[..i] == ops;
    } else {
      var front := ops[..|ops| - 1];
      CounterAt(front, i);
      assert front[..i] == ops[..i];
      CounterGrows(Serial(front).state, ops[|ops| - 1]);
    }
  }

  // ---------------------------------------------------------------- runs that create under drawn IDs

  /** The ID a caller has drawn and not yet created a segment with. */
  function Held(c: Caller): Option<nat> {
    match c
    case Idle => None
    case Drew(id) => Some(id)
    case Wanting(op) => if Creates(op) then Some(op.command.value.id) else None
    case Trying(op, _, _) => if Creates(op) then Some(op.command.value.id) else None
  }

  /** A segment is created only under the ID its caller has just drawn, as a leader does. */
  predicate Draws(p: Store, step: Step) {
    step.Begin? && Creates(step.op) && step.caller < |p.callers| ==>
      p.callers[step.caller] == Drew(step.op.command.value.id)
  }

  predicate DrawingRun(p: Store, steps: seq<Step>)
    requires IsRun(p, steps)
    decreases |steps|
  {
    steps == [] || (Draws(p, steps[0]) && DrawingRun(After(p, steps[0]), steps[1..]))
  }

  predicate Free(s: State, id: nat) {
    id <= s.currentSegmentID && !InUse(s, id)
  }

  ghost predicate IDsFree(p: Store) {
    forall t: nat :: t < |p.callers| && Held(p.callers[t]).Some? ==> Free(p.current, Held(p.callers[t]).value)
  }

  ghost predicate IDsApart(callers: seq<Caller>) {
    forall t, u :: 0 <= t < u < |callers| && Held(callers[t]).Some? ==> Held(callers[t]) != Held(callers[u])
  }

  ghost predicate Inv(p: Store) {
    Sound(p) && IDsFree(p) && IDsApart(p.callers) && Kept(p.current)
  }

  lemma {:induction false} SegmentsOnlyFromCreates(s: State, c: Command, id: nat)
    requires Kept(s) && Fresh(s, c) && Apply(s, c).Next?
    ensures InUse(Apply(s, c).state, id) ==> InUse(s, id) || (c.CreateSegment? && c.id == id)
  {
    if c.CreateSegment? {
      CreateAddsID(s, c, id);
    } else if c.CloseSegment? {
      CloseKeepsIDs(s, c, id);
    } else if c.DeleteSegment? || c.DeleteTopic? || c.DeleteGroup? {
      DeletesKeepIDs(s, c, id);
    }
  }

  lemma {:induction false} CreateAddsID(s: State, c: Command, id: nat)
    requires SegmentsKept(s) && c.CreateSegment? && Fresh(s, c)
    ensures InUse(OpenSegment(s, c), id) ==> InUse(s, id) || c.id == id
  {
    OpenKeeps(s, c);
    KeysWithin(OpenSegment(s, c).open, s.open + [Opened(c)], id);
  }

  lemma {:induction false} DeletesKeepIDs(s: State, c: Command, id: nat)
    requires SegmentsKept(s) && (c.DeleteSegment? || c.DeleteTopic? || c.DeleteGroup?) && Apply(s, c).Next?
    ensures InUse(Apply(s, c).state, id) ==> InUse(s, id)
  {
    DeletesOnlyDrop(s, c);
    KeysWithin(Apply(s, c).state.open, s.open, id);
    KeysWithin(Apply(s, c).state.closed, s.closed, id);
  }

  lemma {:induction false} KeysWithin(a: seq<Segment>, b: seq<Segment>, id: nat)
    requires forall g :: g in a ==> g in b
    ensures HasKey(a, SegmentID, id) ==> HasKey(b, SegmentID, id)
  {
    if HasKey(a, SegmentID, id) {
      var i :| 0 <= i < |a| && SegmentID(a[i]) == id;
      HasKeyOf(b, SegmentID, a[i]);
    }
  }

  lemma {:induction false} CloseKeepsIDs(s: State, c: Command, id: nat)
    requires SegmentsKept(s) && c.CloseSegment?
    ensures InUse(CloseOpen(s, c), id) ==> InUse(s, id)
  {
    var i := FindID(s.open, c.id, 0);
    if i < |s.open| {
      var s', moved := CloseOpen(s, c), Closed(s.open[i], c);
      MoveElements(s, s', i, moved);
      KeysWithin(s'.open, s.open, id);
      KeysWithin(s'.closed, s.closed + [moved], id);
      HasKeyOf(s.open, SegmentID, s.open[i]);
    }
  }

  lemma {:induction false} AboveAll(s: State, id: nat)
    requires SegmentsKept(s) && id > s.currentSegmentID
    ensures !InUse(s, id)
  {
    forall i | 0 <= i < |s.open| ensures SegmentID(s.open[i]) != id {
      assert s.open[i] in s.open;
    }
    forall i | 0 <= i < |s.closed| ensures SegmentID(s.closed[i]) != id {
      assert s.closed[i] in s.closed;
    }
  }

  lemma {:induction false} DrawKeepsIDs(p: Store, p': Store, t: nat)
    requires Inv(p) && t < |p.callers|
    requires p'.current == p.current.(currentSegmentID := p.current.currentSegmentID + 1)
    requires p'.callers == p.callers[t := Drew(p'.current.currentSegmentID)]
    ensures IDsFree(p') && IDsApart(p'.callers) && Kept(p'.current)
  {
    AboveAll(p.current, p'.current.currentSegmentID);
    assert forall id: nat :: Free(p.current, id) ==> Free(p'.current, id) && id < p'.current.currentSegmentID;
  }

  lemma {:induction false} DoKeepsIDs(p: Store, p': Store, t: nat)
    requires Inv(p) && t < |p.callers| && p.callers[t].Trying? && p.callers[t].op.Do?
    requires Effect(p.current, p.callers[t].op) == Next(p'.current) && p'.callers == p.callers[t := Idle]
    ensures IDsFree(p') && IDsApart(p'.callers) && Kept(p'.current)
  {
    var op := p.callers[t].op;
    assert Creates(op) ==> Held(p.callers[t]) == Some(op.command.value.id);
    DoKeepsKept(p.current, op);
    forall u: nat | u < |p'.callers| && Held(p'.callers[u]).Some?
      ensures Free(p'.current, Held(p'.callers[u]).value)
    {
      DoKeepsFree(p.current, op, Held(p.callers[u]).value);
    }
  }

  lemma {:induction false} DoKeepsKept(s: State, op: Op)
    requires Kept(s) && op.Do? && Effect(s, op).Next? && (Creates(op) ==> Free(s, op.command.value.id))
    ensures Kept(Effect(s, op).state)
  {
    if op.command.Some? {
      CommandKeeps(s, op.command.value);
      assert Kept(Apply(s, op.command.value).state);
    }
  }

  lemma {:induction false} DoKeepsFree(s: State, op: Op, id: nat)
    requires Kept(s) && op.Do? && Effect(s, op).Next? && (Creates(op) ==> Free(s, op.command.value.id))
    requires Free(s, id) && (Creates(op) ==> op.command.value.id != id)
    ensures Free(Effect(s, op).state, id)
  {
    CounterGrows(s, op);
    if op.command.Some? {
      SegmentsOnlyFromCreates(s, op.command.value, id);
    }
  }

  lemma {:induction false} DrawingStepKeeps(p: Store, step: Step)
    requires Inv(p) && Enabled(p, step) && Draws(p, step)
    ensures Inv(After(p, step))
  {
    var p', t := After(p, step), step.caller;
    StepKeeps(p, step);
    if step.Swap? && p.callers[t].version == p.version {
      if p.callers[t].op.Draw? {
        DrawKeepsIDs(p, p', t);
      } else {
        DoKeepsIDs(p, p', t);
      }
    } else {
      assert Held(p'.callers[t]).Some? ==> Held(p'.callers[t]) == Held(p.callers[t]);
    }
  }

  lemma {:induction false} DrawingRunKeeps(p: Store, steps: seq<Step>)
    requires Inv(p) && IsRun(p, steps) && DrawingRun(p, steps)
    ensures Inv(AfterRun(p, steps))
    decreases |steps|
  {
    if steps != [] {
      DrawingStepKeeps(p, steps[0]);
      DrawingRunKeeps(After(p, steps[0]), steps[1..]);
    }
  }

  /** Over every such run the lists stay ordered and disjoint, and an ID that was drawn and not used yet is
      held by one caller and by no segment. */
  lemma {:induction false} DrawnIDsStayFree(callers: nat, steps: seq<Step>)
    requires IsRun(Start(callers), steps) && DrawingRun(Start(callers), steps)
    ensures var p := AfterRun(Start(callers), steps);
            Kept(p.current) && IDsFree(p) && IDsApart(p.callers)
  {
    StartSound(callers);
    assert forall t :: 0 <= t < callers ==> Start(callers).callers[t] == Idle;
    DrawingRunKeeps(Start(callers), steps);
  }

  lemma {:induction false} IndexAside(s: State, index: nat)
    ensures Kept(s.(index := index)) <==> Kept(s)
  {
  }

  lemma {:induction false} EffectKeepsExact(s: State, op: Op)
    requires Kept(s) && Effect(s, op).Next?
    ensures Kept(Effect(s, op).state) <==> !(Creates(op) && InUse(s, op.command.value.id))
  {
    match op {
      case Draw =>
      case Do(index, None) => IndexAside(s, index);
      case Do(index, Some(c)) =>
        CommandKeepsExact(s, c);
        IndexAside(Apply(s, c).state, index);
    }
  }

  /** In general a swap keeps the lists in order exactly when it does not create a segment under an ID in use. */
  lemma {:induction false} SwapKeepsExact(p: Store, t: nat)
    requires Coherent(p) && Kept(p.current) && Enabled(p, Swap(t)) && p.callers[t].version == p.version
    ensures var op := p.callers[t].op;
            Kept(After(p, Swap(t)).current) <==> !(Creates(op) && InUse(p.current, op.command.value.id))
  {
    SwapIsAtomic(p, t);
    EffectKeepsExact(p.current, p.callers[t].op);
  }
}
