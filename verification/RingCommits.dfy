/** The commits that a delivery ring sends: which, how many, and what they lead to. */
module RingCommits {
  import opened DeliveryRing
  import opened RingRuns

  /** One commit for each of the messages from position `i` up to position `j`. */
  function Due(items: seq<Item>, i: nat, j: nat): multiset<Commit>
    requires i <= j <= |items|
  {
    if i == j then multiset{}
    else Due(items, i, j - 1) + multiset{Commit(items[j - 1].segment, items[j - 1].commitOffset)}
  }

  lemma {:induction false} Assoc(a: multiset<Commit>, b: multiset<Commit>, c: multiset<Commit>)
    ensures a + b + c == a + (b + c)
  {
  }

  lemma {:induction false} DueConcat(items: seq<Item>, i: nat, j: nat, k: nat)
    requires i <= j <= k <= |items|
    ensures Due(items, i, k) == Due(items, i, j) + Due(items, j, k)
    decreases k
  {
    if j < k {
      DueConcat(items, i, j, k - 1);
      var c := multiset{Commit(items[k - 1].segment, items[k - 1].commitOffset)};
      Assoc(Due(items, i, j), Due(items, j, k - 1), c);
    }
  }

  lemma {:induction false} DueStays(items: seq<Item>, more: seq<Item>, i: nat, j: nat)
    requires i <= j <= |items| && items <= more
    ensures Due(items, i, j) == Due(more, i, j)
    decreases j
  {
    if i < j {
      DueStays(items, more, i, j - 1);
    }
  }

  lemma {:induction false} DueHas(items: seq<Item>, i: nat, j: nat, t: nat)
    requires i <= t < j <= |items|
    ensures Commit(items[t].segment, items[t].commitOffset) in Due(items, i, j)
    decreases j
  {
    if t < j - 1 {
      DueHas(items, i, j - 1, t);
    }
  }

  /** The commits of slots are those due for their messages. */
  lemma {:induction false} SlotsDue(slots: seq<Slot>, done: nat, items: seq<Item>, i: nat)
    requires done <= |slots| && i + done <= |items|
    requires forall k :: 0 <= k < done ==> slots[k].item == items[i + k]
    ensures multiset(CommitsOf(slots[..done])) == Due(items, i, i + done)
    decreases done
  {
    if done > 0 {
      SlotsDue(slots, done - 1, items, i);
      CommitsOfNext(slots, done - 1);
    } else {
      assert CommitsOf(slots[..0]) == [];
    }
  }

  // ---------------------------------------------------------------- one operation

  function Received(op: Op): multiset<Commit> {
    if op.Receive? then multiset{op.c} else multiset{}
  }

  /** What an operation sends and receives changes the channel, and no more: one commit for each message that
      retires by it, as long as commits are on. */
  ghost predicate Sends(s: System, op: Op, s': System) {
    && s.retired <= s'.retired <= |s'.offered| && s.offered <= s'.offered
    && (s'.ring.commits <==> s.ring.commits && op != CloseGroup)
    && s'.channel + Received(op)
       == s.channel + if s.ring.commits then Due(s'.offered, s.retired, s'.retired) else multiset{}
  }

  lemma {:induction false} LiveDue(s: System, marked: seq<Slot>, done: nat)
    requires Ordered(s) && |marked| == |s.ring.live| && done <= |marked|
    requires forall i :: 0 <= i < |marked| ==> marked[i].item == s.ring.live[i].item
    ensures multiset(CommitsOf(marked[..done])) == Due(s.offered, s.retired, s.retired + done)
  {
    SlotsDue(marked, done, s.offered, s.retired);
  }

  lemma {:induction false} AckSends(s: System, id: nat, k: nat)
    requires Ordered(s) && id in s.subs && k < |s.ring.live|
    ensures var s' := Acknowledged(s, id, k);
            && s.retired <= s'.retired <= |s.offered| && s'.offered == s.offered && s'.ring.commits == s.ring.commits
            && s'.channel
               == s.channel + if s.ring.commits then Due(s.offered, s.retired, s'.retired) else multiset{}
  {
    var marked := s.ring.live[k := Slot(s.ring.live[k].item, ACK, NO_SEQ)];
    LiveDue(s, marked, AckedPrefix(marked, 0));
  }

  lemma {:induction false} OpSends(s: System, op: Op, base: map<nat, int>)
    requires Inv(s, base) && Enabled(s, op)
    ensures Sends(s, op, AfterOp(s, op))
  {
    if op.Ack? {
      AckOpSends(s, op.id, op.seqNo);
    } else {
      OtherSends(s, op);
      SendsNothing(s, op, AfterOp(s, op));
    }
  }

  lemma {:induction false} AckOpSends(s: System, id: nat, seqNo: nat)
    requires Bookkeeping(s) && id in s.subs
    ensures Sends(s, Ack(id, seqNo), AfterOp(s, Ack(id, seqNo)))
  {
    AckOpIs(s, id, seqNo);
    var k := Find(s.ring.live, id, seqNo, 0);
    if seqNo != 0 && k < |s.ring.live| {
      AckSends(s, id, k);
    }
  }

  lemma {:induction false} TakenOne(channel: multiset<Commit>, c: Commit)
    requires c in channel
    ensures channel - multiset{c} + multiset{c} == channel
  {
  }

  lemma {:induction false} OtherSends(s: System, op: Op)
    requires Enabled(s, op) && !op.Ack?
    ensures var s' := AfterOp(s, op);
            && s'.retired == s.retired && s.offered <= s'.offered && s'.channel + Received(op) == s.channel
            && (s'.ring.commits <==> s.ring.commits && op != CloseGroup)
  {
    if op.Receive? {
      TakenOne(s.channel, op.c);
    } else {
      assert AfterOp(s, op).channel == s.channel;
      assert s.channel + multiset{} == s.channel;
    }
  }

  lemma {:induction false} SendsNothing(s: System, op: Op, s': System)
    requires s.retired <= |s.offered| && s'.retired == s.retired && s.offered <= s'.offered
    requires s'.channel + Received(op) == s.channel && (s'.ring.commits <==> s.ring.commits && op != CloseGroup)
    ensures Sends(s, op, s')
  {
  }

  // ---------------------------------------------------------------- every run

  function ReceivedIn(ops: seq<Op>): multiset<Commit>
    decreases |ops|
  {
    if ops == [] then multiset{} else Received(ops[0]) + ReceivedIn(ops[1..])
  }

  /** Two steps of a balance, one after the other. */
  lemma {:induction false} Balance(c0: multiset<Commit>, r1: multiset<Commit>, d1: multiset<Commit>,
                                   c1: multiset<Commit>, r2: multiset<Commit>, d2: multiset<Commit>,
                                   c2: multiset<Commit>)
    requires c1 + r1 == c0 + d1 && c2 + r2 == c1 + d2
    ensures c2 + (r1 + r2) == c0 + (d1 + d2)
  {
    calc {
      c2 + (r1 + r2);
      c2 + r2 + r1;
      c1 + d2 + r1;
      c1 + r1 + d2;
      c0 + d1 + d2;
      c0 + (d1 + d2);
    }
  }

  /** What has happened between `s` and `s'` while commits were on, `received` being what was received. */
  ghost predicate Sent(s: System, received: multiset<Commit>, s': System) {
    && s.retired <= s'.retired <= |s'.offered| && s.offered <= s'.offered
    && s'.channel + received == s.channel + Due(s'.offered, s.retired, s'.retired)
  }

  lemma {:induction false} SentOn(s: System, r1: multiset<Commit>, m: System, r2: multiset<Commit>, s': System)
    requires Sent(s, r1, m) && Sent(m, r2, s')
    ensures Sent(s, r1 + r2, s')
  {
    DueStays(m.offered, s'.offered, s.retired, m.retired);
    DueConcat(s'.offered, s.retired, m.retired, s'.retired);
    Balance(s.channel, r1, Due(s'.offered, s.retired, m.retired), m.channel, r2,
            Due(s'.offered, m.retired, s'.retired), s'.channel);
  }

  lemma {:induction false} SentNothing(s: System)
    requires s.retired <= |s.offered|
    ensures Sent(s, multiset{}, s)
  {
  }

  /** Commits stay on until the group is closed. */
  lemma {:induction false} CommitsOn(s: System, ops: seq<Op>, base: map<nat, int>)
    requires Inv(s, base) && IsRun(s, ops)
    ensures AfterRun(s, ops).ring.commits <==> s.ring.commits && CloseGroup !in ops
    decreases |ops|
  {
    if ops != [] {
      OpSends(s, ops[0], base);
      OpKeeps(s, ops[0], base);
      CommitsOn(AfterOp(s, ops[0]), ops[1..], base);
      assert ops == [ops[0]] + ops[1..];
    }
  }

  lemma {:induction false} RunSends(s: System, ops: seq<Op>, base: map<nat, int>)
    requires Inv(s, base) && IsRun(s, ops) && s.ring.commits && CloseGroup !in ops
    ensures Sent(s, ReceivedIn(ops), AfterRun(s, ops))
    decreases |ops|
  {
    if ops == [] {
      SentNothing(s);
    } else {
      var m := AfterOp(s, ops[0]);
      assert ops[0] in ops;
      OpSends(s, ops[0], base);
      OpKeeps(s, ops[0], base);
      RunSends(m, ops[1..], base);
      SentOn(s, Received(ops[0]), m, ReceivedIn(ops[1..]), AfterRun(m, ops[1..]));
    }
  }

  /** Once the group is closed nothing is sent any more. */
  lemma {:induction false} QuietRun(s: System, ops: seq<Op>, base: map<nat, int>)
    requires Inv(s, base) && IsRun(s, ops) && !s.ring.commits
    ensures AfterRun(s, ops).channel + ReceivedIn(ops) == s.channel
    decreases |ops|
  {
    if ops != [] {
      var m, none: multiset<Commit> := AfterOp(s, ops[0]), multiset{};
      OpSends(s, ops[0], base);
      OpKeeps(s, ops[0], base);
      QuietRun(m, ops[1..], base);
      Balance(s.channel, Received(ops[0]), none, m.channel, ReceivedIn(ops[1..]), none, AfterRun(m, ops[1..]).channel);
    }
  }

  /** Until the group is closed, the commits sent so far, received or still on the channel, are exactly one
      for each message that has retired. */
  lemma {:induction false} EveryRetiredIsCommitted(n: nat, base: map<nat, int>, ops: seq<Op>)
    requires IsRun(Start(n, base), ops) && CloseGroup !in ops
    ensures var s := AfterRun(Start(n, base), ops);
            s.ring.commits && s.retired <= |s.offered| && s.channel + ReceivedIn(ops) == Due(s.offered, 0, s.retired)
  {
    CommitsOn(Start(n, base), ops, base);
    RunSends(Start(n, base), ops, base);
  }

  // ---------------------------------------------------------------- committed offsets

  lemma {:induction false} OpKeepsCommitted(s: System, op: Op)
    requires Enabled(s, op)
    ensures forall g :: Committed(s.committed, g) <= Committed(AfterOp(s, op).committed, g)
    ensures op.Receive? ==> op.c.commitOffset <= Committed(AfterOp(s, op).committed, op.c.segment)
  {
  }

  lemma {:induction false} ReceivedCounts(s: System, ops: seq<Op>)
    requires IsRun(s, ops)
    ensures forall g :: Committed(s.committed, g) <= Committed(AfterRun(s, ops).committed, g)
    ensures forall c :: c in ReceivedIn(ops) ==>
      c.commitOffset <= Committed(AfterRun(s, ops).committed, c.segment)
    decreases |ops|
  {
    if ops != [] {
      OpKeepsCommitted(s, ops[0]);
      ReceivedCounts(AfterOp(s, ops[0]), ops[1..]);
    }
  }

  /** When every commit was received, the committed offset of a segment is the highest of the offset it had at
      the start and the offsets of its retired messages. */
  lemma {:induction false} CommittedIsHighest(n: nat, base: map<nat, int>, ops: seq<Op>, g: nat)
    requires IsRun(Start(n, base), ops) && CloseGroup !in ops
    requires AfterRun(Start(n, base), ops).channel == multiset{}
    ensures HighestRetired(AfterRun(Start(n, base), ops), base, g)
  {
    var s := AfterRun(Start(n, base), ops);
    EveryRetiredIsCommitted(n, base, ops);
    ReceivedCounts(Start(n, base), ops);
    RunKeeps(Start(n, base), ops, base);
    assert multiset{} + ReceivedIn(ops) == ReceivedIn(ops);
    AllReceived(s, ReceivedIn(ops), base, g);
  }

  ghost predicate HighestRetired(s: System, base: map<nat, int>, g: nat) {
    var high := Committed(s.committed, g);
    && s.retired <= |s.offered| && Committed(base, g) <= high
    && (forall t :: 0 <= t < s.retired && s.offered[t].segment == g ==> s.offered[t].commitOffset <= high)
    && (|| high == Committed(base, g)
        || exists t :: 0 <= t < s.retired && s.offered[t].segment == g && s.offered[t].commitOffset == high)
  }

  lemma {:induction false} AllReceived(s: System, received: multiset<Commit>, base: map<nat, int>, g: nat)
    requires CommitsSourced(s, base) && s.retired <= |s.offered| && received == Due(s.offered, 0, s.retired)
    requires forall c :: c in received ==> c.commitOffset <= Committed(s.committed, c.segment)
    requires Committed(base, g) <= Committed(s.committed, g)
    ensures HighestRetired(s, base, g)
  {
    forall t | 0 <= t < s.retired && s.offered[t].segment == g
      ensures s.offered[t].commitOffset <= Committed(s.committed, g)
    {
      DueHas(s.offered, 0, s.retired, t);
    }
    if g in s.committed && !(g in base && s.committed[g] == base[g]) {
      assert Sourced(s.offered, s.retired, Commit(g, s.committed[g]));
    }
  }
}
