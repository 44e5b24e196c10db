/** Every interleaving of offers, leases, acknowledgements and closes on one delivery ring, and the
    commits that come out of it. */
module RingRuns {
  import opened DeliveryRing

  /** `retired` counts the messages that have left the ring; `acked` holds positions in `offered`;
      `settled` lists the leases that were acknowledged or given back; `channel` holds commits that
      were sent but not received; `committed` is the highest received offset of each segment; `released`
      holds the leases that ended because their subscription was closed. */
  datatype System = System(
    ring: Ring,
    subs: map<nat, Sub>,
    offered: seq<Item>,
    retired: nat,
    acked: set<nat>,
    settled: seq<(nat, nat)>,
    channel: multiset<Commit>,
    committed: map<nat, int>,
    released: set<(nat, nat)>)

  datatype Op =
    | Offer(item: Item, resumed: bool)
    | Subscribe(id: nat)
    | Next(id: nat, resumed: bool)
    | Ack(id: nat, seqNo: nat)
    | Nack(id: nat, seqNo: nat)
    | CloseSubscription(id: nat)
    | CloseGroup
    | Configure(id: nat, size: nat, maxMessages: nat, blocking: bool)
    | Receive(c: Commit)

  predicate Enabled(s: System, op: Op) {
    match op
    case Offer(_, _) => true
    case Subscribe(id) => 0 < id < READY && id !in s.subs
    case Next(id, _) => id in s.subs
    case Ack(id, _) => id in s.subs
    case Nack(id, _) => id in s.subs
    case CloseSubscription(id) => id in s.subs
    case CloseGroup => true
    case Configure(id, _, _, _) => id in s.subs
    case Receive(c) => c in s.channel
  }

  function Committed(m: map<nat, int>, segment: nat): int {
    if segment in m then m[segment] else 0
  }

  function LeasesOf(live: seq<Slot>, id: nat): set<(nat, nat)> {
    set k | 0 <= k < |live| && live[k].sub == id :: (id, live[k].seqNo)
  }

  function Merge(m: map<nat, int>, c: Commit): map<nat, int> {
    if c.commitOffset > Committed(m, c.segment) then m[c.segment := c.commitOffset] else m
  }

  function AfterOp(s: System, op: Op): System
    requires Enabled(s, op)
  {
    match op
    case Offer(item, resumed) =>
      var (ring, o) := OfferOn(s.ring, item, resumed);
      s.(ring := ring, offered := if o == Offered then s.offered + [item] else s.offered)
    case Subscribe(id) =>
      s.(subs := s.subs[id := Sub(id, 0, 0, 0, true, false, 0)])
    case Next(id, resumed) =>
      var (ring, sub, o) := NextOn(s.ring, s.subs[id], resumed);
      s.(ring := ring, subs := s.subs[id := sub])
    case Ack(id, seqNo) =>
      var (ring, sub, o) := AckOn(s.ring, s.subs[id], seqNo);
      if !o.Settled? then s
      else s.(
        ring := ring,
        subs := s.subs[id := sub],
        retired := s.retired + |s.ring.live| - |ring.live|,
        acked := s.acked + {s.retired + Find(s.ring.live, id, seqNo, 0)},
        settled := s.settled + [(id, seqNo)],
        channel := s.channel + multiset(o.commits))
    case Nack(id, seqNo) =>
      var (ring, sub, o) := NackOn(s.ring, s.subs[id], seqNo);
      if !o.Settled? then s
      else s.(ring := ring, subs := s.subs[id := sub], settled := s.settled + [(id, seqNo)])
    case CloseSubscription(id) =>
      s.(ring := s.ring.(live := Released(s.ring.live, id)),
         subs := s.subs[id := s.subs[id].(closed := true)],
         released := s.released + LeasesOf(s.ring.live, id))
    case CloseGroup =>
      s.(ring := s.ring.(closed := true, commits := false))
    case Configure(id, size, maxMessages, blocking) =>
      s.(subs := s.subs[id := s.subs[id].(size := size, maxMessages := maxMessages, blocking := blocking)])
    case Receive(c) =>
      s.(channel := s.channel - multiset{c}, committed := Merge(s.committed, c))
  }

  // ---------------------------------------------------------------- counting leases

  function Leases(live: seq<Slot>, id: nat): nat {
    if live == [] then 0 else (if live[0].sub == id then 1 else 0) + Leases(live[1..], id)
  }

  lemma {:induction false} LeasesConcat(a: seq<Slot>, b: seq<Slot>, id: nat)
    ensures Leases(a + b, id) == Leases(a, id) + Leases(b, id)
  {
    if a == [] {
      assert a + b == b;
    } else {
      assert (a + b)[1..] == a[1..] + b;
      LeasesConcat(a[1..], b, id);
    }
  }

  lemma {:induction false} LeasesUpdate(live: seq<Slot>, k: nat, slot: Slot, id: nat)
    requires k < |live|
    ensures Leases(live[k := slot], id) + (if live[k].sub == id then 1 else 0)
            == Leases(live, id) + (if slot.sub == id then 1 else 0)
  {
    if k > 0 {
      assert live[k := slot][1..] == live[1..][k - 1 := slot];
      LeasesUpdate(live[1..], k - 1, slot, id);
    } else {
      assert live[k := slot][1..] == live[1..];
    }
  }

  lemma {:induction false} LeasesNone(live: seq<Slot>, id: nat)
    requires forall i :: 0 <= i < |live| ==> live[i].sub != id
    ensures Leases(live, id) == 0
  {
    if live != [] {
      LeasesNone(live[1..], id);
    }
  }

  lemma {:induction false} LeasesReleased(live: seq<Slot>, gone: nat, id: nat)
    requires id != READY
    ensures Leases(Released(live, gone), id) == if id == gone then 0 else Leases(live, id)
  {
    if live != [] {
      assert Released(live, gone)[1..] == Released(live[1..], gone);
      LeasesReleased(live[1..], gone, id);
    }
  }

  lemma {:induction false} LeasesAfterRetire(live: seq<Slot>, done: nat, id: nat)
    requires done <= |live| && id != ACK
    requires forall i :: 0 <= i < done ==> live[i].sub == ACK
    ensures Leases(live[done..], id) == Leases(live, id)
  {
    assert live == live[..done] + live[done..];
    LeasesConcat(live[..done], live[done..], id);
    LeasesNone(live[..done], id);
  }

  // ---------------------------------------------------------------- the invariant

  /** The retired messages followed by the live slots are the offered messages, in order. */
  ghost predicate Ordered(s: System) {
    && s.retired + |s.ring.live| == |s.offered|
    && |s.ring.live| <= s.ring.n
    && (forall k :: 0 <= k < |s.ring.live| ==> s.ring.live[k].item == s.offered[s.retired + k])
  }

  predicate IsLease(slot: Slot) {
    slot.sub != READY && slot.sub != ACK
  }

  /** Every lease is one its subscription was given, no two leases have the same number, and none has
      been settled. */
  ghost predicate LeasesGiven(s: System) {
    && (forall id :: id in s.subs ==> 0 < id < READY && s.subs[id].id == id)
    && (forall k :: 0 <= k < |s.ring.live| && IsLease(s.ring.live[k]) ==>
          && s.ring.live[k].sub in s.subs
          && 0 < s.ring.live[k].seqNo <= s.subs[s.ring.live[k].sub].seqNo
          && (s.ring.live[k].sub, s.ring.live[k].seqNo) !in s.settled)
    && (forall i, j :: 0 <= i < j < |s.ring.live| && IsLease(s.ring.live[i]) && IsLease(s.ring.live[j]) ==>
          (s.ring.live[i].sub, s.ring.live[i].seqNo) != (s.ring.live[j].sub, s.ring.live[j].seqNo))
  }

  /** No lease is settled twice, and only leases that were given are settled. */
  ghost predicate SettledOnce(s: System) {
    && (forall i, j :: 0 <= i < j < |s.settled| ==> s.settled[i] != s.settled[j])
    && (forall i :: 0 <= i < |s.settled| ==>
          s.settled[i].0 in s.subs && 0 < s.settled[i].1 <= s.subs[s.settled[i].0].seqNo)
  }

  /** A lease that a close released was given before, and no live slot has it. */
  ghost predicate ReleasedGone(s: System) {
    && (forall p :: p in s.released ==> p.0 in s.subs && p.1 <= s.subs[p.0].seqNo)
    && (forall k :: 0 <= k < |s.ring.live| && IsLease(s.ring.live[k]) ==>
          (s.ring.live[k].sub, s.ring.live[k].seqNo) !in s.released)
  }

  /** In-flight counts are exact for open subscriptions and never too small for closed ones. */
  ghost predicate Counted(s: System) {
    forall id :: id in s.subs ==>
      if s.subs[id].closed then Leases(s.ring.live, id) <= s.subs[id].inflight
      else Leases(s.ring.live, id) == s.subs[id].inflight
  }

  /** What has retired, and what waits to retire, was acknowledged. */
  ghost predicate AckedFirst(s: System) {
    && (forall t: nat :: t < s.retired ==> t in s.acked)
    && (forall k :: 0 <= k < |s.ring.live| && s.ring.live[k].sub == ACK ==> s.retired + k in s.acked)
  }

  /** An acknowledged message never stays at the front. */
  ghost predicate FrontOpen(s: System) {
    s.ring.live != [] ==> s.ring.live[0].sub != ACK
  }

  ghost predicate Sourced(offered: seq<Item>, retired: nat, c: Commit) {
    exists t: nat :: t < retired <= |offered| &&
                     offered[t].segment == c.segment && offered[t].commitOffset == c.commitOffset
  }

  /** Commits come from retired messages. */
  ghost predicate CommitsSourced(s: System, base: map<nat, int>) {
    && (forall c :: c in s.channel ==> Sourced(s.offered, s.retired, c))
    && (forall g :: g in s.committed ==>
          (g in base && s.committed[g] == base[g]) || Sourced(s.offered, s.retired, Commit(g, s.committed[g])))
    && (forall g :: g in base ==> g in s.committed)
  }

  ghost predicate Inv(s: System, base: map<nat, int>) {
    Bookkeeping(s) && ReleasedGone(s) && AckedFirst(s) && FrontOpen(s) && CommitsSourced(s, base)
  }

  ghost predicate Bookkeeping(s: System) {
    Ordered(s) && LeasesGiven(s) && SettledOnce(s) && Counted(s)
  }

  // ---------------------------------------------------------------- each operation keeps it

  lemma {:induction false} SourcedLater(offered: seq<Item>, retired: nat, offered': seq<Item>, retired': nat, c: Commit)
    requires Sourced(offered, retired, c)
    requires retired <= retired' <= |offered'| && offered <= offered'
    ensures Sourced(offered', retired', c)
  {
    var t: nat :| t < retired <= |offered| &&
                  offered[t].segment == c.segment && offered[t].commitOffset == c.commitOffset;
    assert offered'[t] == offered[t];
  }

  lemma {:induction false} SourcedKept(s: System, s': System, base: map<nat, int>)
    requires CommitsSourced(s, base)
    requires s.retired <= s'.retired <= |s'.offered| && s.offered <= s'.offered
    requires s'.channel == s.channel && s'.committed == s.committed
    ensures CommitsSourced(s', base)
  {
    forall c | Sourced(s.offered, s.retired, c) ensures Sourced(s'.offered, s'.retired, c) {
      SourcedLater(s.offered, s.retired, s'.offered, s'.retired, c);
    }
  }

  /** Subscriptions keep their numbers. */
  ghost predicate NumbersStay(s: System, s': System) {
    forall id :: id in s.subs ==> id in s'.subs && s.subs[id].seqNo <= s'.subs[id].seqNo
  }

  /** Slot `k` becomes a slot that is no lease, or a lease under a number its subscription never used. */
  lemma {:induction false} ReleasedAfterChange(s: System, s': System, k: nat, slot: Slot)
    requires ReleasedGone(s) && NumbersStay(s, s') && s'.released == s.released
    requires k < |s.ring.live| && s'.ring.live == s.ring.live[k := slot]
    requires IsLease(slot) ==> slot.sub in s.subs && slot.seqNo > s.subs[slot.sub].seqNo
    ensures ReleasedGone(s')
  {
  }

  /** Slots are dropped at the front or added, ready, at the back. */
  lemma {:induction false} ReleasedAfterShift(s: System, s': System, done: nat, more: seq<Slot>)
    requires ReleasedGone(s) && s'.subs == s.subs && s'.released == s.released
    requires done <= |s.ring.live| && s'.ring.live == s.ring.live[done..] + more
    requires forall i :: 0 <= i < |more| ==> !IsLease(more[i])
    ensures ReleasedGone(s')
  {
  }

  lemma {:induction false} CloseReleases(s: System, s': System, id: nat)
    requires ReleasedGone(s) && LeasesGiven(s) && id in s.subs
    requires s'.ring.live == Released(s.ring.live, id) && s'.released == s.released + LeasesOf(s.ring.live, id)
    requires s'.subs == s.subs[id := s.subs[id].(closed := true)]
    ensures ReleasedGone(s')
  {
    forall k | 0 <= k < |s.ring.live| && s.ring.live[k].sub == id ensures s.ring.live[k].seqNo <= s.subs[id].seqNo {
      assert IsLease(s.ring.live[k]);
    }
  }

  lemma {:induction false} OfferKeepsBooks(s: System, s': System, item: Item)
    requires Bookkeeping(s) && |s.ring.live| < s.ring.n
    requires s'.ring == s.ring.(live := s.ring.live + [Slot(item, READY, NO_SEQ)])
    requires s'.offered == s.offered + [item] && s'.retired == s.retired
    requires s'.subs == s.subs && s'.settled == s.settled
    ensures Bookkeeping(s')
  {
    forall id | id in s.subs ensures Leases(s'.ring.live, id) == Leases(s.ring.live, id) {
      LeasesConcat(s.ring.live, [Slot(item, READY, NO_SEQ)], id);
    }
  }

  lemma {:induction false} OfferKeepsAcks(s: System, s': System, slot: Slot)
    requires AckedFirst(s) && FrontOpen(s) && slot.sub == READY
    requires s'.ring.live == s.ring.live + [slot] && s'.retired == s.retired && s'.acked == s.acked
    ensures AckedFirst(s') && FrontOpen(s')
  {
  }

  lemma {:induction false} PushKeeps(s: System, s': System, item: Item, base: map<nat, int>)
    requires Inv(s, base) && |s.ring.live| < s.ring.n
    requires s' == s.(ring := s.ring.(live := s.ring.live + [Slot(item, READY, NO_SEQ)]), offered := s.offered + [item])
    ensures Inv(s', base)
  {
    var slot := Slot(item, READY, NO_SEQ);
    OfferKeepsBooks(s, s', item);
    assert s.ring.live[0..] == s.ring.live;
    ReleasedAfterShift(s, s', 0, [slot]);
    OfferKeepsAcks(s, s', slot);
    SourcedKept(s, s', base);
  }

  lemma {:induction false} OfferKeeps(s: System, item: Item, resumed: bool, base: map<nat, int>)
    requires Inv(s, base)
    ensures Inv(AfterOp(s, Offer(item, resumed)), base)
  {
    if OfferOn(s.ring, item, resumed).1 == Offered {
      PushKeeps(s, AfterOp(s, Offer(item, resumed)), item, base);
    }
  }

  /** Live slot `k` becomes `slot`, and subscription `id` becomes `sub`. */
  ghost predicate SlotChanged(s: System, s': System, k: nat, slot: Slot, id: nat, sub: Sub) {
    && id in s.subs && k < |s.ring.live|
    && s'.ring == s.ring.(live := s.ring.live[k := slot])
    && s'.subs == s.subs[id := sub]
    && sub.closed == s.subs[id].closed && sub.id == id
    && slot.item == s.ring.live[k].item
    && s'.offered == s.offered && s'.retired == s.retired
  }

  lemma {:induction false} ChangeKeepsCounted(s: System, s': System, k: nat, slot: Slot, id: nat, sub: Sub)
    requires Counted(s) && LeasesGiven(s) && SlotChanged(s, s', k, slot, id, sub)
    requires s.ring.live[k].sub in {id, READY} && slot.sub in {id, READY, ACK}
    requires sub.inflight == s.subs[id].inflight
             + (if slot.sub == id then 1 else 0) - (if s.ring.live[k].sub == id then 1 else 0)
    ensures Counted(s')
  {
    forall x | x in s'.subs
      ensures if s'.subs[x].closed then Leases(s'.ring.live, x) <= s'.subs[x].inflight
              else Leases(s'.ring.live, x) == s'.subs[x].inflight
    {
      LeasesUpdate(s.ring.live, k, slot, x);
    }
  }

  /** A new lease: its number is above every number this subscription has used. */
  lemma {:induction false} LeaseKeepsBooks(s: System, s': System, k: nat, slot: Slot, id: nat)
    requires Bookkeeping(s) && id in s.subs
    requires SlotChanged(s, s', k, slot, id, Leasing(s.subs[id])) && s'.settled == s.settled
    requires s.ring.live[k].sub == READY && slot.sub == id && slot.seqNo == s.subs[id].seqNo + 1
    ensures Bookkeeping(s')
  {
    ChangeKeepsCounted(s, s', k, slot, id, Leasing(s.subs[id]));
    assert forall i :: 0 <= i < |s.settled| && s.settled[i].0 == id ==> s.settled[i].1 < slot.seqNo;
  }

  lemma {:induction false} LeaseKeeps(s: System, s': System, k: nat, slot: Slot, id: nat, base: map<nat, int>)
    requires Inv(s, base) && id in s.subs
    requires SlotChanged(s, s', k, slot, id, Leasing(s.subs[id]))
    requires s' == s.(ring := s'.ring, subs := s'.subs)
    requires s.ring.live[k].sub == READY && slot.sub == id && slot.seqNo == s.subs[id].seqNo + 1
    ensures Inv(s', base)
  {
    LeaseKeepsBooks(s, s', k, slot, id);
    ReleasedAfterChange(s, s', k, slot);
    SourcedKept(s, s', base);
  }

  lemma {:induction false} NextKeeps(s: System, id: nat, resumed: bool, base: map<nat, int>)
    requires Inv(s, base) && id in s.subs
    ensures Inv(AfterOp(s, Next(id, resumed)), base)
  {
    var s', o := AfterOp(s, Next(id, resumed)), NextOn(s.ring, s.subs[id], resumed).2;
    if o.Leased? {
      LeaseKeeps(s, s', FindReady(s.ring.live, 0), o.slot, id, base);
    } else {
      assert s'.subs == s.subs && s' == s;
    }
  }

  /** A lease is settled: acknowledged or given back. */
  lemma {:induction false} SettleKeepsBooks(s: System, s': System, k: nat, slot: Slot, id: nat)
    requires Bookkeeping(s) && id in s.subs
    requires SlotChanged(s, s', k, slot, id, s.subs[id].(inflight := s.subs[id].inflight - 1))
    requires s.ring.live[k].sub == id && slot.sub in {READY, ACK}
    requires s'.settled == s.settled + [(id, s.ring.live[k].seqNo)]
    ensures Bookkeeping(s')
    ensures (id, s.ring.live[k].seqNo) !in s.settled
  {
    ChangeKeepsCounted(s, s', k, slot, id, s.subs[id].(inflight := s.subs[id].inflight - 1));
    assert IsLease(s.ring.live[k]);
  }

  lemma {:induction false} NackKeeps(s: System, id: nat, seqNo: nat, base: map<nat, int>)
    requires Inv(s, base) && id in s.subs
    ensures Inv(AfterOp(s, Nack(id, seqNo)), base)
  {
    var s', k := AfterOp(s, Nack(id, seqNo)), Find(s.ring.live, id, seqNo, 0);
    if NackOn(s.ring, s.subs[id], seqNo).2.Settled? {
      SettleKeepsBooks(s, s', k, Slot(s.ring.live[k].item, READY, NO_SEQ), id);
      ReleasedAfterChange(s, s', k, Slot(s.ring.live[k].item, READY, NO_SEQ));
      SourcedKept(s, s', base);
    }
  }

  /** The acknowledged slots at the front leave the ring. */
  lemma {:induction false} RetireKeepsBooks(s: System, s': System, done: nat)
    requires Bookkeeping(s) && done <= |s.ring.live|
    requires forall i :: 0 <= i < done ==> s.ring.live[i].sub == ACK
    requires s'.ring == s.ring.(live := s.ring.live[done..]) && s'.retired == s.retired + done
    requires s'.subs == s.subs && s'.settled == s.settled && s'.offered == s.offered
    ensures Bookkeeping(s')
  {
    forall id | id in s.subs ensures Leases(s'.ring.live, id) == Leases(s.ring.live, id) {
      LeasesAfterRetire(s.ring.live, done, id);
    }
  }

  lemma {:induction false} NewCommitsSourced(s: System, s': System, slots: seq<Slot>, sent: seq<Commit>,
                                             base: map<nat, int>)
    requires CommitsSourced(s, base) && Ordered(s)
    requires |slots| <= |s.ring.live| && s'.retired == s.retired + |slots|
    requires forall i :: 0 <= i < |slots| ==> slots[i].item == s.ring.live[i].item
    requires sent == CommitsOf(slots) || sent == []
    requires s'.offered == s.offered && s'.committed == s.committed && s'.channel == s.channel + multiset(sent)
    ensures CommitsSourced(s', base)
  {
    forall c | Sourced(s.offered, s.retired, c) ensures Sourced(s'.offered, s'.retired, c) {
      SourcedLater(s.offered, s.retired, s'.offered, s'.retired, c);
    }
    forall c | c in s'.channel ensures Sourced(s'.offered, s'.retired, c) {
      if c !in s.channel {
        assert c in sent;
        var i :| 0 <= i < |sent| && sent[i] == c;
        assert s'.offered[s.retired + i] == slots[i].item;
      }
    }
  }

  /** An acknowledgement marks its slot, and what is then acknowledged at the front retires. */
  lemma {:induction false} MarkKeepsAcked(s: System, m: System, k: nat, slot: Slot)
    requires AckedFirst(s) && k < |s.ring.live| && m.ring.live == s.ring.live[k := slot]
    requires m.retired == s.retired && m.acked == s.acked + {s.retired + k}
    ensures AckedFirst(m)
  {
  }

  lemma {:induction false} ReleasedAfterAck(s: System, m: System, s': System, k: nat, slot: Slot, done: nat)
    requires ReleasedGone(s) && NumbersStay(s, m) && s.released == m.released == s'.released && s'.subs == m.subs
    requires k < |s.ring.live| && m.ring.live == s.ring.live[k := slot] && slot.sub == ACK
    requires done <= |m.ring.live| && s'.ring.live == m.ring.live[done..]
    ensures ReleasedGone(s')
  {
    ReleasedAfterChange(s, m, k, slot);
    assert m.ring.live[done..] + [] == m.ring.live[done..];
    ReleasedAfterShift(m, s', done, []);
  }

  lemma {:induction false} AckedSlotRetires(s: System, s': System, id: nat, k: nat, done: nat, sent: seq<Commit>,
                                            base: map<nat, int>)
    requires Inv(s, base) && id in s.subs && k < |s.ring.live| && s.ring.live[k].sub == id
    requires var marked := s.ring.live[k := Slot(s.ring.live[k].item, ACK, NO_SEQ)];
             && done == AckedPrefix(marked, 0)
             && (sent == CommitsOf(marked[..done]) || sent == [])
             && s' == s.(ring := s.ring.(live := marked[done..]),
                         subs := s.subs[id := s.subs[id].(inflight := s.subs[id].inflight - 1)],
                         retired := s.retired + done,
                         acked := s.acked + {s.retired + k},
                         settled := s.settled + [(id, s.ring.live[k].seqNo)],
                         channel := s.channel + multiset(sent))
    ensures Inv(s', base)
  {
    var slot := Slot(s.ring.live[k].item, ACK, NO_SEQ);
    var marked := s.ring.live[k := slot];
    var m := s.(ring := s.ring.(live := marked), subs := s'.subs, acked := s'.acked, settled := s'.settled);
    SettleKeepsBooks(s, m, k, slot, id);
    RetireKeepsBooks(m, s', done);
    ReleasedAfterAck(s, m, s', k, slot, done);
    MarkKeepsAcked(s, m, k, slot);
    AckedStays(m, s', done);
    NewCommitsSourced(s, s', marked[..done], sent, base);
  }

  /** What an acknowledgement that finds its lease does to the system. */
  function Acknowledged(s: System, id: nat, k: nat): System
    requires id in s.subs && k < |s.ring.live|
  {
    var (ring, commits) := AckAt(s.ring, k);
    s.(ring := ring,
       subs := s.subs[id := s.subs[id].(inflight := s.subs[id].inflight - 1)],
       retired := s.retired + AckedPrefix(s.ring.live[k := Slot(s.ring.live[k].item, ACK, NO_SEQ)], 0),
       acked := s.acked + {s.retired + k},
       settled := s.settled + [(id, s.ring.live[k].seqNo)],
       channel := s.channel + multiset(commits))
  }

  lemma {:induction false} AckOpIs(s: System, id: nat, seqNo: nat)
    requires LeasesGiven(s) && id in s.subs
    ensures var k := Find(s.ring.live, id, seqNo, 0);
            AfterOp(s, Ack(id, seqNo)) == if seqNo == 0 || k == |s.ring.live| then s else Acknowledged(s, id, k)
  {
  }

  lemma {:induction false} AcknowledgedKeeps(s: System, id: nat, k: nat, base: map<nat, int>)
    requires Inv(s, base) && id in s.subs && k < |s.ring.live| && s.ring.live[k].sub == id
    ensures Inv(Acknowledged(s, id, k), base)
  {
    var done := AckedPrefix(s.ring.live[k := Slot(s.ring.live[k].item, ACK, NO_SEQ)], 0);
    AckedSlotRetires(s, Acknowledged(s, id, k), id, k, done, AckAt(s.ring, k).1, base);
  }

  lemma {:induction false} AckKeeps(s: System, id: nat, seqNo: nat, base: map<nat, int>)
    requires Inv(s, base) && id in s.subs
    ensures Inv(AfterOp(s, Ack(id, seqNo)), base)
  {
    AckOpIs(s, id, seqNo);
    var k := Find(s.ring.live, id, seqNo, 0);
    if seqNo != 0 && k < |s.ring.live| {
      AcknowledgedKeeps(s, id, k, base);
    }
  }

  lemma {:induction false} AckedStays(s: System, s': System, done: nat)
    requires AckedFirst(s) && s'.acked == s.acked && done == AckedPrefix(s.ring.live, 0)
    requires s'.ring.live == s.ring.live[done..] && s'.retired == s.retired + done
    ensures AckedFirst(s') && FrontOpen(s')
  {
    forall t: nat | t < s'.retired ensures t in s'.acked {
      if t >= s.retired {
        assert s.ring.live[t - s.retired].sub == ACK;
      }
    }
    forall i | 0 <= i < |s'.ring.live| && s'.ring.live[i].sub == ACK ensures s'.retired + i in s'.acked {
      assert s.ring.live[done + i].sub == ACK;
    }
  }

  lemma {:induction false} CloseKeeps(s: System, id: nat, base: map<nat, int>)
    requires Inv(s, base) && id in s.subs
    ensures Inv(AfterOp(s, CloseSubscription(id)), base)
  {
    var s' := AfterOp(s, CloseSubscription(id));
    CloseKeepsBooks(s, s', id);
    CloseReleases(s, s', id);
    SourcedKept(s, s', base);
  }

  lemma {:induction false} CloseKeepsBooks(s: System, s': System, id: nat)
    requires Bookkeeping(s) && id in s.subs
    requires s'.ring == s.ring.(live := Released(s.ring.live, id))
    requires s'.subs == s.subs[id := s.subs[id].(closed := true)]
    requires s'.settled == s.settled && s'.offered == s.offered && s'.retired == s.retired
    ensures Bookkeeping(s')
  {
    forall x | x in s.subs
      ensures Leases(s'.ring.live, x) == if x == id then 0 else Leases(s.ring.live, x)
    {
      LeasesReleased(s.ring.live, id, x);
    }
    assert Counted(s') by {
      assert Leases(s.ring.live, id) >= 0;
    }
    forall k | 0 <= k < |s'.ring.live| && IsLease(s'.ring.live[k]) ensures s'.ring.live[k] == s.ring.live[k] {
    }
  }

  lemma {:induction false} SubscribeKeepsBooks(s: System, s': System, id: nat)
    requires Bookkeeping(s) && 0 < id < READY && id !in s.subs
    requires s' == s.(subs := s.subs[id := Sub(id, 0, 0, 0, true, false, 0)])
    ensures Bookkeeping(s')
  {
    forall k | 0 <= k < |s.ring.live| ensures s.ring.live[k].sub != id {
      assert IsLease(s.ring.live[k]) ==> s.ring.live[k].sub in s.subs;
    }
    LeasesNone(s.ring.live, id);
  }

  lemma {:induction false} ConfigureKeepsBooks(s: System, s': System, id: nat, sub: Sub)
    requires Bookkeeping(s) && id in s.subs && s' == s.(subs := s.subs[id := sub])
    requires sub.id == id && sub.inflight == s.subs[id].inflight && sub.closed == s.subs[id].closed
    requires sub.seqNo == s.subs[id].seqNo
    ensures Bookkeeping(s')
  {
  }

  lemma {:induction false} ReceiveKeeps(s: System, s': System, c: Commit, base: map<nat, int>)
    requires CommitsSourced(s, base) && c in s.channel
    requires s' == s.(channel := s.channel - multiset{c}, committed := Merge(s.committed, c))
    ensures CommitsSourced(s', base)
  {
    forall g | g in s'.committed
      ensures (g in base && s'.committed[g] == base[g])
              || Sourced(s'.offered, s'.retired, Commit(g, s'.committed[g]))
    {
      if g == c.segment && s'.committed[g] == c.commitOffset {
        assert Commit(g, s'.committed[g]) == c;
      } else {
        assert g in s.committed && s'.committed[g] == s.committed[g];
      }
    }
  }

  lemma {:induction false} MemberOpKeeps(s: System, op: Op, id: nat, base: map<nat, int>)
    requires Inv(s, base) && Enabled(s, op) && (op.Subscribe? || op.Configure?) && op.id == id
    ensures Inv(AfterOp(s, op), base)
  {
    if op.Subscribe? {
      SubscribeKeepsBooks(s, AfterOp(s, op), id);
    } else {
      ConfigureKeepsBooks(s, AfterOp(s, op), id, AfterOp(s, op).subs[id]);
    }
  }

  /** Nothing of the queue, the subscriptions or the records of leases has changed. */
  ghost predicate SameQueue(s: System, s': System) {
    && s'.ring.live == s.ring.live && s'.ring.n == s.ring.n && s'.subs == s.subs && s'.settled == s.settled
    && s'.released == s.released && s'.offered == s.offered && s'.retired == s.retired && s'.acked == s.acked
  }

  lemma {:induction false} SameQueueKeeps(s: System, s': System)
    requires Bookkeeping(s) && ReleasedGone(s) && AckedFirst(s) && FrontOpen(s) && SameQueue(s, s')
    ensures Bookkeeping(s') && ReleasedGone(s') && AckedFirst(s') && FrontOpen(s')
  {
  }

  lemma {:induction false} GroupOpKeeps(s: System, op: Op, base: map<nat, int>)
    requires Inv(s, base) && Enabled(s, op) && (op.CloseGroup? || op.Receive?)
    ensures Inv(AfterOp(s, op), base)
  {
    SameQueueKeeps(s, AfterOp(s, op));
    if op.Receive? {
      ReceiveKeeps(s, AfterOp(s, op), op.c, base);
    } else {
      SourcedKept(s, AfterOp(s, op), base);
    }
  }

  lemma {:induction false} OpKeeps(s: System, op: Op, base: map<nat, int>)
    requires Inv(s, base) && Enabled(s, op)
    ensures Inv(AfterOp(s, op), base)
  {
    match op {
      case Offer(item, resumed) => OfferKeeps(s, item, resumed, base);
      case Subscribe(id) => MemberOpKeeps(s, op, id, base);
      case Next(id, resumed) => NextKeeps(s, id, resumed, base);
      case Ack(id, seqNo) => AckKeeps(s, id, seqNo, base);
      case Nack(id, seqNo) => NackKeeps(s, id, seqNo, base);
      case CloseSubscription(id) => CloseKeeps(s, id, base);
      case CloseGroup => GroupOpKeeps(s, op, base);
      case Configure(id, _, _, _) => MemberOpKeeps(s, op, id, base);
      case Receive(c) => GroupOpKeeps(s, op, base);
    }
  }

  // ---------------------------------------------------------------- whole runs

  predicate IsRun(s: System, ops: seq<Op>)
    decreases |ops|
  {
    ops == [] || (Enabled(s, ops[0]) && IsRun(AfterOp(s, ops[0]), ops[1..]))
  }

  function AfterRun(s: System, ops: seq<Op>): System
    requires IsRun(s, ops)
    decreases |ops|
  {
    if ops == [] then s else AfterRun(AfterOp(s, ops[0]), ops[1..])
  }

  function Start(n: nat, base: map<nat, int>): System {
    System(Ring(n, [], false, true), map[], [], 0, {}, [], multiset{}, base, {})
  }

  lemma {:induction false} RunKeeps(s: System, ops: seq<Op>, base: map<nat, int>)
    requires Inv(s, base) && IsRun(s, ops)
    ensures Inv(AfterRun(s, ops), base)
    decreases |ops|
  {
    if ops != [] {
      OpKeeps(s, ops[0], base);
      RunKeeps(AfterOp(s, ops[0]), ops[1..], base);
    }
  }

  /** Whatever the interleaving, the ring is a queue: what has retired followed by what is live is what
      was offered, in order, with at most `n` messages live; every lease and every count is right. */
  lemma {:induction false} RingIsAQueue(n: nat, base: map<nat, int>, ops: seq<Op>)
    requires IsRun(Start(n, base), ops)
    ensures Inv(AfterRun(Start(n, base), ops), base)
  {
    RunKeeps(Start(n, base), ops, base);
  }

  // ---------------------------------------------------------------- consequences

  /** A lease goes to the oldest ready message, within the subscription's limits, under a number it
      has never used; nothing else changes hands. */
  lemma {:induction false} NextLeasesOldestReady(s: System, id: nat, resumed: bool, base: map<nat, int>)
    requires Inv(s, base) && id in s.subs
    requires NextOn(s.ring, s.subs[id], resumed).2.Leased?
    ensures var s', slot := AfterOp(s, Next(id, resumed)), NextOn(s.ring, s.subs[id], resumed).2.slot;
            exists k: nat ::
              && k < |s.ring.live| && s.ring.live[k].sub == READY
              && (forall i :: 0 <= i < k ==> s.ring.live[i].sub != READY)
              && slot.item == s.offered[s.retired + k]
              && s'.ring.live == s.ring.live[k := slot]
              && (id, slot.seqNo) !in s.settled && (id, slot.seqNo) !in s.released
              && (s'.subs[id].size > 0 ==> s'.subs[id].inflight <= s'.subs[id].size)
  {
    var k := FindReady(s.ring.live, 0);
    assert s.ring.live[k].sub == READY;
    assert forall i :: 0 <= i < |s.settled| && s.settled[i].0 == id ==> s.settled[i].1 <= s.subs[id].seqNo;
  }

  /** Once settled, or once released by closing its subscription, a lease can never be settled again: the
      call is refused and nothing changes, even if the subscription has leased the message anew. */
  lemma {:induction false} StaleSettleRefused(s: System, id: nat, seqNo: nat, base: map<nat, int>)
    requires Inv(s, base) && id in s.subs
    requires (id, seqNo) in s.settled || (id, seqNo) in s.released
    ensures AfterOp(s, Ack(id, seqNo)) == s == AfterOp(s, Nack(id, seqNo))
    ensures !AckOn(s.ring, s.subs[id], seqNo).2.Settled? && !NackOn(s.ring, s.subs[id], seqNo).2.Settled?
  {
    var k := Find(s.ring.live, id, seqNo, 0);
    assert k < |s.ring.live| ==> IsLease(s.ring.live[k]);
  }

  /** Settling a lease never takes the in-flight count below zero. */
  lemma {:induction false} InflightNeverUnderflows(s: System, id: nat, seqNo: nat, base: map<nat, int>)
    requires Inv(s, base) && id in s.subs && Find(s.ring.live, id, seqNo, 0) < |s.ring.live|
    ensures s.subs[id].inflight >= 1
  {
    var k := Find(s.ring.live, id, seqNo, 0);
    LeasesUpdate(s.ring.live, k, Slot(s.ring.live[k].item, READY, NO_SEQ), id);
  }

  /** The offsets of each segment are offered in increasing order, above what was committed before. */
  ghost predicate OffersIncrease(offered: seq<Item>, base: map<nat, int>) {
    && (forall i, j :: 0 <= i < j < |offered| && offered[i].segment == offered[j].segment ==>
          offered[i].commitOffset < offered[j].commitOffset)
    && (forall i :: 0 <= i < |offered| ==> offered[i].commitOffset > Committed(base, offered[i].segment))
  }

  /** However the sends of concurrent acknowledgements are reordered on the channel, a committed offset
      never passes a message that was not acknowledged. */
  lemma {:induction false} CommitsNeverPassUnacked(n: nat, base: map<nat, int>, ops: seq<Op>, t: nat)
    requires IsRun(Start(n, base), ops)
    requires OffersIncrease(AfterRun(Start(n, base), ops).offered, base)
    requires t < |AfterRun(Start(n, base), ops).offered|
    ensures var s := AfterRun(Start(n, base), ops);
            s.offered[t].commitOffset <= Committed(s.committed, s.offered[t].segment) ==> t in s.acked
  {
    RunKeeps(Start(n, base), ops, base);
    CommittedMeansAcked(AfterRun(Start(n, base), ops), base, t);
  }

  lemma {:induction false} CommittedMeansAcked(s: System, base: map<nat, int>, t: nat)
    requires Inv(s, base) && OffersIncrease(s.offered, base) && t < |s.offered|
    ensures s.offered[t].commitOffset <= Committed(s.committed, s.offered[t].segment) ==> t in s.acked
  {
    var g := s.offered[t].segment;
    if s.offered[t].commitOffset <= Committed(s.committed, g) && g in s.committed {
      if !(g in base && s.committed[g] == base[g]) {
        assert Sourced(s.offered, s.retired, Commit(g, s.committed[g]));
        var u: nat :| u < s.retired <= |s.offered| &&
                      s.offered[u].segment == g && s.offered[u].commitOffset == s.committed[g];
        assert t <= u;
      }
    }
  }
}
