/** When each call on a delivery ring succeeds, waits or is refused, and what it then leaves behind. */
module RingAnswers {
  import opened DeliveryRing
  import RingRuns

  predicate HasReady(live: seq<Slot>) {
    exists k :: 0 <= k < |live| && live[k].sub == 0xffff_ffff_ffff_ffff
  }

  predicate Holds(live: seq<Slot>, id: nat, seqNo: nat) {
    seqNo != 0 && exists k :: 0 <= k < |live| && live[k].sub == id && live[k].seqNo == seqNo
  }

  /** An offer succeeds exactly when there is room and the group is open, or was when the offer began to wait. */
  lemma {:induction false} OfferExact(r: Ring, item: Item, resumed: bool)
    ensures var (r', o) := OfferOn(r, item, resumed);
            && (o == Offered <==> |r.live| < r.n && (resumed || !r.closed))
            && (o == OfferWaits <==> |r.live| >= r.n && !r.closed)
            && (o == OfferGroupClosed <==> r.closed && (!resumed || |r.live| >= r.n))
            && (o != Offered ==> r' == r)
            && (o == Offered ==>
                  && r' == r.(live := r'.live) && |r'.live| == |r.live| + 1 && r.live <= r'.live
                  && r'.live[|r.live|].item == item && HasReady(r'.live[|r.live|..]))
  {
    var (r', o) := OfferOn(r, item, resumed);
    if o == Offered {
      assert r'.live[|r.live|..][0].sub == 0xffff_ffff_ffff_ffff;
    }
  }

  /** A lease is given exactly when a message is ready, the limits on leases and messages allow it, and the
      subscription is open, or was when the call began to wait. */
  lemma {:induction false} NextExact(r: Ring, s: Sub, resumed: bool)
    ensures var (r', s', o) := NextOn(r, s, resumed);
            var room := (s.size == 0 || s.inflight < s.size) && (s.maxMessages == 0 || s.seqNo < s.maxMessages);
            var shut := s.closed && (!resumed || (room && !HasReady(r.live)));
            var over := !s.closed && room && r.live == [] && r.closed;
            var done := s.inflight == 0 && (!s.blocking || (s.maxMessages != 0 && s.seqNo >= s.maxMessages));
            && (o.Leased? <==> HasReady(r.live) && room && (resumed || !s.closed))
            && (o == SubscriptionClosed <==> shut)
            && (o == GroupClosed <==> over)
            && (o == NothingLeft <==> !o.Leased? && !shut && !over && done)
            && (o == NextWaits <==> !o.Leased? && !shut && !over && !done)
            && (!o.Leased? ==> r' == r && s' == s)
            && (o.Leased? ==> s' == s.(seqNo := s.seqNo + 1, inflight := s.inflight + 1))
            && (o.Leased? ==> o.slot.sub == s.id && o.slot.seqNo == s.seqNo + 1 && Holds(r'.live, s.id, s.seqNo + 1))
  {
    var k := FindReady(r.live, 0);
    if k < |r.live| {
      assert r.live[k].sub == 0xffff_ffff_ffff_ffff;
      assert LeaseAt(r, s, k).0.live[k] == Slot(r.live[k].item, s.id, s.seqNo + 1);
    }
  }

  /** A lease is settled exactly when a live message is leased under that number; a number of zero is an
      error of its own. */
  lemma {:induction false} SettleExact(r: Ring, s: Sub, seqNo: nat)
    ensures var (_, a, acked) := AckOn(r, s, seqNo);
            var (_, b, nacked) := NackOn(r, s, seqNo);
            && (acked == BadSeqNo <==> seqNo == 0) && (nacked == BadSeqNo <==> seqNo == 0)
            && (acked.Settled? <==> Holds(r.live, s.id, seqNo)) && (nacked.Settled? <==> Holds(r.live, s.id, seqNo))
            && a == b == (if Holds(r.live, s.id, seqNo) then s.(inflight := s.inflight - 1) else s)
            && (nacked.Settled? ==> nacked.commits == [])
    ensures !Holds(r.live, s.id, seqNo) ==> AckOn(r, s, seqNo).0 == r == NackOn(r, s, seqNo).0
  {
  }

  /** A message that is given back is ready again in its place, and no other message changes. */
  lemma {:induction false} NackedIsReady(r: Ring, s: Sub, seqNo: nat) returns (k: nat)
    requires Holds(r.live, s.id, seqNo)
    ensures var r' := NackOn(r, s, seqNo).0;
            && k < |r.live| == |r'.live| && r.live[k].sub == s.id && r.live[k].seqNo == seqNo
            && r' == r.(live := r'.live) && r'.live[k].item == r.live[k].item && HasReady([r'.live[k]])
            && forall i :: 0 <= i < |r.live| && i != k ==> r'.live[i] == r.live[i]
  {
    k := Find(r.live, s.id, seqNo, 0);
    var slot := NackOn(r, s, seqNo).0.live[k];
    assert [slot][0].sub == 0xffff_ffff_ffff_ffff;
  }

  /** A message that is acknowledged stays until everything before it is acknowledged too; then it leaves with
      all acknowledged messages at the front, and with one commit for each while commits are on. */
  lemma {:induction false} AckedLeaves(r: Ring, s: Sub, seqNo: nat) returns (k: nat, done: nat)
    requires Holds(r.live, s.id, seqNo)
    ensures var (r', _, o) := AckOn(r, s, seqNo);
            && k < |r.live| && r.live[k].sub == s.id && r.live[k].seqNo == seqNo
            && done <= |r.live| && r' == r.(live := r'.live) && |r'.live| == |r.live| - done
            && (forall i :: 0 <= i < done ==> i == k || r.live[i].sub == 0)
            && (done < |r.live| ==> done != k && r.live[done].sub != 0)
            && (forall i :: done <= i < |r.live| && i != k ==> r'.live[i - done] == r.live[i])
            && (done <= k ==> r'.live[k - done].item == r.live[k].item && r'.live[k - done].sub == 0)
            && o.Settled? && |o.commits| == (if r.commits then done else 0)
            && forall i :: 0 <= i < |o.commits| ==>
                 o.commits[i].segment == r.live[i].item.segment
                 && o.commits[i].commitOffset == r.live[i].item.commitOffset
  {
    k := Find(r.live, s.id, seqNo, 0);
    var marked := r.live[k := Slot(r.live[k].item, ACK, NO_SEQ)];
    done := AckedPrefix(marked, 0);
    assert forall i :: 0 <= i < done ==> marked[i].sub == ACK && (i == k || marked[i] == r.live[i]);
  }

  // ---------------------------------------------------------------- members of a group

  /** A new subscription has no limits and no leases; configuring changes the limits only. */
  lemma {:induction false} MembersChange(s: RingRuns.System, id: nat, size: nat, maxMessages: nat, blocking: bool)
    requires 0 < id < READY
    ensures id !in s.subs ==>
      var s' := RingRuns.AfterOp(s, RingRuns.Subscribe(id));
      && s' == s.(subs := s'.subs) && s'.subs.Keys == s.subs.Keys + {id}
      && (forall i :: i in s.subs ==> s'.subs[i] == s.subs[i])
      && var m := s'.subs[id];
         m.id == id && m.size == m.inflight == m.maxMessages == m.seqNo == 0 && m.blocking && !m.closed
    ensures id in s.subs ==>
      var s' := RingRuns.AfterOp(s, RingRuns.Configure(id, size, maxMessages, blocking));
      && s' == s.(subs := s'.subs) && s'.subs.Keys == s.subs.Keys
      && (forall i :: i in s.subs && i != id ==> s'.subs[i] == s.subs[i])
      && s'.subs[id] == s.subs[id].(size := size, maxMessages := maxMessages, blocking := blocking)
  {
  }

  /** A closed subscription has no leases any more and takes none; a closed group sends no commits any more. */
  lemma {:induction false} ClosingEnds(s: RingRuns.System, id: nat)
    requires id in s.subs
    ensures var s' := RingRuns.AfterOp(s, RingRuns.CloseSubscription(id));
            && s'.subs.Keys == s.subs.Keys && s'.subs[id] == s.subs[id].(closed := true)
            && (forall i :: i in s.subs && i != id ==> s'.subs[i] == s.subs[i])
            && s'.ring == s.ring.(live := s'.ring.live) && |s'.ring.live| == |s.ring.live|
            && forall k :: 0 <= k < |s.ring.live| ==>
                 if s.ring.live[k].sub == id
                 then s'.ring.live[k].item == s.ring.live[k].item && s'.ring.live[k].sub == 0xffff_ffff_ffff_ffff
                 else s'.ring.live[k] == s.ring.live[k]
    ensures var s' := RingRuns.AfterOp(s, RingRuns.CloseGroup);
            s' == s.(ring := s'.ring) && s'.ring == s.ring.(closed := true, commits := false)
  {
  }
}
