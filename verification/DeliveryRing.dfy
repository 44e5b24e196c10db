/** A consumer group's delivery ring: a circular buffer of messages leased to subscriptions. */
module DeliveryRing {

  const READY: nat := 0xffff_ffff_ffff_ffff
  const ACK: nat := 0
  const NO_SEQ: nat := 0

  datatype Item = Item(segment: nat, commitOffset: int, content: string)

  datatype Commit = Commit(segment: nat, commitOffset: int)

  /** `sub` is the leasing subscription, READY, or ACK for a slot that waits to be retired. */
  datatype Slot = Slot(item: Item, sub: nat, seqNo: nat)

  const EMPTY_SLOT := Slot(Item(0, 0, ""), 0, 0)

  // ---------------------------------------------------------------- specification

  /** A group as a queue of its live slots, oldest first. */
  datatype Ring = Ring(n: nat, live: seq<Slot>, closed: bool, commits: bool)

  datatype Sub = Sub(
    id: nat, size: nat, inflight: int, maxMessages: nat, blocking: bool, closed: bool, seqNo: nat)

  /** The first slot at or after `from` held by `sub` with number `seqNo`, or the length. */
  function Find(live: seq<Slot>, sub: nat, seqNo: nat, from: nat): (k: nat)
    requires from <= |live|
    ensures from <= k <= |live|
    ensures k < |live| ==> live[k].sub == sub && live[k].seqNo == seqNo
    ensures forall i :: from <= i < k ==> live[i].sub != sub || live[i].seqNo != seqNo
    decreases |live| - from
  {
    if from == |live| || (live[from].sub == sub && live[from].seqNo == seqNo) then from
    else Find(live, sub, seqNo, from + 1)
  }

  /** The first slot at or after `from` that is ready, or the length. */
  function FindReady(live: seq<Slot>, from: nat): (k: nat)
    requires from <= |live|
    ensures from <= k <= |live|
    ensures k < |live| ==> live[k].sub == READY
    ensures forall i :: from <= i < k ==> live[i].sub != READY
    decreases |live| - from
  {
    if from == |live| || live[from].sub == READY then from else FindReady(live, from + 1)
  }

  /** How many slots from the front on are acknowledged. */
  function AckedPrefix(live: seq<Slot>, from: nat): (k: nat)
    requires from <= |live|
    ensures from <= k <= |live|
    ensures k < |live| ==> live[k].sub != ACK
    ensures forall i :: from <= i < k ==> live[i].sub == ACK
    decreases |live| - from
  {
    if from == |live| || live[from].sub != ACK then from else AckedPrefix(live, from + 1)
  }

  lemma {:induction false} AckedPrefixIs(live: seq<Slot>, k: nat)
    requires k <= |live| && (forall i :: 0 <= i < k ==> live[i].sub == ACK)
    requires k < |live| ==> live[k].sub != ACK
    ensures AckedPrefix(live, 0) == k
  {
  }

  function CommitsOf(slots: seq<Slot>): seq<Commit> {
    seq(|slots|, i requires 0 <= i < |slots| => Commit(slots[i].item.segment, slots[i].item.commitOffset))
  }

  lemma {:induction false} CommitsOfNext(slots: seq<Slot>, k: nat)
    requires k < |slots|
    ensures CommitsOf(slots[..k + 1]) ==
            CommitsOf(slots[..k]) + [Commit(slots[k].item.segment, slots[k].item.commitOffset)]
  {
  }

  datatype OfferOutcome = Offered | OfferGroupClosed | OfferWaits

  /** An offer that was parked is not refused by a closed group unless the ring is still full. */
  function OfferOn(r: Ring, item: Item, resumed: bool): (Ring, OfferOutcome) {
    if r.closed && !resumed then (r, OfferGroupClosed)
    else if |r.live| >= r.n then (r, if r.closed then OfferGroupClosed else OfferWaits)
    else (r.(live := r.live + [Slot(item, READY, NO_SEQ)]), Offered)
  }

  datatype NextOutcome = Leased(slot: Slot) | SubscriptionClosed | GroupClosed | NothingLeft | NextWaits

  predicate MayLease(s: Sub) {
    (s.size == 0 || s.inflight < s.size) && (s.maxMessages == 0 || s.seqNo < s.maxMessages)
  }

  predicate GivesUp(s: Sub) {
    s.inflight == 0 && (!s.blocking || (s.maxMessages != 0 && s.seqNo >= s.maxMessages))
  }

  function Leasing(s: Sub): Sub {
    s.(seqNo := s.seqNo + 1, inflight := s.inflight + 1)
  }

  /** Leasing the slot at distance `k` under the subscription's next number. */
  function LeaseAt(r: Ring, s: Sub, k: nat): (Ring, Sub, NextOutcome)
    requires k < |r.live|
  {
    var slot := Slot(r.live[k].item, s.id, s.seqNo + 1);
    (r.(live := r.live[k := slot]), Leasing(s), Leased(slot))
  }

  /** A call that was parked is not refused because its subscription was closed meanwhile, as long as
      a message is ready. */
  function NextOn(r: Ring, s: Sub, resumed: bool): (Ring, Sub, NextOutcome) {
    if s.closed && !resumed then (r, s, SubscriptionClosed)
    else
      var k := FindReady(r.live, 0);
      if MayLease(s) && k < |r.live| then LeaseAt(r, s, k)
      else if MayLease(s) && s.closed then (r, s, SubscriptionClosed)
      else if MayLease(s) && r.live == [] && r.closed then (r, s, GroupClosed)
      else if GivesUp(s) then (r, s, NothingLeft)
      else (r, s, NextWaits)
  }

  datatype SettleOutcome = BadSeqNo | NotLeased | Settled(commits: seq<Commit>)

  /** The acknowledged slots at the front leave the queue, and their commits are sent on. */
  function Retired(r: Ring): (Ring, seq<Commit>) {
    var done := AckedPrefix(r.live, 0);
    (r.(live := r.live[done..]), if r.commits then CommitsOf(r.live[..done]) else [])
  }

  function AckOn(r: Ring, s: Sub, seqNo: nat): (Ring, Sub, SettleOutcome) {
    var k := Find(r.live, s.id, seqNo, 0);
    if seqNo == 0 then (r, s, BadSeqNo)
    else if k == |r.live| then (r, s, NotLeased)
    else
      var (r', commits) := AckAt(r, k);
      (r', s.(inflight := s.inflight - 1), Settled(commits))
  }

  /** Acknowledging the slot at distance `k` and retiring what can be. */
  function AckAt(r: Ring, k: nat): (Ring, seq<Commit>)
    requires k < |r.live|
  {
    Retired(r.(live := r.live[k := Slot(r.live[k].item, ACK, NO_SEQ)]))
  }

  function NackOn(r: Ring, s: Sub, seqNo: nat): (Ring, Sub, SettleOutcome) {
    var k := Find(r.live, s.id, seqNo, 0);
    if seqNo == 0 then (r, s, BadSeqNo)
    else if k == |r.live| then (r, s, NotLeased)
    else (r.(live := r.live[k := Slot(r.live[k].item, READY, NO_SEQ)]), s.(inflight := s.inflight - 1), Settled([]))
  }

  function Release(slot: Slot, id: nat): Slot {
    if slot.sub == id then Slot(slot.item, READY, NO_SEQ) else slot
  }

  function Released(live: seq<Slot>, id: nat): (l: seq<Slot>)
    ensures |l| == |live|
  {
    seq(|live|, i requires 0 <= i < |live| => Release(live[i], id))
  }

  // ---------------------------------------------------------------- the ring

  /** The next index of a circular buffer. */
  function After(j: nat, length: nat): (r: nat)
    requires j < length
    ensures r == if j + 1 == length then 0 else j + 1
  {
    (j + 1) % length
  }

  /** The buffer index of the live slot at distance `k` from the oldest. */
  function At(read: nat, k: nat, length: nat): (j: nat)
    requires read < length && k < length
    ensures j < length
  {
    if read + k < length then read + k else read + k - length
  }

  /** How many slots lie between two indices of a circular buffer. */
  function Between(read: nat, write: nat, length: nat): (c: nat)
    requires read < length && write < length
    ensures c < length
  {
    if read <= write then write - read else write + length - read
  }

  /** `live` are the live slots, oldest first. */
  class Group {
    const n: nat
    const messages: array<Slot>
    var read: nat
    var write: nat
    var closed: bool
    var commits: bool
    ghost var live: seq<Slot>

    ghost predicate Valid()
      reads this, messages
    {
      && n >= 1 && messages.Length == n + 1
      && read < messages.Length && write < messages.Length
      && |live| == Between(read, write, messages.Length)
      && forall k :: 0 <= k < |live| ==> live[k] == messages[At(read, k, messages.Length)]
    }

    ghost function View(): Ring
      reads this
    {
      Ring(n, live, closed, commits)
    }

    constructor (n: nat)
      requires n >= 1
      ensures Valid() && View() == Ring(n, [], false, false) && fresh(messages)
    {
      this.n := n;
      messages := new Slot[n + 1](_ => EMPTY_SLOT);
      read, write, closed, commits, live := 0, 0, false, false, [];
    }

    method Offer(item: Item, resumed: bool) returns (o: OfferOutcome)
      requires Valid()
      modifies this`write, this`live, messages
      ensures Valid()
      ensures (View(), o) == OfferOn(old(View()), item, resumed)
    {
      if closed && !resumed {
        return OfferGroupClosed;
      }
      if After(write, messages.Length) == read {
        return if closed then OfferGroupClosed else OfferWaits;
      }
      messages[write] := Slot(item, READY, NO_SEQ);
      write := After(write, messages.Length);
      live := live + [Slot(item, READY, NO_SEQ)];
      return Offered;
    }

    method Close()
      requires Valid()
      modifies this`closed, this`commits
      ensures Valid() && View() == old(View()).(closed := true, commits := false)
    {
      closed, commits := true, false;
    }

    /** Looks for a slot from the oldest on; `wanted` READY looks for any ready slot. */
    method Search(wanted: nat, seqNo: nat) returns (j: nat, found: bool, ghost k: nat)
      requires Valid()
      ensures k == if wanted == READY then FindReady(live, 0) else Find(live, wanted, seqNo, 0)
      ensures found == (k < |live|)
      ensures found ==> j == At(read, k, messages.Length)
    {
      j, k := read, 0;
      while j != write
        invariant k <= |live| && j < messages.Length
        invariant j == if k < |live| then At(read, k, messages.Length) else write
        invariant wanted == READY ==> FindReady(live, 0) == FindReady(live, k)
        invariant wanted != READY ==> Find(live, wanted, seqNo, 0) == Find(live, wanted, seqNo, k)
        decreases |live| - k
      {
        var slot := messages[j];
        if slot.sub == wanted && (wanted == READY || slot.seqNo == seqNo) {
          return j, true, k;
        }
        j, k := After(j, messages.Length), k + 1;
      }
      found := false;
    }

    /** Changes one live slot. */
    method Update(j: nat, ghost k: nat, sub: nat, seqNo: nat)
      requires Valid() && k < |live| && j == At(read, k, messages.Length)
      modifies this`live, messages
      ensures Valid() && live == old(live)[k := Slot(old(live)[k].item, sub, seqNo)]
      ensures messages[j] == live[k]
    {
      messages[j] := Slot(messages[j].item, sub, seqNo);
      live := live[k := messages[j]];
    }

    /** Makes every slot leased to a subscription ready again. */
    method ReleaseAll(id: nat)
      requires Valid()
      modifies this`live, messages
      ensures Valid() && live == Released(old(live), id)
    {
      ghost var was := live;
      var j := read;
      ghost var k := 0;
      while j != write
        invariant Valid() && k <= |live| == |was| && j < messages.Length
        invariant j == if k < |live| then At(read, k, messages.Length) else write
        invariant forall i :: 0 <= i < |live| ==> live[i] == if i < k then Release(was[i], id) else was[i]
        decreases |live| - k
      {
        if messages[j].sub == id {
          Update(j, k, READY, NO_SEQ);
        }
        j, k := After(j, messages.Length), k + 1;
      }
    }

    /** Clears the acknowledged slots at the front, oldest first. */
    method ClearAcked() returns (retired: seq<Commit>, j: nat, ghost k: nat)
      requires Valid()
      modifies messages
      ensures k == AckedPrefix(live, 0)
      ensures j == if k < |live| then At(read, k, messages.Length) else write
      ensures forall i :: k <= i < |live| ==> live[i] == messages[At(read, i, messages.Length)]
      ensures retired == if commits then CommitsOf(live[..k]) else []
    {
      retired, j, k := [], read, 0;
      while j != write && messages[j].sub == ACK
        invariant k <= |live| && j < messages.Length
        invariant j == if k < |live| then At(read, k, messages.Length) else write
        invariant forall i :: k <= i < |live| ==> live[i] == messages[At(read, i, messages.Length)]
        invariant forall i :: 0 <= i < k ==> live[i].sub == ACK
        invariant retired == if commits then CommitsOf(live[..k]) else []
        decreases |live| - k
      {
        assert messages[j] == live[k];
        if commits {
          retired := retired + [Commit(messages[j].item.segment, messages[j].item.commitOffset)];
          CommitsOfNext(live, k);
        }
        messages[j] := EMPTY_SLOT;
        j, k := After(j, messages.Length), k + 1;
      }
      AckedPrefixIs(live, k);
    }

    /** Retires the acknowledged slots at the front. */
    method Retire() returns (retired: seq<Commit>)
      requires Valid()
      modifies this`read, this`live, messages
      ensures Valid()
      ensures (View(), retired) == Retired(old(View()))
    {
      var j;
      ghost var k;
      retired, j, k := ClearAcked();
      read := j;
      live := live[k..];
    }
  }

  /** A ring needs room for at least one message. */
  method NewGroup(n: int) returns (g: Group?)
    ensures g == null <==> n < 1
    ensures g != null ==> g.Valid() && fresh(g) && fresh(g.messages) && g.View() == Ring(n, [], false, false)
  {
    if n < 1 {
      return null;
    }
    g := new Group(n);
  }

  class Subscription {
    const id: nat
    const group: Group
    var size: nat
    var inflight: int
    var maxMessages: nat
    var blocking: bool
    var closed: bool
    var seqNo: nat

    ghost predicate Valid()
      reads this, group, group.messages
    {
      0 < id < READY && group.Valid()
    }

    function View(): Sub
      reads this
    {
      Sub(id, size, inflight, maxMessages, blocking, closed, seqNo)
    }

    constructor (group: Group, id: nat)
      requires group.Valid() && 0 < id < READY
      ensures Valid() && this.group == group && View() == Sub(id, 0, 0, 0, true, false, 0)
    {
      this.id, this.group := id, group;
      size, inflight, maxMessages, blocking, closed, seqNo := 0, 0, 0, true, false, 0;
    }

    method SetSize(size: nat)
      requires Valid()
      modifies this
      ensures Valid() && View() == old(View()).(size := size)
    {
      this.size := size;
    }

    method SetMaxMessages(maxMessages: nat)
      requires Valid()
      modifies this
      ensures Valid() && View() == old(View()).(maxMessages := maxMessages)
    {
      this.maxMessages := maxMessages;
    }

    method SetBlocking(blocking: bool)
      requires Valid()
      modifies this
      ensures Valid() && View() == old(View()).(blocking := blocking)
    {
      this.blocking := blocking;
    }

    /** Takes the slot at `j` under the next number. */
    method Lease(j: nat, ghost k: nat) returns (slot: Slot)
      requires Valid() && k < |group.live| && j == At(group.read, k, group.messages.Length)
      modifies this, group`live, group.messages
      ensures Valid() && slot == Slot(old(group.live)[k].item, id, old(seqNo) + 1)
      ensures group.View() == old(group.View()).(live := old(group.live)[k := slot])
      ensures View() == Leasing(old(View()))
    {
      seqNo := seqNo + 1;
      group.Update(j, k, id, seqNo);
      inflight := inflight + 1;
      slot := group.messages[j];
    }

    /** One pass through the wait loop; `resumed` continues a call that was parked. */
    method Next(resumed: bool) returns (o: NextOutcome)
      requires Valid()
      modifies this, group`live, group.messages
      ensures Valid()
      ensures (group.View(), View(), o) == NextOn(old(group.View()), old(View()), resumed)
    {
      if closed && !resumed {
        return SubscriptionClosed;
      }
      ghost var r, s := group.View(), View();
      if MayLease(View()) {
        var j, found, k := group.Search(READY, NO_SEQ);
        assert k == FindReady(r.live, 0);
        if found {
          var slot := Lease(j, k);
          return Leased(slot);
        }
        if closed {
          return SubscriptionClosed;
        }
        if group.read == group.write && group.closed {
          return GroupClosed;
        }
      }
      if GivesUp(View()) {
        return NothingLeft;
      }
      return NextWaits;
    }

    /** Gives the slot at `j` a new status, which ends its lease. */
    method Settle(j: nat, ghost k: nat, status: nat)
      requires Valid() && k < |group.live| && j == At(group.read, k, group.messages.Length)
      modifies this, group`live, group.messages
      ensures Valid() && View() == old(View()).(inflight := old(inflight) - 1)
      ensures group.View()
           == old(group.View()).(live := old(group.live)[k := Slot(old(group.live)[k].item, status, NO_SEQ)])
    {
      group.Update(j, k, status, NO_SEQ);
      inflight := inflight - 1;
    }

    method AckSlot(j: nat, ghost k: nat) returns (commits: seq<Commit>)
      requires Valid() && k < |group.live| && j == At(group.read, k, group.messages.Length)
      modifies this, group`read, group`live, group.messages
      ensures Valid() && View() == old(View()).(inflight := old(inflight) - 1)
      ensures (group.View(), commits) == AckAt(old(group.View()), k)
    {
      Settle(j, k, ACK);
      commits := group.Retire();
    }

    method Ack(n: nat) returns (o: SettleOutcome)
      requires Valid()
      modifies this, group`read, group`live, group.messages
      ensures Valid()
      ensures (group.View(), View(), o) == AckOn(old(group.View()), old(View()), n)
    {
      if n == 0 {
        return BadSeqNo;
      }
      ghost var r, s := group.View(), View();
      var j, found, k := group.Search(id, n);
      assert k == Find(r.live, s.id, n, 0);
      if !found {
        return NotLeased;
      }
      var commits := AckSlot(j, k);
      return Settled(commits);
    }

    method Nack(n: nat) returns (o: SettleOutcome)
      requires Valid()
      modifies this, group`live, group.messages
      ensures Valid()
      ensures (group.View(), View(), o) == NackOn(old(group.View()), old(View()), n)
    {
      if n == 0 {
        return BadSeqNo;
      }
      var j, found, k := group.Search(id, n);
      if !found {
        return NotLeased;
      }
      Settle(j, k, READY);
      return Settled([]);
    }

    /** Gives the leased slots back; the in-flight count is left as it is. */
    method Close()
      requires Valid()
      modifies this, group`live, group.messages
      ensures Valid()
      ensures group.View() == old(group.View()).(live := Released(old(group.live), id))
      ensures View() == old(View()).(closed := true)
    {
      group.ReleaseAll(id);
      closed := true;
    }
  }
}
