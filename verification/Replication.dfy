/** Bringing a replica in line with the node it replicates from, whatever it held before. */
module Replication {
  import opened Wrappers
  import opened Framing
  import opened SegmentFile
  import opened SegmentIterator
  import opened ReaderRuns

  // ---------------------------------------------------------------- record boundaries

  /** Every record was begun while the file was below its maximum size. */
  ghost predicate Within(ms: seq<Message>, maxSize: int) {
    forall k :: 0 <= k < |ms| ==> Position(ms, k) < maxSize
  }

  /** A file whose records are all whole and that is a byte prefix of a log ends on a record boundary
      of that log. */
  lemma {:induction false} WholeRecordPrefix(d: seq<Byte>, ms: seq<Message>, k: nat) returns (k': nat)
    requires d <= Disk(ms) && |Disk(ms)| <= MAX_INT64
    requires k <= |ms| && Position(ms, k) <= |d|
    requires ScanFrom(d, Position(ms, k)) == Opened(d)
    ensures k <= k' <= |ms| && |d| == Position(ms, k') && d == Disk(ms[..k'])
    decreases |ms| - k
  {
    var p := Position(ms, k);
    PositionEnds(ms);
    if p == |d| {
      assert d == Disk(ms)[..p];
      if k < |ms| {
        FrameAt(ms, k);
      } else {
        assert ms[..k] == ms && Disk(ms)[..p] == Disk(ms);
      }
      return k;
    }
    var m, q := ms[k], Position(ms, k + 1);
    assert q == p + |Frame(m)| <= |Disk(ms)| && StandsAt(d, p, |d|, Frame(m)) by {
      FrameIn(ms, Disk(ms), k);
    }
    if q <= |d| {
      PeekRecord(d, p, |d|, m);
      ScanRecord(d, p, q);
      k' := WholeRecordPrefix(d, ms, k + 1);
    } else {
      ScanTorn(d, p, m);
      assert false;
    }
  }

  ghost predicate OnBoundary(d: seq<Byte>, ms: seq<Message>) {
    exists k: nat :: k <= |ms| && d == Disk(ms[..k])
  }

  /** A byte prefix of a log ends on a record boundary exactly when it would open unchanged. */
  lemma {:induction false} BoundaryExact(d: seq<Byte>, ms: seq<Message>)
    requires d <= Disk(ms) && |Disk(ms)| <= MAX_INT64
    ensures OnBoundary(d, ms) <==> Recover(d) == Opened(d)
  {
    if Recover(d) == Opened(d) {
      var k := WholeRecordPrefix(d, ms, 0);
    }
    if OnBoundary(d, ms) {
      var k: nat :| k <= |ms| && d == Disk(ms[..k]);
      RecoverLog(ms[..k]);
    }
  }

  /** The same in terms of the bytes `c` that were found on disk: no length prefix that the scan met
      reaches past the place where the file was cut. */
  lemma {:induction false} FoundBytesExact(c: seq<Byte>, ms: seq<Message>)
    requires 1 <= |c| <= MAX_INT64 && |Disk(ms)| <= MAX_INT64
    requires Recover(c).Opened? && Recover(c).data <= Disk(ms)
    ensures |Recover(c).data| <= |c|
    ensures OnBoundary(Recover(c).data, ms) <==> PrefixesWithin(c, 1, |Recover(c).data|)
  {
    ReopenExact(c);
    BoundaryExact(Recover(c).data, ms);
  }

  /** Why the replica's file must reopen unchanged: a length prefix just below 2^64 makes the scan step
      less than the prefix's own ten bytes, and opening can then leave a file that ends inside a
      length prefix. Such a file agrees with a source log without ending on one of its records. */
  lemma {:induction false} MisalignedLeftover(m: Message)
    requires |m| == 247
    ensures var c := [VERSION, 0xf7, 0xff, 0xff, 0xff, 0xff, 0xff, 0xff, 0xff, 0xff, 1];
            var d := [VERSION, 0xf7];
            && Recover(c) == Opened(d) && Recover(d) != Opened(d)
            && d <= Disk([m]) && (forall k: nat :: k <= 1 ==> d != Disk([m][..k]))
  {
    var c: seq<Byte> := [VERSION, 0xf7, 0xff, 0xff, 0xff, 0xff, 0xff, 0xff, 0xff, 0xff, 1];
    var d: seq<Byte> := [VERSION, 0xf7];
    var last := LengthFrom(c, 1, 11, 9);
    assert last == Decoded(1, 10);
    assert LengthFrom(c, 1, 11, 7) == Decoded(127 + 128 * 127 + 16384, 10);
    assert LengthFrom(c, 1, 11, 5).n == 10;
    assert LengthFrom(c, 1, 11, 3).n == 10;
    assert LengthFrom(c, 1, 11, 1).n == 10;
    assert Peek(c, 1, 11) == Decoded(TWO_64 - 9, 10);
    assert LengthFrom(c, 2, 11, 8) == Decoded(1, 9);
    assert LengthFrom(c, 2, 11, 6) == Decoded(127 + 128 * 127 + 16384, 9);
    assert LengthFrom(c, 2, 11, 4).n == 9;
    assert LengthFrom(c, 2, 11, 2).n == 9;
    assert Peek(c, 2, 11) == Decoded(0x1ff_ffff_ffff_ffff, 9);
    assert ScanFrom(c, 2) == Opened(c[..2]);
    assert c[..2] == d;
    assert Peek(d, 1, 2) == Decoded(0, 0);
    assert PutUvarint(247) == [0xf7, 1];
    FramesAppend([], m);
    assert [] + [m] == [m];
    assert [m][..1] == [m] && [m][..0] == [];
  }

  // ---------------------------------------------------------------- the protocol

  datatype SyncResult = Completed | CutOff | TruncateFailed | RequestFailed | ReceiveFailed | WriteFailed

  function TotalFrames(ms: seq<Message>): nat {
    |Frames(ms)|
  }

  /** The source takes these writes, each unless it is full by then. */
  method WriteAll(source: File, batch: seq<Message>, ghost ms: seq<Message>) returns (ghost now: seq<Message>)
    requires source.Valid() && source.data == Disk(ms) && Within(ms, source.maxSize)
    modifies source
    ensures source.Valid() && source.term == old(source.term)
    ensures ms <= now && |Disk(now)| <= |Disk(ms)| + TotalFrames(batch)
    ensures source.data == Disk(now) && Within(now, source.maxSize)
    ensures now == ms || |Disk(ms)| < source.maxSize
    ensures batch == [] ==> now == ms
  {
    now := ms;
    for j := 0 to |batch|
      invariant source.Valid() && source.term == old(source.term)
      invariant ms <= now && |Disk(now)| <= |Disk(ms)| + TotalFrames(batch[..j])
      invariant source.data == Disk(now) && Within(now, source.maxSize)
      invariant now == ms || |Disk(ms)| < source.maxSize
      invariant j == 0 ==> now == ms
    {
      var m := batch[j];
      assert batch[..j + 1] == batch[..j] + [m];
      FramesAppend(batch[..j], m);
      FramesAppend(now, m);
      WithinAppend(now, m, source.maxSize);
      WrittenLonger(ms, now);
      var full, failed := source.Write(m, |Frame(m)|);
      if !full {
        now := now + [m];
      }
    }
    assert batch[..|batch|] == batch;
  }

  lemma {:induction false} WithinAppend(ms: seq<Message>, m: Message, maxSize: int)
    requires Within(ms, maxSize)
    ensures |Disk(ms)| < maxSize ==> Within(ms + [m], maxSize)
  {
    if |Disk(ms)| < maxSize {
      forall k | 0 <= k < |ms + [m]| ensures Position(ms + [m], k) < maxSize {
        PositionStable(ms, [m], k);
        PositionEnds(ms);
      }
    }
  }

  lemma {:induction false} WrittenLonger(ms: seq<Message>, now: seq<Message>)
    requires ms <= now
    ensures |Disk(ms)| <= |Disk(now)|
  {
    assert now == ms + now[|ms|..];
    FramesConcat(ms, now[|ms|..]);
  }

  /** The replica can be continued: it shares nothing usable with the source, or what it shares ends on
      a record boundary. */
  ghost predicate Aligned(d: seq<Byte>, ms: seq<Message>) {
    d <= Disk(ms) ==> Recover(d) == Opened(d)
  }

  /** Compares checksums over the replica's length and throws everything away unless they agree: what
      the source also has is kept. The replica then ends on a record boundary of the source exactly
      when it was aligned. */
  method Align(local: File, source: File, ghost ms: seq<Message>) returns (size: int)
    requires local != source && local.Valid() && source.Valid()
    requires source.data == Disk(ms) && |Disk(ms)| <= MAX_INT64
    modifies local
    ensures local.Valid() && source.State() == old(source.State())
    ensures local.data == if old(local.data) <= Disk(ms) then old(local.data) else Disk([])
    ensures size == if old(local.data) <= Disk(ms) then |local.data| else 0
    ensures OnBoundary(local.data, ms) <==> Aligned(old(local.data), ms)
  {
    var localSum, sourceSum, covered;
    localSum, size := local.Sum(-1);
    sourceSum, covered := source.Sum(size);
    if localSum != sourceSum {
      size := 0;
    }
    assert localSum == sourceSum <==> local.data <= Disk(ms);
    var r := local.Truncate(size);
    if old(local.data) <= Disk(ms) {
      BoundaryExact(local.data, ms);
    } else {
      assert ms[..0] == [] && local.data == Disk(ms[..0]);
    }
  }

  /** A reader keeps its place while the source grows. */
  lemma {:induction false} PlaceSurvivesWrites(f: FileState, f': FileState, r: ReaderState,
                            ms: seq<Message>, now: seq<Message>, i: nat, e: nat)
    requires Placed(f, r, ms, i, e)
    requires ms <= now && |Disk(now)| <= MAX_INT64 && f' == f.(data := Disk(now))
    requires now == ms || |Disk(ms)| < f.maxSize
    ensures Placed(f', r, now, i, e)
  {
    var more := now[|ms|..];
    assert now == ms + more;
    PositionStable(ms, more, i);
    PositionStable(ms, more, e);
    PositionEnds(ms);
  }

  lemma {:induction false} NextRecord(ms: seq<Message>, i: nat)
    requires i < |ms|
    ensures Disk(ms[..i + 1]) == Disk(ms[..i]) + Frame(ms[i])
  {
    assert ms[..i + 1] == ms[..i] + [ms[i]];
    FramesAppend(ms[..i], ms[i]);
  }

  /** Two files of one segment and a reader over the source, which holds the messages `now`. */
  ghost predicate Wired(local: File, source: File, reader: Iterator, ms: seq<Message>, now: seq<Message>)
    reads local, source, reader
  {
    && local != source && local.Valid() && source.Valid() && local.maxSize == source.maxSize
    && reader.file == source
    && ms <= now && Within(now, source.maxSize)
    && source.data == Disk(now) && |Disk(now)| <= MAX_INT64
  }

  /** The replica is the first `i` records of the source, and the reader stands before the next. */
  ghost predicate InStep(local: File, source: File, reader: Iterator, now: seq<Message>, i: nat, e: nat)
    reads local, source, reader
  {
    && Placed(source.State(), reader.State(), now, i, e)
    && !reader.closed && (reader.waiting ==> i == e && reader.wait)
    && local.data == Disk(now[..i])
  }

  method Grow(local: File, source: File, reader: Iterator, batch: seq<Message>, ghost aligned: bool,
              ghost ms: seq<Message>, ghost now: seq<Message>, ghost i: nat, ghost e: nat)
    returns (ghost now': seq<Message>)
    requires Wired(local, source, reader, ms, now) && (aligned ==> InStep(local, source, reader, now, i, e))
    requires |Disk(now)| + TotalFrames(batch) <= MAX_INT64
    modifies source
    ensures now <= now' && |Disk(now')| <= |Disk(now)| + TotalFrames(batch)
    ensures Wired(local, source, reader, ms, now') && (aligned ==> InStep(local, source, reader, now', i, e))
    ensures batch == [] ==> now' == now
  {
    ghost var f := source.State();
    now' := WriteAll(source, batch, now);
    if aligned {
      PlaceSurvivesWrites(f, source.State(), reader.State(), now, now', i, e);
      assert now[..i] == now'[..i];
    }
  }

  /** One receive: while a record is missing, the next one arrives and is written, and the write is never
      refused. */
  method ReceiveNext(local: File, source: File, reader: Iterator, ghost aligned: bool,
                     ghost ms: seq<Message>, ghost now: seq<Message>, ghost i: nat, ghost e: nat)
    returns (stop: Option<SyncResult>, ghost i': nat, ghost e': nat)
    requires Wired(local, source, reader, ms, now) && (aligned ==> InStep(local, source, reader, now, i, e))
    modifies local, reader
    ensures Wired(local, source, reader, ms, now) && source.State() == old(source.State())
    ensures aligned && stop.None? ==>
      InStep(local, source, reader, now, i', e') && i' == (if i < |now| then i + 1 else i) && (!reader.wait ==> e' == e)
    ensures aligned && stop.Some? ==>
      && stop.value == Completed && i' == i && local.State() == old(local.State())
      && if reader.wait then i == |now| && |source.data| >= source.maxSize else i == e
  {
    i', e' := i, e;
    if aligned {
      i', e' := TurnOnLog(source.State(), reader.State(), now, i, e);
    }
    var o;
    if reader.waiting {
      o := reader.Wake();
    } else {
      o := reader.Next();
    }
    match o {
      case Delivered(m, _, _) =>
        if aligned {
          NextRecord(now, i);
        }
        var full, failed := local.Write(m, |Frame(m)|);
        stop := if full then Some(WriteFailed) else None;
      case EndOfFile =>
        stop := Some(Completed);
      case Waits =>
        stop := None;
      case _ =>
        stop := Some(ReceiveFailed);
    }
  }

  /** What an aligned replica has become when receiving stops. */
  ghost predicate Received(r: SyncResult, wait: bool, local: seq<Byte>, source: seq<Byte>, maxSize: int,
                           ms: seq<Message>, now: seq<Message>, i: nat) {
    && i <= |now| && local == Disk(now[..i]) && r in {Completed, CutOff}
    && (r == Completed ==> if wait then i == |now| && |source| >= maxSize else i == |ms|)
  }

  /** Receives records until the stream ends. Before each receive the source may take more writes;
      a run that ends early is one that was cut off. */
  method Receive(local: File, source: File, reader: Iterator, growth: seq<seq<Message>>, ghost aligned: bool,
                 ghost ms: seq<Message>, ghost k: nat)
    returns (r: SyncResult, ghost now: seq<Message>, ghost i: nat)
    requires Wired(local, source, reader, ms, ms) && (aligned ==> InStep(local, source, reader, ms, k, |ms|))
    requires |Disk(ms)| + TotalGrowth(growth) <= MAX_INT64
    modifies local, source, reader
    ensures Wired(local, source, reader, ms, now)
    ensures aligned ==> k <= i && Received(r, reader.wait, local.data, source.data, source.maxSize, ms, now, i)
    ensures (forall b :: b in growth ==> b == []) ==> now == ms
    ensures growth == [] ==> local.State() == old(local.State())
  {
    now, i := ms, k;
    ghost var e: nat := |ms|;
    for j := 0 to |growth|
      invariant Wired(local, source, reader, ms, now)
      invariant aligned ==> InStep(local, source, reader, now, i, e) && (!reader.wait ==> e == |ms|) && k <= i
      invariant |Disk(now)| <= |Disk(ms)| + TotalGrowth(growth[..j])
      invariant (forall b :: b in growth ==> b == []) ==> now == ms
      invariant j == 0 ==> local.State() == old(local.State())
    {
      GrowthSplit(growth, j);
      assert growth[j] in growth;
      now := Grow(local, source, reader, growth[j], aligned, ms, now, i, e);
      var stop;
      stop, i, e := ReceiveNext(local, source, reader, aligned, ms, now, i, e);
      if stop.Some? {
        return stop.value, now, i;
      }
    }
    return CutOff, now, i;
  }

  /** The whole replication task up to the end of the stream, whatever the replica held. If that was
      aligned, it ends as a whole-record prefix of the source, with everything the source also has kept
      and no write refused, and a task that completes leaves it equal to the source. If not, it is no
      whole-record prefix even before anything is received. */
  method ReplicateSegment(local: File, source: File, wait: bool, early: seq<Message>, growth: seq<seq<Message>>,
                          ghost ms: seq<Message>)
    returns (r: SyncResult, ghost now: seq<Message>, ghost i: nat)
    requires local != source && local.Valid() && source.Valid() && local.maxSize == source.maxSize
    requires source.data == Disk(ms) && Within(ms, source.maxSize)
    requires |Disk(ms)| + TotalFrames(early) + TotalGrowth(growth) <= MAX_INT64
    modifies local, source
    ensures ms <= now && source.data == Disk(now)
    ensures Aligned(old(local.data), ms) ==>
      && i <= |now| && local.data == Disk(now[..i]) && r in {Completed, CutOff}
      && (old(local.data) <= Disk(ms) ==> old(local.data) <= local.data)
      && (r == Completed && wait ==> local.data == source.data && |source.data| >= source.maxSize)
      && (r == Completed && !wait && early == [] && (forall b :: b in growth ==> b == []) ==>
            local.data == source.data)
    ensures !Aligned(old(local.data), ms) && growth == [] ==> !OnBoundary(local.data, ms)
  {
    ghost var aligned := Aligned(local.data, ms);
    var size := Align(local, source, ms);
    ghost var k: nat := if aligned then BoundaryIndex(local.data, ms) else 0;
    ghost var atOpen := WriteAll(source, early, ms);
    if aligned {
      assert ms[..k] == atOpen[..k];
      OpenPlace(ms, atOpen, k);
    }
    r, now, i := Stream(local, source, wait, if size > 0 then size else 1, growth, aligned, atOpen, k);
  }

  /** Opens the source at `offset` and receives from there. */
  method Stream(local: File, source: File, wait: bool, offset: int, growth: seq<seq<Message>>, ghost aligned: bool,
                ghost ms: seq<Message>, ghost k: nat)
    returns (r: SyncResult, ghost now: seq<Message>, ghost i: nat)
    requires local != source && local.Valid() && source.Valid() && local.maxSize == source.maxSize
    requires source.data == Disk(ms) && Within(ms, source.maxSize)
    requires |Disk(ms)| + TotalGrowth(growth) <= MAX_INT64
    requires aligned ==> k <= |ms| && local.data == Disk(ms[..k]) && offset == Position(ms, k)
    modifies local, source
    ensures ms <= now && source.data == Disk(now)
    ensures aligned ==>
      && Received(r, wait, local.data, source.data, source.maxSize, ms, now, i)
      && old(local.data) <= local.data && (i == |now| ==> local.data == source.data)
    ensures (forall b :: b in growth ==> b == []) ==> now == ms
    ensures growth == [] ==> local.State() == old(local.State())
  {
    if aligned {
      OpenPlace(ms, ms, k);
    }
    var place := OpenAt(source.State(), offset, wait);
    if place.None? {
      return RequestFailed, ms, k;
    }
    var reader := new Iterator(source, place.value);
    r, now, i := Receive(local, source, reader, growth, aligned, ms, k);
    if aligned {
      LongerDisk(now, k, i);
      assert now[..k] == ms[..k];
      assert i == |now| ==> now[..i] == now;
    }
  }

  ghost function BoundaryIndex(d: seq<Byte>, ms: seq<Message>): (k: nat)
    requires OnBoundary(d, ms)
    ensures k <= |ms| && d == Disk(ms[..k])
  {
    var k: nat :| k <= |ms| && d == Disk(ms[..k]);
    k
  }

  lemma {:induction false} OpenPlace(ms: seq<Message>, atOpen: seq<Message>, k: nat)
    requires ms <= atOpen && k <= |ms|
    ensures Position(ms, k) == Position(atOpen, k) <= |Disk(atOpen)|
    ensures Position(atOpen, 0) == 1
    ensures Position(atOpen, |atOpen|) == |Disk(atOpen)|
  {
    assert atOpen == ms + atOpen[|ms|..];
    PositionStable(ms, atOpen[|ms|..], k);
    PositionEnds(atOpen);
    PositionsIncrease(atOpen, k, |atOpen|);
  }

  lemma {:induction false} LongerDisk(ms: seq<Message>, k: nat, i: nat)
    requires k <= i <= |ms|
    ensures Disk(ms[..k]) <= Disk(ms[..i])
  {
    assert ms[..i] == ms[..k] + ms[k..i];
    FramesConcat(ms[..k], ms[k..i]);
  }

  function TotalGrowth(growth: seq<seq<Message>>): nat {
    if growth == [] then 0
    else TotalGrowth(growth[..|growth| - 1]) + TotalFrames(growth[|growth| - 1])
  }

  lemma {:induction false} GrowthSplit(growth: seq<seq<Message>>, j: nat)
    requires j < |growth|
    ensures TotalGrowth(growth[..j + 1]) == TotalGrowth(growth[..j]) + TotalFrames(growth[j])
    ensures TotalGrowth(growth[..j + 1]) <= TotalGrowth(growth)
  {
    assert growth[..j + 1][..j] == growth[..j];
    GrowthMonotone(growth, j + 1);
  }

  lemma {:induction false} GrowthMonotone(growth: seq<seq<Message>>, j: nat)
    requires j <= |growth|
    ensures TotalGrowth(growth[..j]) <= TotalGrowth(growth)
    decreases |growth|
  {
    if j == |growth| {
      assert growth[..j] == growth;
    } else {
      var front := growth[..|growth| - 1];
      assert growth[..j] == front[..j];
      GrowthMonotone(front, j);
    }
  }
}
