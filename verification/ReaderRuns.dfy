/** Whole runs of one reader while the file is being written to. */
module ReaderRuns {
  import opened Wrappers
  import opened Framing
  import opened SegmentFile
  import opened SegmentIterator

  datatype Event = WriteMessage(m: Message) | CallNext | CloseReader

  /** `got` lists the deliveries so far, `last` the outcome of the latest call. */
  datatype Session = Session(file: FileState, reader: ReaderState, got: seq<Outcome>, last: Outcome)

  /** A call starts a read, or continues the one that is parked. */
  function TurnOf(s: Session): Turn {
    if s.reader.waiting then WakeOn(s.file, s.reader) else NextOn(s.file, s.reader)
  }

  function AfterTurn(s: Session, t: Turn): Session {
    Session(s.file, t.reader, if t.outcome.Delivered? then s.got + [t.outcome] else s.got, t.outcome)
  }

  function StepOf(s: Session, e: Event): Session {
    match e
    case WriteMessage(m) => s.(file := Appended(s.file, m))
    case CallNext => AfterTurn(s, TurnOf(s))
    case CloseReader => s.(reader := s.reader.(closed := true))
  }

  function Run(s: Session, es: seq<Event>): Session
    decreases |es|
  {
    if es == [] then s else Run(StepOf(s, es[0]), es[1..])
  }

  /** The messages in the file after the writes of a run. */
  function Written(ms: seq<Message>, maxSize: int, es: seq<Event>): seq<Message>
    decreases |es|
  {
    if es == [] then ms
    else if es[0].WriteMessage? && |Disk(ms)| < maxSize then Written(ms + [es[0].m], maxSize, es[1..])
    else Written(ms, maxSize, es[1..])
  }

  // ---------------------------------------------------------------- one step

  /** The reader stands before message `i` and its section ends before message `e`. */
  ghost predicate Placed(f: FileState, r: ReaderState, ms: seq<Message>, i: nat, e: nat) {
    && f.data == Disk(ms) && |Disk(ms)| <= MAX_INT64 && r.term == f.term
    && i <= e <= |ms|
    && r.offset == r.position == Position(ms, i)
    && r.endOffset == Position(ms, e)
    && (e < |ms| ==> r.endOffset < f.maxSize)
  }

  /** What the reader finds in its section. */
  lemma {:induction false} TakeOnLog(f: FileState, r: ReaderState, ms: seq<Message>, i: nat, e: nat)
    requires Placed(f, r, ms, i, e)
    ensures i < e ==>
      var q := Position(ms, i + 1);
      Take(f, r) == Some(Turn(r.(offset := q, position := q), Delivered(ms[i], r.offset, q)))
    ensures i == e ==>
      Take(f, r) == if !r.wait || r.endOffset >= f.maxSize then Some(Fail(r, EndOfFile)) else None
  {
    PositionsIncrease(ms, i, e);
    PositionsIncrease(ms, e, |ms|);
    PositionEnds(ms);
    if i < e {
      TakeRecord(f, r, ms, i, e);
    }
  }

  lemma {:induction false} PayloadOf(c: seq<Byte>, p: nat, q: nat, m: Message)
    requires p <= q <= |c| && q == p + |Frame(m)| && c[p..q] == Frame(m)
    ensures c[p + |PutUvarint(|m|)|..q] == m
  {
    var n := |PutUvarint(|m|)|;
    assert c[p + n..q] == c[p..q][n..];
  }

  lemma {:induction false} TakeRecord(f: FileState, r: ReaderState, ms: seq<Message>, i: nat, e: nat)
    requires Placed(f, r, ms, i, e) && i < e && r.endOffset <= |f.data|
    ensures var q := Position(ms, i + 1);
            Take(f, r) == Some(Turn(r.(offset := q, position := q), Delivered(ms[i], r.offset, q)))
  {
    var p, q, m := Position(ms, i), Position(ms, i + 1), ms[i];
    PositionsIncrease(ms, i + 1, e);
    assert q == p + |Frame(m)| && StandsAt(f.data, p, |f.data|, Frame(m)) && f.data[p..q] == Frame(m) by {
      FrameAt(ms, i);
      FrameIn(ms, f.data, i);
    }
    TakeFrame(f, r, p, q, m);
  }

  lemma {:induction false} TakeFrame(f: FileState, r: ReaderState, p: nat, q: nat, m: Message)
    requires |m| < TWO_64 && r.offset == r.position == p <= q <= r.endOffset <= |f.data|
    requires q == p + |Frame(m)| && StandsAt(f.data, p, |f.data|, Frame(m)) && f.data[p..q] == Frame(m)
    ensures Take(f, r) == Some(Turn(r.(offset := q, position := q), Delivered(m, p, q)))
  {
    var n := |PutUvarint(|m|)|;
    assert Peek(f.data, p, r.endOffset) == Decoded(|m|, n) by {
      PeekRecord(f.data, p, r.endOffset, m);
    }
    PayloadOf(f.data, p, q, m);
  }

  /** What a turn from message `i` to message `i'` may have done. */
  ghost predicate GoodTurn(f: FileState, r: ReaderState, t: Turn, ms: seq<Message>,
                           i: nat, e: nat, i': nat, e': nat)
  {
    && Placed(f, t.reader, ms, i', e') && t.reader.wait == r.wait
    && (!r.wait ==> e' == e)
    && (t.reader.waiting ==> i' == e' && r.wait)
    && (if i' == i + 1 then t.outcome == DeliveryOf(ms, i)
        else i' == i && t.outcome in {EndOfFile, IteratorClosed, Waits})
    && (t.outcome == IteratorClosed ==> r.closed)
    && (t.outcome in {IteratorClosed, Waits} ==> i' == |ms|)
    && (t.outcome.Delivered? || t.outcome == Waits ==> t.reader.closed == r.closed)
    && (t.outcome == EndOfFile ==> i' == e' && (r.wait ==> i' == |ms| && Full(f)))
  }

  ghost function DeliveryOf(ms: seq<Message>, i: nat): Outcome {
    if i < |ms| then Delivered(ms[i], Position(ms, i), Position(ms, i + 1)) else Corrupt
  }

  /** A turn of a placed reader: it delivers the next message, or it has delivered them all. */
  lemma {:induction false} TurnOnLog(f: FileState, r: ReaderState, ms: seq<Message>, i: nat, e: nat)
    returns (i': nat, e': nat)
    requires Placed(f, r, ms, i, e) && (!r.closed || r.waiting) && (r.waiting ==> i == e && r.wait)
    ensures GoodTurn(f, r, if r.waiting then WakeOn(f, r) else NextOn(f, r), ms, i, e, i', e')
  {
    TakeOnLog(f, r, ms, i, e);
    PositionEnds(ms);
    PositionsIncrease(ms, e, |ms|);
    var t := if r.waiting then WakeOn(f, r) else NextOn(f, r);
    if !r.waiting && (i < e || !r.wait || r.endOffset >= f.maxSize) {
      assert t == Take(f, r).value;
      return if i < e then i + 1 else i, e;
    }
    assert t == WakeOn(f, r);
    if e == |ms| {
      assert LookAgain(f, r) == Settled(t);
      return i, e;
    }
    var r' := r.(position := r.endOffset, endOffset := |f.data|, waiting := false);
    assert LookAgain(f, r) == Refreshed(r');
    TakeOnLog(f, r', ms, i, |ms|);
    assert t == ReadOn(f, r');
    return i + 1, |ms|;
  }

  // ---------------------------------------------------------------- whole runs

  /** Where the reader stands: before message `i`, with its section ending somewhere. */
  ghost predicate Standing(f: FileState, r: ReaderState, ms: seq<Message>, i: nat, e: nat, e0: nat) {
    && Placed(f, r, ms, i, e)
    && (!r.wait ==> e == e0)
    && (r.waiting ==> i == e && r.wait)
  }

  /** What holds throughout a run: `k` is where the reader started, `e0` the messages there were. */
  ghost predicate Inv(s: Session, ms: seq<Message>, k: nat, e: nat, e0: nat) {
    var i := k + |s.got|;
    && Standing(s.file, s.reader, ms, i, e, e0)
    && (forall j :: 0 <= j < |s.got| ==> s.got[j] == DeliveryOf(ms, k + j))
    && s.last !in {Corrupt, IteratorInvalid}
    && (s.last == EndOfFile ==> if s.reader.wait then i == |ms| && Full(s.file) else i == e0)
  }

  lemma {:induction false} TurnKeepsInv(s: Session, t: Turn, ms: seq<Message>, k: nat, e: nat, i': nat, e': nat,
                                        e0: nat)
    requires Inv(s, ms, k, e, e0)
    requires GoodTurn(s.file, s.reader, t, ms, k + |s.got|, e, i', e')
    ensures Inv(AfterTurn(s, t), ms, k, e', e0)
  {
    assert i' == k + |AfterTurn(s, t).got|;
  }

  lemma {:induction false} CallKeepsInv(s: Session, ms: seq<Message>, k: nat, e: nat, e0: nat) returns (e': nat)
    requires Inv(s, ms, k, e, e0)
    ensures Inv(StepOf(s, CallNext), ms, k, e', e0)
    ensures StepOf(s, CallNext).reader.wait == s.reader.wait
  {
    if s.reader.closed && !s.reader.waiting {
      assert StepOf(s, CallNext) == Session(s.file, s.reader, s.got, IteratorClosed);
      return e;
    }
    var i';
    i', e' := TurnOnLog(s.file, s.reader, ms, k + |s.got|, e);
    TurnKeepsInv(s, TurnOf(s), ms, k, e, i', e', e0);
  }

  /** A call made while a message is undelivered delivers it, unless the reader is closed. A call that is
      parked when the reader is closed still delivers. */
  lemma {:induction false} CallDelivers(s: Session, ms: seq<Message>, k: nat, e: nat, e0: nat)
    requires Inv(s, ms, k, e, e0) && (!s.reader.closed || s.reader.waiting)
    requires k + |s.got| < if s.reader.wait then |ms| else e0
    ensures StepOf(s, CallNext).got == s.got + [DeliveryOf(ms, k + |s.got|)]
  {
    var i', e' := TurnOnLog(s.file, s.reader, ms, k + |s.got|, e);
  }

  lemma {:induction false} WriteKeepsInv(s: Session, ms: seq<Message>, k: nat, e: nat, e0: nat, m: Message)
    requires Inv(s, ms, k, e, e0) && !Full(s.file) && |Disk(ms + [m])| <= MAX_INT64
    ensures Inv(StepOf(s, WriteMessage(m)), ms + [m], k, e, e0)
  {
    FramesAppend(ms, m);
    PositionEnds(ms);
    PositionStable(ms, [m], k + |s.got|);
    PositionStable(ms, [m], e);
    forall j | 0 <= j < |s.got| ensures s.got[j] == DeliveryOf(ms + [m], k + j) {
      assert s.got[j] == DeliveryOf(ms, k + j);
      PositionStable(ms, [m], k + j);
      PositionStable(ms, [m], k + j + 1);
    }
  }

  lemma {:induction false} WrittenGrows(ms: seq<Message>, maxSize: int, es: seq<Event>)
    ensures ms <= Written(ms, maxSize, es)
    ensures |Disk(ms)| <= |Disk(Written(ms, maxSize, es))|
    decreases |es|
  {
    if es != [] {
      if es[0].WriteMessage? && |Disk(ms)| < maxSize {
        FramesAppend(ms, es[0].m);
        WrittenGrows(ms + [es[0].m], maxSize, es[1..]);
      } else {
        WrittenGrows(ms, maxSize, es[1..]);
      }
    }
  }

  lemma {:induction false} RunKeepsInv(s: Session, ms: seq<Message>, k: nat, e: nat, e0: nat, es: seq<Event>)
    returns (e': nat)
    requires Inv(s, ms, k, e, e0)
    requires |Disk(Written(ms, s.file.maxSize, es))| <= MAX_INT64
    ensures Inv(Run(s, es), Written(ms, s.file.maxSize, es), k, e', e0)
    ensures Run(s, es).reader.wait == s.reader.wait
    decreases |es|
  {
    e' := e;
    if es != [] {
      var s', ms' := StepOf(s, es[0]), ms;
      match es[0] {
        case WriteMessage(m) =>
          if !Full(s.file) {
            ms' := ms + [m];
            WrittenGrows(ms', s.file.maxSize, es[1..]);
            WriteKeepsInv(s, ms, k, e, e0, m);
          }
        case CallNext =>
          e' := CallKeepsInv(s, ms, k, e, e0);
        case CloseReader =>
      }
      e' := RunKeepsInv(s', ms', k, e', e0, es[1..]);
    }
  }

  /** What the next call answers. A closed reader is told so, unless it is parked and something is undelivered;
      it never waits again. An open one delivers what is left, and otherwise waits or ends. */
  ghost predicate Answers(s: Session, now: seq<Message>, k: nat, wait: bool, e0: nat) {
    var s' := StepOf(s, CallNext);
    var left := k + |s.got| < if wait then |now| else e0;
    && (s'.last.Delivered? <==> left && (!s.reader.closed || s.reader.waiting))
    && (s'.last == IteratorClosed <==> s.reader.closed && !(s.reader.waiting && left))
    && (s'.last == EndOfFile <==> !s.reader.closed && !left && (wait ==> !s.reader.waiting && Full(s.file)))
    && (s'.last == Waits <==> !s.reader.closed && !left && wait && (s.reader.waiting || !Full(s.file)))
    && (s'.reader.waiting <==> s'.last == Waits)
    && (s'.reader.closed <==> s.reader.closed || s'.last == EndOfFile)
  }

  /** The same for one turn of a reader that is placed before message `i`. */
  ghost predicate TurnAnswers(f: FileState, r: ReaderState, t: Turn, left: bool) {
    && (t.outcome.Delivered? <==> left && (!r.closed || r.waiting))
    && (t.outcome == IteratorClosed <==> r.closed && !(r.waiting && left))
    && (t.outcome == EndOfFile <==> !r.closed && !left && (r.wait ==> !r.waiting && Full(f)))
    && (t.outcome == Waits <==> !r.closed && !left && r.wait && (r.waiting || !Full(f)))
    && (t.reader.waiting <==> t.outcome == Waits)
    && (t.reader.closed <==> r.closed || t.outcome == EndOfFile)
  }

  lemma {:induction false} FirstLook(f: FileState, r: ReaderState, ms: seq<Message>, i: nat, e: nat)
    requires Placed(f, r, ms, i, e) && !r.closed && !r.waiting && (i < e || !r.wait || r.endOffset >= f.maxSize)
    ensures TurnAnswers(f, r, NextOn(f, r), i < if r.wait then |ms| else e)
  {
    TakeOnLog(f, r, ms, i, e);
    PositionEnds(ms);
    PositionsIncrease(ms, e, |ms|);
    assert NextOn(f, r) == Take(f, r).value;
  }

  lemma {:induction false} SecondLook(f: FileState, r: ReaderState, ms: seq<Message>, i: nat)
    requires Placed(f, r, ms, i, i) && r.wait && (r.closed ==> r.waiting)
    requires !r.waiting ==> r.endOffset < f.maxSize
    ensures TurnAnswers(f, r, WakeOn(f, r), i < |ms|)
  {
    PositionEnds(ms);
    PositionsIncrease(ms, i, |ms|);
    if i == |ms| {
      assert LookAgain(f, r) == Settled(WakeOn(f, r));
    } else {
      var r' := r.(position := r.endOffset, endOffset := |f.data|, waiting := false);
      assert LookAgain(f, r) == Refreshed(r');
      TakeOnLog(f, r', ms, i, |ms|);
      assert WakeOn(f, r) == ReadOn(f, r') == Take(f, r').value;
    }
  }

  lemma {:induction false} TurnAnswersOnLog(f: FileState, r: ReaderState, ms: seq<Message>, i: nat, e: nat)
    requires Placed(f, r, ms, i, e) && (r.waiting ==> i == e && r.wait)
    ensures TurnAnswers(f, r, if r.waiting then WakeOn(f, r) else NextOn(f, r), i < if r.wait then |ms| else e)
  {
    if r.waiting {
      SecondLook(f, r, ms, i);
    } else if !r.closed {
      if i < e || !r.wait || r.endOffset >= f.maxSize {
        FirstLook(f, r, ms, i, e);
      } else {
        SecondLook(f, r, ms, i);
        TakeOnLog(f, r, ms, i, e);
        assert NextOn(f, r) == WakeOn(f, r);
      }
    }
  }

  lemma {:induction false} CallAnswers(s: Session, now: seq<Message>, k: nat, e: nat, e0: nat)
    requires Inv(s, now, k, e, e0)
    ensures Answers(s, now, k, s.reader.wait, e0)
  {
    TurnAnswersOnLog(s.file, s.reader, now, k + |s.got|, e);
  }

  /** A reader that was closed stays closed. */
  lemma {:induction false} ClosedStays(s: Session, es: seq<Event>)
    requires |s.file.data| >= 1 && (s.reader.closed || CloseReader in es)
    ensures Run(s, es).reader.closed
    decreases |es|
  {
    if es != [] {
      if es[0] == CallNext && s.reader.closed {
        TurnKeepsClosed(s.file, s.reader);
      }
      assert es == [es[0]] + es[1..];
      ClosedStays(StepOf(s, es[0]), es[1..]);
    }
  }

  lemma {:induction false} TurnKeepsClosed(f: FileState, r: ReaderState)
    requires r.closed
    ensures NextOn(f, r).reader.closed && WakeOn(f, r).reader.closed
  {
    if LookAgain(f, r).Refreshed? {
      var r' := LookAgain(f, r).reader;
      assert Take(f, r').Some? ==> Take(f, r').value.reader.closed;
      assert LookAgain(f, r').Settled? && LookAgain(f, r').turn.reader.closed;
      assert WakeOn(f, r) == ReadOn(f, r') && WakeOn(f, r') == LookAgain(f, r').turn;
    }
  }

  /** What a reader that started before message `k`, when there were `e0` messages, has done by now. */
  ghost predicate DeliveredSoFar(s: Session, now: seq<Message>, k: nat, wait: bool, e0: nat) {
    && s.file.data == Disk(now)
    && k + |s.got| <= |now|
    && (forall j :: 0 <= j < |s.got| ==>
          s.got[j] == Delivered(now[k + j], Position(now, k + j), Position(now, k + j + 1)))
    && s.reader.offset == Position(now, k + |s.got|)
    && s.last !in {Corrupt, IteratorInvalid}
    && ((!s.reader.closed || s.reader.waiting) && k + |s.got| < (if wait then |now| else e0) ==>
          StepOf(s, CallNext).got == s.got + [DeliveryOf(now, k + |s.got|)])
    && (s.last == EndOfFile && wait ==> k + |s.got| == |now| && Full(s.file))
    && (s.last == EndOfFile && !wait ==> k + |s.got| == e0)
    && Answers(s, now, k, wait, e0)
  }

  lemma {:induction false} InvMeans(s: Session, now: seq<Message>, k: nat, e: nat, wait: bool, e0: nat)
    requires Inv(s, now, k, e, e0) && s.reader.wait == wait
    ensures DeliveredSoFar(s, now, k, wait, e0)
  {
    forall j | 0 <= j < |s.got|
      ensures s.got[j] == Delivered(now[k + j], Position(now, k + j), Position(now, k + j + 1))
    {
      assert s.got[j] == DeliveryOf(now, k + j);
    }
    CallAnswers(s, now, k, e, e0);
    if (!s.reader.closed || s.reader.waiting) && k + |s.got| < if wait then |now| else e0 {
      CallDelivers(s, now, k, e, e0);
    }
  }

  /** A reader opened before message `k` of a log, under any interleaving of writes, calls and a
      close: it has delivered exactly the messages from `k` on, once each and in order, with their
      offsets; its own offset is where a later reader would resume; and a call made now, while a message
      is undelivered and the reader not closed, delivers it, and answers what `Answers` says in every
      other case. A waiting reader reports the end
      only when it has delivered everything and no write can succeed any more; one that does not
      wait, exactly what the log held when it was opened. */
  lemma {:induction false} ReaderDeliversTheLog(ms: seq<Message>, maxSize: int, term: nat, k: nat, wait: bool,
                                                es: seq<Event>)
    requires k <= |ms| && |Disk(Written(ms, maxSize, es))| <= MAX_INT64
    ensures
      var f := FileState(Disk(ms), maxSize, term);
      var r := OpenAt(f, Position(ms, k), wait);
      var now := Written(ms, maxSize, es);
      && r.Some? && ms <= now
      && DeliveredSoFar(Run(Session(f, r.value, [], Waits), es), now, k, wait, |ms|)
  {
    var f := FileState(Disk(ms), maxSize, term);
    WrittenGrows(ms, maxSize, es);
    PositionEnds(ms);
    PositionsIncrease(ms, k, |ms|);
    var r := OpenAt(f, Position(ms, k), wait).value;
    var s0 := Session(f, r, [], Waits);
    assert Standing(f, r, ms, k, |ms|, |ms|);
    var e := RunKeepsInv(s0, ms, k, |ms|, |ms|, es);
    InvMeans(Run(s0, es), Written(ms, maxSize, es), k, e, wait, |ms|);
  }
}
