/** Readers over a segment file that may still be growing. */
module SegmentIterator {
  import opened Wrappers
  import opened Framing
  import opened SegmentFile

  /** `position` is where the buffered reader stands, `offset` what has been delivered, `endOffset`
      the end of the section being read; `waiting` marks a reader parked until the file changes. */
  datatype ReaderState = ReaderState(
    term: nat, offset: nat, position: nat, endOffset: nat, wait: bool, closed: bool, waiting: bool)

  datatype Outcome =
    | Delivered(message: Message, offset: nat, commitOffset: nat)
    | EndOfFile
    | IteratorClosed
    | IteratorInvalid
    | Corrupt
    | Waits

  datatype Turn = Turn(reader: ReaderState, outcome: Outcome)

  /** Opens a reader at a byte offset. */
  function OpenAt(f: FileState, offset: int, wait: bool): (r: Option<ReaderState>)
  {
    if offset < 1 || offset > |f.data| then None
    else Some(ReaderState(f.term, offset, offset, |f.data|, wait, false, false))
  }

  function Fail(r: ReaderState, o: Outcome): Turn {
    Turn(r.(closed := true, waiting := false), o)
  }

  /** A call on a reader that is not parked. */
  function NextOn(f: FileState, r: ReaderState): Turn {
    if r.closed then Turn(r, IteratorClosed)
    else if f.term != r.term then Turn(r, IteratorInvalid)
    else ReadOn(f, r)
  }

  /** The end of the bytes the reader can get at. */
  function SectionEnd(f: FileState, r: ReaderState): nat {
    Min(r.endOffset, |f.data|)
  }

  /** One look at the section; nothing means its end was reached and the reader has to wait. */
  function Take(f: FileState, r: ReaderState): Option<Turn> {
    var end := SectionEnd(f, r);
    var p := Min(r.position, end);
    TakeAt(f, r, p, end, Peek(f.data, p, end))
  }

  /** The same once the length `d` was looked at. */
  function TakeAt(f: FileState, r: ReaderState, p: nat, end: nat, d: Decoded): Option<Turn>
    requires p <= end <= |f.data|
  {
    if d.n == 0 && end - p < MAX_VARINT_LEN then
      if !r.wait || r.endOffset >= f.maxSize then Some(Fail(r, EndOfFile)) else None
    else if d.n <= 0 || p + d.n + d.value > end then Some(Fail(r.(position := end), Corrupt))
    else
      var size := d.n + d.value;
      Some(Turn(r.(offset := r.offset + size, position := p + size),
                Delivered(f.data[p + d.n..p + size], r.offset, r.offset + size)))
  }

  datatype Look = Settled(turn: Turn) | Refreshed(reader: ReaderState)

  /** One look at the file: on the way into the wait, and whenever the reader is woken. */
  function LookAgain(f: FileState, r: ReaderState): Look {
    if r.endOffset == |f.data| && f.term == r.term then
      Settled(if r.closed then Fail(r, IteratorClosed) else Turn(r.(waiting := true), Waits))
    else if f.term != r.term then Settled(Fail(r, IteratorInvalid))
    else Refreshed(r.(position := r.endOffset, endOffset := |f.data|, waiting := false))
  }

  function ReadOn(f: FileState, r: ReaderState): Turn
    decreases if r.endOffset == |f.data| then 0 else 1, 1
  {
    var t := Take(f, r);
    if t.Some? then t.value else WakeOn(f, r)
  }

  /** Continues a parked call. */
  function WakeOn(f: FileState, r: ReaderState): Turn
    decreases if r.endOffset == |f.data| then 0 else 1, 0
  {
    match LookAgain(f, r)
    case Settled(t) => t
    case Refreshed(r') => ReadOn(f, r')
  }

  /** A reader opens exactly at the positions from the first record to the end, and sees what is there now. */
  lemma {:induction false} OpensWithin(f: FileState, offset: int, wait: bool)
    ensures OpenAt(f, offset, wait).Some? <==> 1 <= offset <= |f.data|
    ensures OpenAt(f, offset, wait).Some? ==>
      var r := OpenAt(f, offset, wait).value;
      && r.offset == r.position == offset && r.endOffset == |f.data| && r.term == f.term
      && r.wait == wait && !r.closed && !r.waiting
  {
  }

  /** The reader gets nothing more from this file, and knows why. */
  ghost predicate Stopped(f: FileState, r: ReaderState) {
    && NextOn(f, r).outcome == (if r.closed then IteratorClosed else IteratorInvalid)
    && WakeOn(f, r).outcome == IteratorInvalid && WakeOn(f, r).reader == r.(closed := true, waiting := false)
  }

  /** Truncating or closing the file changes its term: a reader opened before gets nothing more, whether
      it is parked or not. */
  lemma {:induction false} StaleReaderStops(f: FileState, r: ReaderState, size: int)
    requires |f.data| >= 1 && f.term < TWO_32 && r.term == f.term
    ensures Stopped(f.(term := (f.term + 1) % TWO_32), r)
    ensures TruncateTo(f, size).1 == Truncated ==> Stopped(TruncateTo(f, size).0, r)
  {
    assert (f.term + 1) % TWO_32 != f.term;
  }

  class Iterator {
    const file: File
    const term: nat
    const wait: bool
    var offset: nat
    var position: nat
    var endOffset: nat
    var closed: bool
    var waiting: bool

    function State(): ReaderState
      reads this
    {
      ReaderState(term, offset, position, endOffset, wait, closed, waiting)
    }

    constructor (file: File, start: ReaderState)
      ensures this.file == file && State() == start
    {
      this.file, this.term, this.wait := file, start.term, start.wait;
      offset, position, endOffset := start.offset, start.position, start.endOffset;
      closed, waiting := start.closed, start.waiting;
    }

    method Next() returns (o: Outcome)
      requires file.Valid() && !waiting
      modifies this
      ensures Turn(State(), o) == NextOn(file.State(), old(State()))
    {
      if closed {
        return IteratorClosed;
      }
      if file.term != term {
        return IteratorInvalid;
      }
      o := ReadLoop(false);
    }

    /** Continues a parked call. */
    method Wake() returns (o: Outcome)
      requires file.Valid() && waiting
      modifies this
      ensures Turn(State(), o) == WakeOn(file.State(), old(State()))
    {
      o := ReadLoop(true);
    }

    method ReadLoop(woken: bool) returns (o: Outcome)
      requires file.Valid() && waiting == woken
      modifies this
      ensures Turn(State(), o) == if woken then WakeOn(file.State(), old(State()))
                                  else ReadOn(file.State(), old(State()))
    {
      ghost var start := State();
      ghost var f := file.State();
      if woken {
        var settled := Refresh();
        if settled.Some? {
          return settled.value;
        }
      }
      while true
        invariant file.Valid() && file.State() == f
        invariant ReadOn(f, State()) == if woken then WakeOn(f, start) else ReadOn(f, start)
        decreases if endOffset == |file.data| then 0 else 1
      {
        var taken := TryTake();
        if taken.Some? {
          return taken.value;
        }
        var settled := Refresh();
        if settled.Some? {
          return settled.value;
        }
      }
    }

    method TryTake() returns (o: Option<Outcome>)
      requires file.Valid()
      modifies this
      ensures var t := Take(file.State(), old(State()));
              o.Some? == t.Some? && if o.Some? then Turn(State(), o.value) == t.value else State() == old(State())
    {
      var end := Min(endOffset, |file.data|);
      var p := Min(position, end);
      o := TryTakeAt(p, end, Peek(file.data, p, end));
    }

    method TryTakeAt(p: nat, end: nat, d: Decoded) returns (o: Option<Outcome>)
      requires file.Valid() && p <= end <= |file.data|
      modifies this
      ensures var t := TakeAt(file.State(), old(State()), p, end, d);
              o.Some? == t.Some? && if o.Some? then Turn(State(), o.value) == t.value else State() == old(State())
    {
      if d.n == 0 && end - p < MAX_VARINT_LEN {
        if !wait || endOffset >= file.maxSize {
          closed, waiting := true, false;
          return Some(EndOfFile);
        }
        return None;
      }
      if d.n <= 0 || p + d.n + d.value > end {
        closed, waiting, position := true, false, end;
        return Some(Corrupt);
      }
      var message, messageOffset := file.data[p + d.n..p + d.n + d.value], offset;
      position, offset := p + d.n + d.value, offset + d.n + d.value;
      return Some(Delivered(message, messageOffset, offset));
    }

    method Refresh() returns (o: Option<Outcome>)
      requires file.Valid()
      modifies this
      ensures LookAgain(file.State(), old(State())) ==
              if o.Some? then Settled(Turn(State(), o.value)) else Refreshed(State())
    {
      if endOffset == file.offset && file.term == term {
        if closed {
          waiting := false;
          return Some(IteratorClosed);
        }
        waiting := true;
        return Some(Waits);
      }
      waiting := false;
      if file.term != term {
        closed := true;
        return Some(IteratorInvalid);
      }
      position, endOffset := endOffset, file.offset;
      return None;
    }

    method Close()
      modifies this
      ensures State() == old(State()).(closed := true)
    {
      closed := true;
    }
  }
}
