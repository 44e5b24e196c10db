/** A segment file on disk: recovery scan, append, truncation and reading. */
module SegmentFile {
  import opened Framing

  // ---------------------------------------------------------------- opening

  /** A length prefix and its payload, added as signed 64-bit integers. */
  function Increment(d: Decoded): (i: int) {
    if d.value <= MAX_INT64 - d.n then d.n + d.value else d.n + d.value - TWO_64
  }

  function Min(a: int, b: int): int {
    if a <= b then a else b
  }

  /** The length prefix a read of at most ten bytes at `p` shows. */
  function Peek(c: seq<Byte>, p: nat, end: nat): Decoded
    requires p <= end <= |c|
  {
    LengthAt(c, p, Min(p + MAX_VARINT_LEN, end))
  }

  /** Length and prefix always add up to a signed 64-bit number, whatever bytes are found. */
  lemma {:induction false} IncrementIs64Bits(c: seq<Byte>, p: nat, end: nat)
    requires p <= end <= |c| && Peek(c, p, end).n > 0
    ensures -(MAX_INT64 + 1) <= Increment(Peek(c, p, end)) <= MAX_INT64
  {
    LengthIs64Bits(c, p, Min(p + MAX_VARINT_LEN, end));
  }

  /** `NoProgress` stands for a length whose signed sum with its prefix is not positive: the scan
      then moves backwards or stays in place. */
  datatype OpenResult =
    | Opened(data: seq<Byte>)
    | BadVersion
    | BadLength(at: nat)
    | SeekFailed
    | NoProgress(at: nat)

  datatype Step = Done(result: OpenResult) | Next(offset: nat)

  /** One round of the recovery scan, on the length prefix read at `offset`. */
  function ScanStep(c: seq<Byte>, offset: nat, d: Decoded): (s: Step)
    requires offset < |c|
    ensures s.Next? ==> offset < s.offset <= |c|
  {
    var increment := Increment(d);
    if d.n == 0 then Done(BadLength(offset))
    else if increment <= 0 then Done(NoProgress(offset))
    else if offset + increment > MAX_INT64 then Done(SeekFailed)
    else if offset + increment > |c| then Done(Opened(c[..offset]))
    else Next(offset + increment)
  }

  function ScanFrom(c: seq<Byte>, offset: nat): OpenResult
    decreases |c| - offset
  {
    if offset >= |c| then Opened(c)
    else
      match ScanStep(c, offset, Peek(c, offset, |c|))
      case Done(r) => r
      case Next(offset') => ScanFrom(c, offset')
  }

  lemma {:induction false} ScanRound(c: seq<Byte>, offset: nat, d: Decoded, s: Step)
    requires offset < |c| && d == Peek(c, offset, |c|) && s == ScanStep(c, offset, d)
    ensures ScanFrom(c, offset) == if s.Done? then s.result else ScanFrom(c, s.offset)
  {
  }

  /** The outcome of opening a file with this content, and the content it is left with. */
  function Recover(c: seq<Byte>): OpenResult {
    if c == [] then Opened([VERSION])
    else if c[0] != VERSION then BadVersion
    else ScanFrom(c, 1)
  }

  /** The scan with its one buffer, which is cut to the last read and never grows back. */
  method Scan(content: seq<Byte>) returns (r: OpenResult, offset: nat)
    requires |content| <= MAX_INT64
    ensures r == Recover(content)
    ensures r.Opened? ==> offset == |r.data| >= 1
  {
    offset := 1;
    var size := |content|;
    if size == 0 {
      return Opened([VERSION]), 1;
    }
    if content[0] != VERSION {
      return BadVersion, offset;
    }
    var bufferSize := MAX_VARINT_LEN;
    while offset < size
      invariant 1 <= offset <= size
      invariant bufferSize <= MAX_VARINT_LEN
      invariant bufferSize >= Min(MAX_VARINT_LEN, size - offset)
      invariant ScanFrom(content, 1) == ScanFrom(content, offset)
    {
      bufferSize := Min(bufferSize, size - offset);
      var d := LengthAt(content, offset, offset + bufferSize);
      ScanRound(content, offset, d, ScanStep(content, offset, d));
      if d.n == 0 {
        return BadLength(offset), offset;
      }
      var increment := Increment(d);
      if increment <= 0 {
        return NoProgress(offset), offset;
      }
      if offset + increment > MAX_INT64 {
        return SeekFailed, offset;
      }
      if offset + increment > size {
        return Opened(content[..offset]), offset;
      }
      offset := offset + increment;
    }
    r := Opened(content);
  }

  // ---------------------------------------------------------------- what recovery yields

  /** The length prefix of a record, or of as much of it as there is. */
  lemma {:induction false} PeekRecord(c: seq<Byte>, p: nat, end: nat, m: Message)
    requires |m| < TWO_64 && p <= end <= |c| && StandsAt(c, p, end, Frame(m))
    ensures Peek(c, p, end) ==
            if p + |PutUvarint(|m|)| <= end then Decoded(|m|, |PutUvarint(|m|)|) else Decoded(0, 0)
  {
    LengthOfFrame(m, c, p, Min(p + MAX_VARINT_LEN, end));
  }

  /** The scan steps over a whole record. */
  lemma {:induction false} ScanRecord(c: seq<Byte>, p: nat, q: nat)
    requires p < |c| <= MAX_INT64 && Peek(c, p, |c|).n > 0
    requires q == p + Peek(c, p, |c|).n + Peek(c, p, |c|).value <= |c|
    ensures ScanFrom(c, p) == ScanFrom(c, q)
  {
  }

  /** What the scan reads at the start of record `k`. */
  lemma {:induction false} PeekLog(ms: seq<Message>, c: seq<Byte>, k: nat)
    requires Disk(ms) <= c && |c| <= MAX_INT64 && k < |ms|
    ensures var p, q := Position(ms, k), Position(ms, k + 1);
            && p < q <= |c|
            && Peek(c, p, |c|).n > 0
            && q == p + Peek(c, p, |c|).n + Peek(c, p, |c|).value
  {
    var p, m := Position(ms, k), ms[k];
    FrameIn(ms, c, k);
    PeekRecord(c, p, |c|, m);
  }

  /** The scan reaches the end of the last whole record. */
  lemma {:induction false} ScanWholeRecords(ms: seq<Message>, c: seq<Byte>, k: nat)
    requires Disk(ms) <= c && |c| <= MAX_INT64 && k <= |ms|
    ensures ScanFrom(c, Position(ms, k)) == ScanFrom(c, |Disk(ms)|)
    decreases |ms| - k
  {
    if k == |ms| {
      PositionEnds(ms);
    } else {
      PeekLog(ms, c, k);
      ScanRecord(c, Position(ms, k), Position(ms, k + 1));
      ScanWholeRecords(ms, c, k + 1);
    }
  }

  /** A file of whole records is opened as it is. */
  lemma {:induction false} RecoverLog(ms: seq<Message>)
    requires |Disk(ms)| <= MAX_INT64
    ensures Recover(Disk(ms)) == Opened(Disk(ms))
  {
    PositionEnds(ms);
    ScanWholeRecords(ms, Disk(ms), 0);
  }

  /** The scan stops at a torn record. */
  lemma {:induction false} ScanTorn(c: seq<Byte>, p: nat, m: Message)
    requires p < |c| < p + |Frame(m)| <= MAX_INT64
    requires StandsAt(c, p, |c|, Frame(m))
    ensures ScanFrom(c, p) ==
            if |c| - p >= |PutUvarint(|m|)| then Opened(c[..p]) else BadLength(p)
  {
    PeekRecord(c, p, |c|, m);
  }

  /** A crash in the middle of a write: a cut after the length prefix is repaired to the last whole
      record; a cut inside the length prefix makes opening fail. */
  lemma {:induction false} RecoverTorn(ms: seq<Message>, m: Message, cut: nat)
    requires 0 < cut < |Frame(m)|
    requires |Disk(ms)| + |Frame(m)| <= MAX_INT64
    ensures Recover(Disk(ms) + Frame(m)[..cut]) ==
            if cut >= |PutUvarint(|m|)| then Opened(Disk(ms)) else BadLength(|Disk(ms)|)
  {
    var c, p := Disk(ms) + Frame(m)[..cut], |Disk(ms)|;
    PositionEnds(ms);
    ScanWholeRecords(ms, c, 0);
    assert StandsAt(c, p, |c|, Frame(m));
    ScanTorn(c, p, m);
    assert c[..p] == Disk(ms);
  }

  /** Walking the records of `c` from `p`, every length prefix ends at or before `end`. */
  predicate PrefixesWithin(c: seq<Byte>, p: nat, end: nat)
    requires end <= |c|
    decreases end - p
  {
    p >= end ||
    var d := Peek(c, p, |c|);
    p + d.n <= end && (Increment(d) > 0 ==> PrefixesWithin(c, p + Increment(d), end))
  }

  /** Opening what opening left behind changes nothing exactly when every length prefix met on the
      way lies inside it. */
  lemma {:induction false} ReopenExact(c: seq<Byte>)
    requires 1 <= |c| <= MAX_INT64 && Recover(c).Opened?
    ensures var d := Recover(c).data;
            && 1 <= |d| && d <= c
            && (Recover(d) == Opened(d) <==> PrefixesWithin(c, 1, |d|))
  {
    ScanStable(c, Recover(c).data, 1);
  }

  /** The length prefix at `p` of a file, read again after the file was cut. */
  lemma {:induction false} PeekAfterCut(c: seq<Byte>, d: seq<Byte>, p: nat)
    requires d <= c && p <= |d| && Peek(c, p, |c|).n > 0
    ensures Peek(d, p, |d|) ==
            if p + Peek(c, p, |c|).n <= |d| then Peek(c, p, |c|) else Decoded(0, 0)
  {
    LengthLocal(c, Min(p + MAX_VARINT_LEN, |c|), d, Min(p + MAX_VARINT_LEN, |d|), p, 0);
  }

  lemma {:induction false} ScanCuts(c: seq<Byte>, p: nat)
    requires p <= |c| && ScanFrom(c, p).Opened?
    ensures p <= |ScanFrom(c, p).data| && ScanFrom(c, p).data <= c
    decreases |c| - p
  {
    if p < |c| {
      var s := ScanStep(c, p, Peek(c, p, |c|));
      if s.Next? {
        ScanCuts(c, s.offset);
      }
    }
  }

  /** What opening leaves starts with the version byte. */
  lemma {:induction false} RecoverStarts(c: seq<Byte>)
    requires Recover(c).Opened?
    ensures |Recover(c).data| >= 1 && Recover(c).data[0] == VERSION
  {
    if c != [] {
      ScanCuts(c, 1);
    }
  }

  lemma {:induction false} ScanStable(c: seq<Byte>, d: seq<Byte>, p: nat)
    requires 1 <= p <= |c| <= MAX_INT64
    requires ScanFrom(c, p) == Opened(d)
    ensures p <= |d| && d <= c
    ensures ScanFrom(d, p) == Opened(d) <==> PrefixesWithin(c, p, |d|)
    decreases |c| - p
  {
    ScanCuts(c, p);
    if p < |d| {
      var r := Peek(c, p, |c|);
      var q := ScanStep(c, p, r).offset;
      ScanCuts(c, q);
      ScanStable(c, d, q);
      PeekAfterCut(c, d, p);
      StableRound(c, d, p, r, q);
    }
  }

  lemma {:induction false} StableRound(c: seq<Byte>, d: seq<Byte>, p: nat, r: Decoded, q: nat)
    requires p < |d| <= |c| <= MAX_INT64 && r == Peek(c, p, |c|) && ScanStep(c, p, r) == Next(q) && q <= |d|
    requires Peek(d, p, |d|) == if p + r.n <= |d| then r else Decoded(0, 0)
    requires ScanFrom(d, q) == Opened(d) <==> PrefixesWithin(c, q, |d|)
    ensures ScanFrom(d, p) == Opened(d) <==> PrefixesWithin(c, p, |d|)
  {
    ScanRound(d, p, Peek(d, p, |d|), ScanStep(d, p, Peek(d, p, |d|)));
  }

  // ---------------------------------------------------------------- the open file

  const TWO_32: nat := 0x1_0000_0000

  datatype FileState = FileState(data: seq<Byte>, maxSize: int, term: nat)

  function Full(s: FileState): bool {
    |s.data| >= s.maxSize
  }

  /** Appends one record, unless the file had already reached its maximum size. */
  function Appended(s: FileState, m: Message): FileState {
    if Full(s) then s else s.(data := s.data + Frame(m))
  }

  datatype TruncateResult = Truncated | NegativeSize | WouldExtend

  function TruncateTo(s: FileState, size: int): (FileState, TruncateResult)
    requires |s.data| >= 1
  {
    var target := if size == 0 then 1 else size;
    if size < 0 then (s, NegativeSize)
    else if target > |s.data| then (s, WouldExtend)
    else (s.(data := s.data[..target], term := (s.term + 1) % TWO_32), Truncated)
  }

  /** The bytes a checksum request covers: the checksum is taken to be injective, so it is modelled
      by the bytes themselves. A request past the end covers what is there. */
  function SumOf(s: FileState, size: int): seq<Byte> {
    if size < 1 || size > |s.data| then s.data else s.data[..size]
  }

  class File {
    var data: seq<Byte>
    var offset: int
    var term: nat
    const maxSize: int

    ghost predicate Valid()
      reads this
    {
      offset == |data| >= 1 && data[0] == VERSION && term < TWO_32
    }

    function State(): FileState
      reads this
    {
      FileState(data, maxSize, term)
    }

    /** Opens a file with this content, which the recovery scan must accept. */
    constructor (content: seq<Byte>, maxSize: int)
      requires Recover(content).Opened?
      ensures Valid() && State() == FileState(Recover(content).data, maxSize, 1)
    {
      RecoverStarts(content);
      var recovered := Recover(content).data;
      this.data, this.offset, this.term, this.maxSize := recovered, |recovered|, 1, maxSize;
    }

    /** `written` is how many bytes the operating system took; a short write is rolled back. */
    method Write(m: Message, written: nat) returns (full: bool, failed: bool)
      requires Valid() && written <= |Frame(m)|
      modifies this
      ensures Valid()
      ensures full == old(Full(State()))
      ensures failed == (!full && written < |Frame(m)|)
      ensures State() == if failed then old(State()) else Appended(old(State()), m)
    {
      var currentOffset := offset;
      if currentOffset >= maxSize {
        return true, false;
      }
      var buf := Frame(m);
      data := data + buf[..written];
      if written < |buf| {
        data := data[..currentOffset];
        return false, true;
      }
      offset := offset + |buf|;
      return false, false;
    }

    method IsFull() returns (full: bool)
      requires Valid()
      ensures full == Full(State())
    {
      full := offset >= maxSize;
    }

    method Truncate(size: int) returns (r: TruncateResult)
      requires Valid()
      modifies this
      ensures Valid()
      ensures (State(), r) == TruncateTo(old(State()), size)
    {
      if size < 0 {
        return NegativeSize;
      }
      var target := if size == 0 then 1 else size; // keep the version byte
      if target > offset {
        return WouldExtend;
      } else if target < offset {
        data, offset := data[..target], target;
      }
      term := (term + 1) % TWO_32;
      assert data == old(data)[..target];
      return Truncated;
    }

    method Sum(size: int) returns (sum: seq<Byte>, actualSize: int)
      requires Valid()
      ensures sum == SumOf(State(), size)
      ensures actualSize == if size < 1 then |data| else size
    {
      actualSize := if size < 1 then offset else size;
      sum := data[..Min(actualSize, |data|)];
    }

    method Close()
      requires Valid()
      modifies this
      ensures Valid() && State() == old(State()).(term := (old(term) + 1) % TWO_32)
    {
      term := (term + 1) % TWO_32;
    }
  }
}
