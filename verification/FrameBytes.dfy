/** The bytes of a segment file, digit by digit. */
module FrameBytes {
  import opened Framing
  import opened SegmentFile

  /** Digits of seven bits, least significant first. */
  function Digits(b: seq<Byte>): nat {
    if b == [] then 0 else b[0] % 128 + 128 * Digits(b[1..])
  }

  /** Every byte but the last has its top bit set. */
  predicate Chained(b: seq<Byte>) {
    b != [] && b[|b| - 1] < 128 && forall k :: 0 <= k < |b| - 1 ==> b[k] >= 128
  }

  /** A length is written as its digits, without a superfluous zero at the end. */
  lemma {:induction false} PutDigits(x: nat)
    ensures Digits(PutUvarint(x)) == x && Chained(PutUvarint(x))
    ensures |PutUvarint(x)| > 1 ==> PutUvarint(x)[|PutUvarint(x)| - 1] > 0
    decreases x
  {
    var b := PutUvarint(x);
    if x < 128 {
      assert b[1..] == [];
    } else {
      PutDigits(x / 128);
      assert b[1..] == PutUvarint(x / 128);
    }
  }

  lemma {:induction false} ChainedRest(b: seq<Byte>)
    requires Chained(b) && |b| > 1
    ensures b[0] >= 128 && Chained(b[1..]) && Digits(b) == b[0] - 128 + 128 * Digits(b[1..])
  {
    var rest := b[1..];
    assert rest[|rest| - 1] == b[|b| - 1];
    forall k | 0 <= k < |rest| - 1 ensures rest[k] >= 128 {
      assert rest[k] == b[k + 1];
    }
  }

  lemma {:induction false} ReadDigitsFrom(c: seq<Byte>, p: nat, end: nat, i: nat, n: nat)
    requires p + i < p + n <= end <= |c| && Chained(c[p + i..p + n])
    ensures LengthFrom(c, p, end, i) ==
            if n < 10 || (n == 10 && c[p + 9] <= 1) then Decoded(Digits(c[p + i..p + n]), n)
            else Decoded(0, -(n as int))
    decreases n - i
  {
    var b := c[p + i..p + n];
    assert b[0] == c[p + i];
    if i + 1 < n {
      ChainedRest(b);
      assert b[1..] == c[p + (i + 1)..p + n];
      ReadDigitsFrom(c, p, end, i + 1, n);
    } else {
      assert b == [c[p + i]] && b[1..] == [];
    }
  }

  /** A chain of bytes is read as its digits if they fit 64 bits, and as too long otherwise. */
  lemma {:induction false} ReadDigits(c: seq<Byte>, p: nat, end: nat, n: nat)
    requires p < p + n <= end <= |c| && Chained(c[p..p + n])
    ensures LengthAt(c, p, end) ==
            if n < 10 || (n == 10 && c[p + 9] <= 1) then Decoded(Digits(c[p..p + n]), n) else Decoded(0, -(n as int))
  {
    ReadDigitsFrom(c, p, end, 0, n);
  }

  lemma {:induction false} OpenChainFrom(c: seq<Byte>, p: nat, end: nat, i: nat)
    requires p + i <= end <= |c| && forall k :: p + i <= k < end ==> c[k] >= 128
    ensures LengthFrom(c, p, end, i) == Decoded(0, 0)
    decreases end - i
  {
    if p + i < end {
      OpenChainFrom(c, p, end, i + 1);
    }
  }

  /** A chain that does not end is read as nothing. */
  lemma {:induction false} OpenChain(c: seq<Byte>, p: nat, end: nat)
    requires p <= end <= |c| && forall k :: p <= k < end ==> c[k] >= 128
    ensures LengthAt(c, p, end) == Decoded(0, 0)
  {
    OpenChainFrom(c, p, end, 0);
  }

  /** A file starts with a byte of one, and each record is its length and its bytes. */
  lemma {:induction false} DiskBytes(ms: seq<Message>, m: Message)
    ensures Disk([]) == [1]
    ensures Disk(ms + [m]) == Disk(ms) + PutUvarint(|m|) + m
    ensures |m| < 128 ==> Disk(ms + [m]) == Disk(ms) + [|m|] + m
  {
    FramesAppend(ms, m);
    assert Disk(ms + [m]) == Disk(ms) + Frame(m);
    assert Disk(ms) + (PutUvarint(|m|) + m) == Disk(ms) + PutUvarint(|m|) + m;
  }

  // ---------------------------------------------------------------- the scan and the file

  /** An empty file gets its first byte; any other first byte is refused. */
  lemma {:induction false} FirstByte(c: seq<Byte>)
    ensures Recover([]) == Opened([1])
    ensures c != [] && c[0] != 1 ==> Recover(c) == BadVersion
    ensures c != [] && c[0] == 1 ==> Recover(c) == ScanFrom(c, 1) && Recover(c) != BadVersion
  {
    if c != [] {
      NeverBadVersion(c, 1);
    }
  }

  lemma {:induction false} NeverBadVersion(c: seq<Byte>, p: nat)
    ensures ScanFrom(c, p) != BadVersion
    decreases |c| - p
  {
    if p < |c| {
      var s := ScanStep(c, p, Peek(c, p, |c|));
      if s.Next? {
        NeverBadVersion(c, s.offset);
      }
    }
  }

  /** One round of the scan, with the length `v` and its width `n` at offset `p`: their sum is a signed 64-bit
      number. It has to be positive, must not leave 64 bits, cuts the file if it leads past its end, and is
      stepped over otherwise. */
  lemma {:induction false} RoundExact(c: seq<Byte>, p: nat, v: nat, n: int)
    requires p < |c| <= MAX_INT64 && Peek(c, p, |c|) == Decoded(v, n)
    ensures n == 0 ==> ScanFrom(c, p) == BadLength(p)
    ensures n < 0 ==> ScanFrom(c, p) == NoProgress(p)
    ensures n > 0 && v + n >= 0x8000_0000_0000_0000 && v + n - 0x1_0000_0000_0000_0000 <= 0 ==>
      ScanFrom(c, p) == NoProgress(p)
    ensures n > 0 && v + n < 0x8000_0000_0000_0000 ==>
      && (p + v + n > 0x7fff_ffff_ffff_ffff ==> ScanFrom(c, p) == SeekFailed)
      && (|c| < p + v + n <= 0x7fff_ffff_ffff_ffff ==> ScanFrom(c, p) == Opened(c[..p]))
      && (p + v + n <= |c| ==> ScanFrom(c, p) == ScanFrom(c, p + v + n))
    ensures n > 0 && v + n > 0x1_0000_0000_0000_0000 ==>
      var q := p + v + n - 0x1_0000_0000_0000_0000;
      ScanFrom(c, p) == if q > |c| then Opened(c[..p]) else ScanFrom(c, q)
  {
    LengthIs64Bits(c, p, Min(p + MAX_VARINT_LEN, |c|));
    ScanRound(c, p, Decoded(v, n), ScanStep(c, p, Decoded(v, n)));
  }

  /** Truncating succeeds exactly for sizes that are there, keeps at least the first byte, and changes the term. */
  lemma {:induction false} TruncateExact(s: FileState, size: int)
    requires |s.data| >= 1
    ensures var (s', r) := TruncateTo(s, size);
            && (r == Truncated <==> 0 <= size <= |s.data|)
            && (r == NegativeSize <==> size < 0) && (r == WouldExtend <==> size > |s.data|)
            && (r != Truncated ==> s' == s)
            && (r == Truncated ==>
                  && |s'.data| == (if size == 0 then 1 else size) && s'.data <= s.data
                  && s'.maxSize == s.maxSize && s'.term == (s.term + 1) % 0x1_0000_0000)
  {
  }

  /** A checksum covers as many of the first bytes as asked for, or all. */
  lemma {:induction false} SumExact(s: FileState, size: int)
    ensures SumOf(s, size) <= s.data
    ensures |SumOf(s, size)| == if 1 <= size <= |s.data| then size else |s.data|
  {
  }
}
