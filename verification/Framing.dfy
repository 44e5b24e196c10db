/** Bytes, the variable-length record prefix and the byte layout of a segment file. */
module Framing {

  type Byte = x: int | 0 <= x < 256 witness 0

  const VERSION: Byte := 1
  const MAX_VARINT_LEN: nat := 10
  const TWO_64: nat := 0x1_0000_0000_0000_0000
  const MAX_INT64: nat := 0x7fff_ffff_ffff_ffff

  type Message = seq<Byte>

  // ---------------------------------------------------------------- unsigned varints

  /** Seven bits a byte, least significant first; all bytes but the last have the top bit set. */
  function PutUvarint(x: nat): (b: seq<Byte>)
    ensures |b| >= 1
  {
    if x < 128 then [x]
    else var q := x / 128; [x - 128 * q + 128] + PutUvarint(q)
  }

  /** `n` bytes consumed; `n == 0` means the buffer is too small, `n < 0` a value over 64 bits. */
  datatype Decoded = Decoded(value: nat, n: int)

  /** What is left for the value of the groups from index `i` on. */
  function Room(i: nat): (r: nat)
    requires i <= 9
    ensures r >= if i == 9 then 2 else 256
    decreases 9 - i
  {
    if i == 9 then 2 else 128 * Room(i + 1)
  }

  /** Decodes the length prefix at `p`, looking at no byte from `end` on; `i` bytes are done. */
  function LengthFrom(c: seq<Byte>, p: nat, end: nat, i: nat): (d: Decoded)
    requires p + i <= end <= |c|
    ensures d.n > 0 ==> i < d.n <= MAX_VARINT_LEN && p + d.n <= end
    ensures d.n <= 0 ==> d.value == 0
    decreases end - i
  {
    if p + i == end then Decoded(0, 0)
    else
      var b := c[p + i];
      if b < 128 then
        if i > 9 || (i == 9 && b > 1) then Decoded(0, -(i + 1)) else Decoded(b, i + 1)
      else
        var d := LengthFrom(c, p, end, i + 1);
        if d.n <= 0 then Decoded(0, d.n) else Decoded(b - 128 + 128 * d.value, d.n)
  }

  function LengthAt(c: seq<Byte>, p: nat, end: nat): Decoded
    requires p <= end <= |c|
  {
    LengthFrom(c, p, end, 0)
  }

  lemma {:induction false} RoomIs64Bits()
    ensures Room(0) == TWO_64
  {
    assert Room(7) == 32768;
    assert Room(5) == 536870912;
    assert Room(3) == 8796093022208;
    assert Room(1) == 144115188075855872;
  }

  lemma {:induction false} LengthHasRoom(c: seq<Byte>, p: nat, end: nat, i: nat)
    requires p + i <= end <= |c| && i <= 9 && LengthFrom(c, p, end, i).n > 0
    ensures LengthFrom(c, p, end, i).value < Room(i)
    decreases end - i
  {
    if c[p + i] >= 128 {
      LengthHasRoom(c, p, end, i + 1);
    }
  }

  /** Whatever the bytes are, a length fits 64 bits and its prefix ten bytes. */
  lemma {:induction false} LengthIs64Bits(c: seq<Byte>, p: nat, end: nat)
    requires p <= end <= |c|
    ensures 0 <= LengthAt(c, p, end).value < TWO_64 && LengthAt(c, p, end).n <= MAX_VARINT_LEN
  {
    RoomIs64Bits();
    if LengthAt(c, p, end).n > 0 {
      LengthHasRoom(c, p, end, 0);
    }
  }

  /** The bytes `f` stand in `c` at `p`, or as many of them as fit before `end`. */
  predicate StandsAt(c: seq<Byte>, p: nat, end: nat, f: seq<Byte>)
    requires end <= |c|
  {
    forall k :: 0 <= k < |f| && p + k < end ==> c[p + k] == f[k]
  }

  /** Decoding an encoded 64-bit value: whole, whatever follows it; a cut prefix decodes to nothing. */
  lemma {:induction false} LengthOfPut(x: nat, c: seq<Byte>, p: nat, end: nat, i: nat)
    requires i <= 9 && x < Room(i) && p + i <= end <= |c|
    requires StandsAt(c, p + i, end, PutUvarint(x))
    ensures LengthFrom(c, p, end, i) ==
            if p + i + |PutUvarint(x)| <= end then Decoded(x, i + |PutUvarint(x)|) else Decoded(0, 0)
    ensures i + |PutUvarint(x)| <= MAX_VARINT_LEN
    decreases x
  {
    var f := PutUvarint(x);
    assert p + i < end ==> c[p + i + 0] == f[0];
    if x >= 128 {
      var g := PutUvarint(x / 128);
      if p + i < end {
        forall k | 0 <= k < |g| && p + i + 1 + k < end ensures c[p + (i + 1) + k] == g[k] {
          assert c[p + i + (k + 1)] == f[k + 1];
        }
        LengthOfPut(x / 128, c, p, end, i + 1);
      } else {
        PutLength(x / 128, i + 1);
      }
    }
  }

  lemma {:induction false} PutLength(x: nat, i: nat)
    requires i <= 9 && x < Room(i)
    ensures i + |PutUvarint(x)| <= MAX_VARINT_LEN
    decreases x
  {
    if x >= 128 {
      PutLength(x / 128, i + 1);
    }
  }

  lemma {:induction false} LengthRoundTrip(x: nat, c: seq<Byte>, p: nat, end: nat)
    requires x < TWO_64 && p <= end <= |c| && StandsAt(c, p, end, PutUvarint(x))
    ensures LengthAt(c, p, end) ==
            if p + |PutUvarint(x)| <= end then Decoded(x, |PutUvarint(x)|) else Decoded(0, 0)
    ensures |PutUvarint(x)| <= MAX_VARINT_LEN
  {
    RoomIs64Bits();
    LengthOfPut(x, c, p, end, 0);
  }

  /** A successful decode depends on the bytes it consumes, and needs them all. */
  lemma {:induction false} LengthLocal(c: seq<Byte>, end: nat, d: seq<Byte>, end': nat, p: nat, i: nat)
    requires p + i <= end <= |c| && p + i <= end' <= |d|
    requires LengthFrom(c, p, end, i).n > 0
    requires forall k :: p + i <= k < p + LengthFrom(c, p, end, i).n && k < end' ==> c[k] == d[k]
    ensures LengthFrom(d, p, end', i) ==
            if p + LengthFrom(c, p, end, i).n <= end' then LengthFrom(c, p, end, i) else Decoded(0, 0)
    decreases end - i
  {
    if p + i < end' && c[p + i] >= 128 {
      LengthLocal(c, end, d, end', p, i + 1);
    }
  }

  // ---------------------------------------------------------------- records and files

  function Frame(m: Message): (f: seq<Byte>)
    ensures |f| >= 1 + |m|
  {
    PutUvarint(|m|) + m
  }

  function Frames(ms: seq<Message>): seq<Byte> {
    if ms == [] then [] else Frames(ms[..|ms| - 1]) + Frame(ms[|ms| - 1])
  }

  /** The bytes of a segment file that holds exactly these messages. */
  function Disk(ms: seq<Message>): (d: seq<Byte>)
    ensures |d| >= 1
  {
    [VERSION] + Frames(ms)
  }

  /** The offset at which message `k` starts, and the commit offset of message `k - 1`. */
  function Position(ms: seq<Message>, k: nat): (p: nat)
    requires k <= |ms|
    ensures p >= 1
  {
    |Disk(ms[..k])|
  }

  lemma {:induction false} FramesAppend(ms: seq<Message>, m: Message)
    ensures Frames(ms + [m]) == Frames(ms) + Frame(m)
    ensures Disk(ms + [m]) == Disk(ms) + Frame(m)
  {
    assert (ms + [m])[..|ms|] == ms;
  }

  lemma {:induction false} FramesConcat(a: seq<Message>, b: seq<Message>)
    ensures Frames(a + b) == Frames(a) + Frames(b)
    decreases |b|
  {
    if b == [] {
      assert a + b == a;
    } else {
      var front, last := b[..|b| - 1], b[|b| - 1];
      assert a + b == (a + front) + [last] && b == front + [last];
      FramesAppend(a + front, last);
      FramesAppend(front, last);
      FramesConcat(a, front);
      JoinBytes(Frames(a), Frames(front), Frame(last));
    }
  }

  lemma {:induction false} JoinBytes(a: seq<Byte>, b: seq<Byte>, c: seq<Byte>)
    ensures (a + b) + c == a + (b + c)
  {
  }

  /** Message `k` occupies the bytes between two consecutive positions. */
  lemma {:induction false} FrameAt(ms: seq<Message>, k: nat)
    requires k < |ms|
    ensures Position(ms, k + 1) == Position(ms, k) + |Frame(ms[k])| <= |Disk(ms)|
    ensures Disk(ms)[Position(ms, k)..Position(ms, k + 1)] == Frame(ms[k])
    ensures Disk(ms)[..Position(ms, k)] == Disk(ms[..k])
  {
    assert ms[..k + 1] == ms[..k] + [ms[k]];
    FramesAppend(ms[..k], ms[k]);
    assert ms == ms[..k + 1] + ms[k + 1..];
    FramesConcat(ms[..k + 1], ms[k + 1..]);
  }

  /** Record `k` of a log, inside any file that starts with the log. */
  lemma {:induction false} FrameIn(ms: seq<Message>, c: seq<Byte>, k: nat)
    requires Disk(ms) <= c && k < |ms|
    ensures Position(ms, k + 1) == Position(ms, k) + |Frame(ms[k])| <= |Disk(ms)|
    ensures StandsAt(c, Position(ms, k), |c|, Frame(ms[k]))
  {
    FrameAt(ms, k);
    var p, f := Position(ms, k), Frame(ms[k]);
    forall i | 0 <= i < |f| ensures c[p + i] == f[i] {
      assert Disk(ms)[p..Position(ms, k + 1)][i] == f[i];
    }
  }

  lemma {:induction false} PositionEnds(ms: seq<Message>)
    ensures Position(ms, |ms|) == |Disk(ms)|
    ensures Position(ms, 0) == 1
  {
    assert ms[..|ms|] == ms;
  }

  lemma {:induction false} PositionsIncrease(ms: seq<Message>, i: nat, j: nat)
    requires i <= j <= |ms|
    ensures Position(ms, i) <= Position(ms, j)
    ensures i < j ==> Position(ms, i) < Position(ms, j)
    decreases j - i
  {
    if i < j {
      FrameAt(ms, i);
      PositionsIncrease(ms, i + 1, j);
    }
  }

  /** Positions of old messages do not move when messages are appended. */
  lemma {:induction false} PositionStable(ms: seq<Message>, more: seq<Message>, k: nat)
    requires k <= |ms|
    ensures Position(ms + more, k) == Position(ms, k)
  {
    assert (ms + more)[..k] == ms[..k];
  }

  /** The framing is uniquely decodable: a byte prefix is a message prefix. */
  lemma {:induction false} DiskPrefix(a: seq<Message>, b: seq<Message>)
    requires |Disk(b)| < TWO_64
    ensures Disk(a) <= Disk(b) <==> a <= b
  {
    if Disk(a) <= Disk(b) {
      CommonMessages(a, b, |a|);
      assert a[..|a|] == a;
    }
    if a <= b {
      FramesConcat(a, b[|a|..]);
      assert a + b[|a|..] == b;
    }
  }

  lemma {:induction false} CommonMessages(a: seq<Message>, b: seq<Message>, k: nat)
    requires Disk(a) <= Disk(b) && |Disk(b)| < TWO_64 && k <= |a|
    ensures k <= |b| && a[..k] == b[..k]
    decreases k
  {
    if k > 0 {
      CommonMessages(a, b, k - 1);
      var p := Position(a, k - 1);
      assert p == Position(b, k - 1);
      FrameIn(a, Disk(b), k - 1);
      PositionEnds(b);
      FrameIn(b, Disk(b), k - 1);
      SameFrame(a[k - 1], b[k - 1], Disk(b), p);
      assert a[..k] == a[..k - 1] + [a[k - 1]];
      assert b[..k] == b[..k - 1] + [b[k - 1]];
    }
  }

  lemma {:induction false} StandsAtPrefix(c: seq<Byte>, p: nat, end: nat, f: seq<Byte>, g: seq<Byte>)
    requires f <= g && p <= end <= |c| && StandsAt(c, p, end, g)
    ensures StandsAt(c, p, end, f)
  {
  }

  /** The length prefix of a record, or of as much of it as stands before `end`. */
  lemma {:induction false} LengthOfFrame(m: Message, c: seq<Byte>, p: nat, end: nat)
    requires |m| < TWO_64 && p <= end <= |c| && StandsAt(c, p, end, Frame(m))
    ensures LengthAt(c, p, end) ==
            if p + |PutUvarint(|m|)| <= end then Decoded(|m|, |PutUvarint(|m|)|) else Decoded(0, 0)
    ensures |PutUvarint(|m|)| <= MAX_VARINT_LEN
  {
    StandsAtPrefix(c, p, end, PutUvarint(|m|), Frame(m));
    LengthRoundTrip(|m|, c, p, end);
  }

  lemma {:induction false} SameFrame(m: Message, n: Message, b: seq<Byte>, p: nat)
    requires |b| < TWO_64
    requires p + |Frame(m)| <= |b| && StandsAt(b, p, |b|, Frame(m))
    requires p + |Frame(n)| <= |b| && StandsAt(b, p, |b|, Frame(n))
    ensures m == n
  {
    LengthOfFrame(m, b, p, |b|);
    LengthOfFrame(n, b, p, |b|);
    var at := |PutUvarint(|m|)|;
    forall k | 0 <= k < |m| ensures m[k] == n[k] {
      assert m[k] == Frame(m)[at + k] == b[p + (at + k)] == Frame(n)[at + k] == n[k];
    }
  }
}
