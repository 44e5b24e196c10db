/** Arrays of symbols in AMQP 1.0: one constructor for all, chosen by the longest. */
module SymbolArrays {
  import opened Wrappers
  import opened Framing
  import opened Wire
  import opened CodecV1
  import opened MarshalV1

  const ARRAY_8: Byte := 0xe0
  const ARRAY_32: Byte := 0xf0

  // ---------------------------------------------------------------- encoding

  function Higher(a: nat, b: nat): nat {
    if a < b then b else a
  }

  function Longest(ss: seq<Bytes>): nat {
    if ss == [] then 0 else Higher(|ss[0]|, Longest(ss[1..]))
  }

  /** The width of the length of every item. */
  function Width(ss: seq<Bytes>): nat {
    if Longest(ss) <= 255 then 1 else 4
  }

  function Constructor(n: nat): Byte {
    if n == 1 then SYMBOL_8 else SYMBOL_32
  }

  function EncItem(s: Bytes, n: nat): Bytes {
    if n == 1 && |s| <= 255 then [|s|] + s else Size32(|s|) + s
  }

  function EncItems(ss: seq<Bytes>, n: nat): Bytes {
    if ss == [] then [] else EncItem(ss[0], n) + EncItems(ss[1..], n)
  }

  function EncBody(ss: seq<Bytes>, n: nat): Bytes {
    [Constructor(n)] + EncItems(ss, n)
  }

  function EncArray(src: Option<seq<Bytes>>): Bytes {
    match src
    case None => [NULL]
    case Some(ss) => EncCompound(ARRAY_8, ARRAY_32, |ss|, EncBody(ss, Width(ss)))
  }

  // ---------------------------------------------------------------- decoding

  function DecItems(b: Bytes, n: nat, count: nat, done: seq<Bytes>): Parsed<seq<Bytes>>
    decreases count
  {
    if count == 0 then Ok(done, b)
    else
      var item := DecBlock(b, n);
      if item.Fail? then Fail(item.reason) else DecItems(item.rest, n, count - 1, done + [item.value])
  }

  /** The items behind their constructor; a null constructor stands for empty symbols. */
  function DecBody(items: Bytes, count: nat): Result<seq<Bytes>> {
    if count == 0 then Success([])
    else if items == [] then Failure(Underflow)
    else if items[0] == NULL then Success(seq(count, _ => []))
    else if items[0] != SYMBOL_8 && items[0] != SYMBOL_32 then Failure(BadConstructor)
    else
      var p := DecItems(items[1..], if items[0] == SYMBOL_8 then 1 else 4, count, []);
      if p.Fail? then Failure(p.reason) else Success(p.value)
  }

  /** What follows an array's constructor, whose numbers have `n` bytes. The announced size is cut to what
      is there. */
  function DecSized(b: Bytes, n: nat): Parsed<Option<seq<Bytes>>> {
    var size := Take(b, n);
    if size.Fail? then Fail(Underflow)
    else
      var count := Take(size.rest, n);
      if count.Fail? then Fail(Underflow)
      else if FromBe(size.value) < n then Fail(NegativeSize)
      else
        var left := FromBe(size.value) - n;
        var m := if left <= |count.rest| then left else |count.rest|;
        var body := DecBody(count.rest[..m], FromBe(count.value));
        if body.Failure? then Fail(body.reason) else Ok(Some(body.value), count.rest[m..])
  }

  function DecArray(c: Byte, b: Bytes): Parsed<Option<seq<Bytes>>> {
    if c == NULL then Ok(None, b)
    else if c == ARRAY_8 then DecSized(b, 1)
    else if c == ARRAY_32 then DecSized(b, 4)
    else Fail(BadConstructor)
  }

  // ---------------------------------------------------------------- round trip

  predicate FitsOne(s: Bytes, n: nat) {
    (n == 1 && |s| <= 255) || (n == 4 && |s| < TWO_32)
  }

  predicate Fits(ss: seq<Bytes>, n: nat) {
    ss == [] || (FitsOne(ss[0], n) && Fits(ss[1..], n))
  }

  lemma {:induction false} WidthFits(ss: seq<Bytes>, n: nat)
    requires (n == 1 && Longest(ss) <= 255) || (n == 4 && |EncItems(ss, n)| < TWO_32)
    ensures Fits(ss, n)
  {
    if ss != [] {
      WidthFits(ss[1..], n);
    }
  }

  lemma {:induction false} ItemBack(s: Bytes, n: nat, rest: Bytes)
    requires FitsOne(s, n)
    ensures DecBlock(EncItem(s, n) + rest, n) == Ok(s, rest)
  {
    if n == 1 {
      ByteIsBe(|s|);
      BlockBack([|s|], s, rest);
    } else {
      Size32RoundTrip(|s|);
      BlockBack(Size32(|s|), s, rest);
    }
  }

  lemma {:induction false} FirstItem(ss: seq<Bytes>, n: nat)
    requires ss != [] && FitsOne(ss[0], n)
    ensures DecBlock(EncItems(ss, n), n) == Ok(ss[0], EncItems(ss[1..], n))
  {
    ItemBack(ss[0], n, EncItems(ss[1..], n));
  }

  lemma {:induction false} NextItem(b: Bytes, n: nat, ss: seq<Bytes>, others: seq<Bytes>, done: seq<Bytes>,
                                    more: seq<Bytes>, tail: Bytes)
    requires ss != [] && others == ss[1..] && more == done + [ss[0]] && DecBlock(b, n) == Ok(ss[0], tail)
    requires DecItems(tail, n, |others|, more) == Ok(more + others, [])
    ensures DecItems(b, n, |ss|, done) == Ok(done + ss, [])
  {
    assert more + others == done + ss;
    var count: nat := |ss|;
    assert count - 1 == |others|;
    assert DecItems(b, n, count, done) == DecItems(tail, n, count - 1, more);
  }

  lemma {:induction false} ItemsBack(b: Bytes, ss: seq<Bytes>, n: nat, done: seq<Bytes>)
    requires Fits(ss, n) && b == EncItems(ss, n)
    ensures DecItems(b, n, |ss|, done) == Ok(done + ss, [])
    decreases |ss|
  {
    if ss == [] {
      assert done + ss == done;
    } else {
      var others, more := ss[1..], done + [ss[0]];
      var tail := EncItems(others, n);
      FirstItem(ss, n);
      ItemsBack(tail, others, n, more);
      NextItem(b, n, ss, others, done, more, tail);
    }
  }

  lemma {:induction false} BodyBack(ss: seq<Bytes>, n: nat)
    requires Fits(ss, n) && (n == 1 || n == 4)
    ensures DecBody(EncBody(ss, n), |ss|) == Success(ss)
  {
    assert EncBody(ss, n)[1..] == EncItems(ss, n);
    ItemsBack(EncItems(ss, n), ss, n, []);
    assert [] + ss == ss;
  }

  lemma {:induction false} SizedParts(b: Bytes, n: nat, size: Bytes, after: Bytes, counter: Bytes, tail: Bytes,
                                      items: Bytes, ss: seq<Bytes>, rest: Bytes)
    requires Take(b, n) == Ok(size, after) && Take(after, n) == Ok(counter, tail)
    requires FromBe(size) == n + |items| && |items| <= |tail| && tail[..|items|] == items && tail[|items|..] == rest
    requires DecBody(items, FromBe(counter)) == Success(ss)
    ensures DecSized(b, n) == Ok(Some(ss), rest)
  {
  }

  lemma {:induction false} Halves(a: Bytes, b: Bytes)
    ensures (a + b)[..|a|] == a && (a + b)[|a|..] == b
  {
  }

  lemma {:induction false} SizedBack(n: nat, size: Bytes, counter: Bytes, items: Bytes, ss: seq<Bytes>, rest: Bytes)
    requires |size| == |counter| == n && FromBe(size) == n + |items|
    requires DecBody(items, FromBe(counter)) == Success(ss)
    ensures DecSized(size + counter + items + rest, n) == Ok(Some(ss), rest)
  {
    var tail := items + rest;
    TakeExact(size, counter + tail);
    TakeExact(counter, tail);
    Nest(size, counter, items, rest);
    Halves(items, rest);
    SizedParts(size + counter + items + rest, n, size, counter + tail, counter, tail, items, ss, rest);
  }

  lemma {:induction false} TailOf(b: Bytes, c: Byte, body: Bytes, rest: Bytes)
    requires b == [c] + body
    ensures (b + rest)[0] == c && (b + rest)[1..] == body + rest
  {
  }

  lemma {:induction false} SomeBack(ss: seq<Bytes>, n: nat, rest: Bytes)
    requires n == Width(ss) && |ss| < TWO_32 && |EncBody(ss, n)| + 4 < TWO_32
    ensures var b := EncArray(Some(ss)) + rest; DecArray(b[0], b[1..]) == Ok(Some(ss), rest)
  {
    WidthFits(ss, n);
    BodyBack(ss, n);
    var items := EncBody(ss, n);
    var c, k, size, counter := CompoundHead(ARRAY_8, ARRAY_32, |ss|, items);
    TailOf(EncArray(Some(ss)), c, size + counter + items, rest);
    SizedBack(k, size, counter, items, ss, rest);
  }

  // ---------------------------------------------------------------- where it ends

  function ItemsSize(ss: seq<Bytes>, n: nat): nat {
    if ss == [] then 0 else n + |ss[0]| + ItemsSize(ss[1..], n)
  }

  function ArraySize(src: Option<seq<Bytes>>): nat {
    match src
    case None => 1
    case Some(ss) => CompoundSize(|ss|, 1 + ItemsSize(ss, Width(ss)))
  }

  lemma {:induction false} ItemsSizeIs(ss: seq<Bytes>, n: nat)
    requires (n == 1 && Longest(ss) <= 255) || n == 4
    ensures |EncItems(ss, n)| == ItemsSize(ss, n) >= |ss|
  {
    if ss != [] {
      ItemsSizeIs(ss[1..], n);
    }
  }

  /** An array that is decoded leaves what its size field does not cover. */
  lemma {:induction false} Leaves(b: Bytes, size: Bytes, tail: Bytes)
    requires b == size + tail && FromBe(size) < |tail|
    ensures DecSized(b, |size|).Ok? ==> |DecSized(b, |size|).rest| + FromBe(size) == |tail|
  {
    TakeExact(size, tail);
  }

  lemma {:induction false} LeavesMore(size: Bytes, counter: Bytes, items: Bytes, rest: Bytes)
    requires |size| == |counter| == 4 && FromBe(size) < TWO_32 <= |items| + 4
    ensures DecSized(size + counter + items + rest, 4).Ok? ==> DecSized(size + counter + items + rest, 4).rest != rest
  {
    assert size + counter + items + rest == size + (counter + items + rest);
    Leaves(size + counter + items + rest, size, counter + items + rest);
  }

  lemma {:induction false} LongHead(ss: seq<Bytes>, items: Bytes, size: Bytes, counter: Bytes)
    requires items == EncBody(ss, Width(ss)) && |items| + 1 > 255
    requires size == Size32(|items| + 4) && counter == Size32(|ss|)
    ensures EncArray(Some(ss)) == [ARRAY_32] + (size + counter + items)
  {
    Regroup([ARRAY_32], size, counter, items);
  }

  lemma {:induction false} TooLongArray(ss: seq<Bytes>, items: Bytes, rest: Bytes)
    requires items == EncBody(ss, Width(ss)) && |items| + 4 >= TWO_32
    ensures var b := EncArray(Some(ss)) + rest; DecArray(b[0], b[1..]) != Ok(Some(ss), rest)
  {
    var size, counter := Size32(|items| + 4), Size32(|ss|);
    LongHead(ss, items, size, counter);
    Size32IsShort(|items| + 4);
    LongDecoded(EncArray(Some(ss)), size, counter, items, rest);
  }

  lemma {:induction false} LongDecoded(b: Bytes, size: Bytes, counter: Bytes, items: Bytes, rest: Bytes)
    requires b == [ARRAY_32] + (size + counter + items)
    requires |size| == |counter| == 4 && FromBe(size) < TWO_32 <= |items| + 4
    ensures var p := DecArray((b + rest)[0], (b + rest)[1..]); p.Ok? ==> p.rest != rest
  {
    TailOf(b, ARRAY_32, size + counter + items, rest);
    LeavesMore(size, counter, items, rest);
  }

  /** An array of symbols comes back, with whatever follows it untouched, exactly when its encoding has fewer
      bytes than the limit: none, empty, and any number and length of symbols. */
  lemma {:induction false} ArrayExact(src: Option<seq<Bytes>>, rest: Bytes)
    ensures var b := EncArray(src) + rest; DecArray(b[0], b[1..]) == Ok(src, rest) <==> ArraySize(src) < LIMIT
    ensures |EncArray(src)| == ArraySize(src)
  {
    match src {
      case None =>
        TailOf([NULL], NULL, [], rest);
        assert [] + rest == rest;
      case Some(ss) =>
        ItemsSizeIs(ss, Width(ss));
        if ArraySize(src) < LIMIT {
          SomeBack(ss, Width(ss), rest);
        } else {
          TooLongArray(ss, EncBody(ss, Width(ss)), rest);
        }
    }
  }

  /** The bytes of an array: its code by its size, and one code for all symbols by the longest. */
  lemma {:induction false} ArrayBytes(ss: seq<Bytes>, c: Byte, b: Bytes)
    ensures EncArray(None) == [0x40] && DecArray(0x40, b) == Ok(None, b)
    ensures var items := EncBody(ss, Width(ss));
            EncArray(Some(ss))[0] == if |items| + 1 <= 255 && |ss| <= 255 then 0xe0 else 0xf0
    ensures EncBody(ss, Width(ss))[0] == if forall i :: 0 <= i < |ss| ==> |ss[i]| <= 255 then 0xa3 else 0xb3
    ensures c !in {0x40, 0xe0, 0xf0} ==> DecArray(c, b).Fail?
  {
    LongestIs(ss);
  }

  lemma {:induction false} LongestIs(ss: seq<Bytes>)
    ensures Longest(ss) <= 255 <==> forall i :: 0 <= i < |ss| ==> |ss[i]| <= 255
  {
    if ss != [] {
      LongestIs(ss[1..]);
      if forall i :: 0 <= i < |ss| ==> |ss[i]| <= 255 {
        forall i | 0 <= i < |ss[1..]| ensures |ss[1..][i]| <= 255 {
          assert ss[1..][i] == ss[i + 1];
        }
      } else {
        var i :| 0 <= i < |ss| && |ss[i]| > 255;
        assert i > 0 ==> ss[1..][i - 1] == ss[i];
      }
    }
  }

  // ---------------------------------------------------------------- the buffer methods

  method MarshalSymbolArray(src: Option<seq<Bytes>>, buf: Buffer)
    modifies buf
    ensures buf.bytes == old(buf.bytes) + EncArray(src)
  {
    if src.None? {
      buf.Write([NULL]);
      return;
    }
    var ss := src.value;
    var max: nat := 0;
    for i := 0 to |ss|
      invariant Higher(max, Longest(ss[i..])) == Longest(ss)
    {
      assert ss[i..][1..] == ss[i + 1..];
      if |ss[i]| > max {
        max := |ss[i]|;
      }
    }
    var items := MarshalItems(ss, if max <= 255 then 1 else 4);
    WriteCompound(ARRAY_8, ARRAY_32, |ss|, items, buf);
  }

  method MarshalItems(ss: seq<Bytes>, n: nat) returns (items: Buffer)
    ensures fresh(items) && items.bytes == EncBody(ss, n)
  {
    items := new Buffer([Constructor(n)]);
    for i := 0 to |ss|
      invariant items.bytes + EncItems(ss[i..], n) == EncBody(ss, n)
    {
      assert ss[i..][1..] == ss[i + 1..];
      Join(items.bytes, EncItem(ss[i], n), EncItems(ss[i + 1..], n));
      items.Write(EncItem(ss[i], n));
    }
  }

  method UnmarshalItems(items: Buffer, n: nat, count: nat) returns (r: Result<seq<Bytes>>)
    modifies items
    ensures var p := DecItems(old(items.bytes), n, count, []);
            r == if p.Ok? then Success(p.value) else Failure(p.reason)
  {
    var done: seq<Bytes> := [];
    for i := 0 to count
      invariant DecItems(old(items.bytes), n, count, []) == DecItems(items.bytes, n, count - i, done)
    {
      var item := ReadBlock(n, items);
      if item.Failure? {
        return Failure(item.reason);
      }
      done := done + [item.value];
    }
    r := Success(done);
  }

  method UnmarshalSized(n: nat, buf: Buffer) returns (r: Result<Option<seq<Bytes>>>)
    modifies buf
    ensures Consumed(buf, r, DecSized(old(buf.bytes), n))
  {
    var size := ReadUint(n, buf);
    if size.Failure? {
      return Failure(Underflow);
    }
    var count := ReadUint(n, buf);
    if count.Failure? {
      return Failure(Underflow);
    }
    if size.value < n {
      return Failure(NegativeSize);
    }
    var data := buf.Next(size.value - n);
    var body := UnmarshalBody(data, count.value);
    r := if body.Failure? then Failure(body.reason) else Success(Some(body.value));
  }

  method UnmarshalSymbolArray(c: Byte, buf: Buffer) returns (r: Result<Option<seq<Bytes>>>)
    modifies buf
    ensures Consumed(buf, r, DecArray(c, old(buf.bytes)))
  {
    if c == NULL {
      r := Success(None);
    } else if c == ARRAY_8 {
      r := UnmarshalSized(1, buf);
    } else if c == ARRAY_32 {
      r := UnmarshalSized(4, buf);
    } else {
      r := Failure(BadConstructor);
    }
  }

  method UnmarshalBody(data: Bytes, count: nat) returns (r: Result<seq<Bytes>>)
    ensures r == DecBody(data, count)
  {
    if count == 0 {
      return Success([]);
    }
    var items := new Buffer(data);
    var k, ok := items.ReadByte();
    if !ok {
      return Failure(Underflow);
    }
    assert data[1..] == items.bytes;
    if k == NULL {
      return Success(seq(count, _ => []));
    }
    if k != SYMBOL_8 && k != SYMBOL_32 {
      return Failure(BadConstructor);
    }
    r := UnmarshalItems(items, if k == SYMBOL_8 then 1 else 4, count);
  }
}
