/** The AMQP 1.0 codes of section 1.6, byte by byte: what the decoder takes them for, and which the encoder
    writes. */
module BytesV1 {
  import opened Framing
  import opened Wire
  import opened WireBytes
  import opened CodecV1

  // ---------------------------------------------------------------- values of fixed width

  lemma {:induction false} After(b: Bytes, c: Byte, body: Bytes)
    requires b == [c] + body
    ensures DecValue(b) == DecWith(KindOf(c), body)
  {
    assert b[1..] == body;
  }

  /** null, true and false. */
  lemma {:induction false} ConstantCodes(rest: Bytes)
    ensures DecValue([0x40] + rest) == Ok(Null, rest)
    ensures DecValue([0x41] + rest) == Ok(Boolean(true), rest)
    ensures DecValue([0x42] + rest) == Ok(Boolean(false), rest)
  {
    After([0x40] + rest, 0x40, rest);
    After([0x41] + rest, 0x41, rest);
    After([0x42] + rest, 0x42, rest);
  }

  /** The zeros and the empty list. */
  lemma {:induction false} EmptyCodes(rest: Bytes)
    ensures DecValue([0x43] + rest) == DecValue([0x44] + rest) == Ok(Number(0), rest)
    ensures DecValue([0x45] + rest) == Ok(List([]), rest)
  {
    After([0x43] + rest, 0x43, rest);
    After([0x44] + rest, 0x44, rest);
    After([0x45] + rest, 0x45, rest);
  }

  lemma {:induction false} BooleanCode(a: Byte, rest: Bytes)
    ensures DecValue([0x56, a] + rest) == Ok(Boolean(a != 0), rest)
  {
    After([0x56, a] + rest, 0x56, [a] + rest);
    assert ([a] + rest)[1..] == rest;
  }

  lemma {:induction false} IntCode(b: Bytes, c: Byte, body: Bytes, signed: bool, half: nat, rest: Bytes)
    requires KindOf(c) == KInt(|body|, signed) && Pow256(|body|) == 2 * half && b == [c] + body + rest
    ensures DecValue(b) == Ok(Number(if signed then TwosComplement(FromBe(body), half) else FromBe(body)), rest)
  {
    assert b == [c] + (body + rest);
    After(b, c, body + rest);
    IntDigits(body, signed, half, rest);
  }

  /** ubyte, smalluint and smallulong; byte, smallint and smalllong. */
  lemma {:induction false} OneByteNumbers(a: Byte, rest: Bytes)
    ensures DecValue([0x50, a] + rest) == DecValue([0x52, a] + rest) == DecValue([0x53, a] + rest)
         == Ok(Number(a), rest)
    ensures DecValue([0x51, a] + rest) == DecValue([0x54, a] + rest) == DecValue([0x55, a] + rest)
         == Ok(Number(if a >= 128 then a - 256 else a), rest)
  {
    OneDigit(a);
    IntCode([0x50, a] + rest, 0x50, [a], false, 0x80, rest);
    IntCode([0x52, a] + rest, 0x52, [a], false, 0x80, rest);
    IntCode([0x53, a] + rest, 0x53, [a], false, 0x80, rest);
    IntCode([0x51, a] + rest, 0x51, [a], true, 0x80, rest);
    IntCode([0x54, a] + rest, 0x54, [a], true, 0x80, rest);
    IntCode([0x55, a] + rest, 0x55, [a], true, 0x80, rest);
  }

  /** ushort and short. */
  lemma {:induction false} TwoByteNumbers(a: Byte, b: Byte, rest: Bytes)
    ensures DecValue([0x60, a, b] + rest) == Ok(Number(256 * a + b), rest)
    ensures DecValue([0x61, a, b] + rest) == Ok(Number(if a >= 128 then 256 * a + b - 0x1_0000 else 256 * a + b), rest)
  {
    TwoDigits(a, b);
    IntCode([0x60, a, b] + rest, 0x60, [a, b], false, 0x8000, rest);
    IntCode([0x61, a, b] + rest, 0x61, [a, b], true, 0x8000, rest);
  }

  /** uint, int and char. */
  lemma {:induction false} FourByteNumbers(a: Byte, b: Byte, c: Byte, d: Byte, rest: Bytes)
    ensures var v := 0x100_0000 * a + 0x1_0000 * b + 0x100 * c + d;
            && DecValue([0x70, a, b, c, d] + rest) == Ok(Number(v), rest)
            && DecValue([0x71, a, b, c, d] + rest) == DecValue([0x73, a, b, c, d] + rest)
               == Ok(Number(if a >= 128 then v - 0x1_0000_0000 else v), rest)
  {
    FourDigits(a, b, c, d);
    IntCode([0x70, a, b, c, d] + rest, 0x70, [a, b, c, d], false, 0x8000_0000, rest);
    IntCode([0x71, a, b, c, d] + rest, 0x71, [a, b, c, d], true, 0x8000_0000, rest);
    IntCode([0x73, a, b, c, d] + rest, 0x73, [a, b, c, d], true, 0x8000_0000, rest);
  }

  lemma {:induction false} EightBytes(body: Bytes, rest: Bytes)
    requires |body| == 8
    ensures DecValue([0x80] + body + rest) == Ok(Number(FromBe(body)), rest)
    ensures DecValue([0x81] + body + rest) == Ok(Number(TwosComplement(FromBe(body), 0x8000_0000_0000_0000)), rest)
  {
    Powers();
    IntCode([0x80] + body + rest, 0x80, body, false, 0x8000_0000_0000_0000, rest);
    IntCode([0x81] + body + rest, 0x81, body, true, 0x8000_0000_0000_0000, rest);
  }

  lemma {:induction false} DoubleBytes(body: Bytes, rest: Bytes)
    requires |body| == 8
    ensures DecValue([0x82] + body + rest) == Ok(Double(FromBe(body)), rest)
  {
    assert [0x82] + body + rest == [0x82] + (body + rest);
    After([0x82] + body + rest, 0x82, body + rest);
    TakeExact(body, rest);
  }

  /** ulong, long and double. */
  lemma {:induction false} EightByteNumbers(a: Byte, b: Byte, c: Byte, d: Byte, e: Byte, f: Byte, g: Byte, h: Byte,
                                            rest: Bytes)
    ensures var v := 0x1_0000_0000 * (0x100_0000 * a + 0x1_0000 * b + 0x100 * c + d)
                     + (0x100_0000 * e + 0x1_0000 * f + 0x100 * g + h);
            var body := [a, b, c, d, e, f, g, h];
            && DecValue([0x80] + body + rest) == Ok(Number(v), rest)
            && DecValue([0x81] + body + rest) == Ok(Number(if a >= 128 then v - 0x1_0000_0000_0000_0000 else v), rest)
            && DecValue([0x82] + body + rest) == Ok(Double(v), rest)
  {
    EightDigits(a, b, c, d, e, f, g, h);
    EightBytes([a, b, c, d, e, f, g, h], rest);
    DoubleBytes([a, b, c, d, e, f, g, h], rest);
  }

  // ---------------------------------------------------------------- strings and symbols

  lemma {:induction false} TextCode(b: Bytes, c: Byte, size: Bytes, s: Bytes, rest: Bytes)
    requires KindOf(c) == KText(|size|) && FromBe(size) == |s| && b == [c] + size + s + rest
    ensures DecValue(b) == Ok(Text(s), rest)
  {
    assert b == [c] + (size + s + rest);
    After(b, c, size + s + rest);
    BlockBack(size, s, rest);
  }

  /** A length of one byte. */
  lemma {:induction false} ShortTexts(s: Bytes, rest: Bytes)
    requires |s| <= 255
    ensures DecValue([0xa1, |s|] + s + rest) == DecValue([0xa3, |s|] + s + rest) == Ok(Text(s), rest)
  {
    OneDigit(|s|);
    TextCode([0xa1, |s|] + s + rest, 0xa1, [|s|], s, rest);
    TextCode([0xa3, |s|] + s + rest, 0xa3, [|s|], s, rest);
  }

  /** A length of four bytes. */
  lemma {:induction false} LongTexts(a: Byte, b: Byte, c: Byte, d: Byte, s: Bytes, rest: Bytes)
    requires |s| == 0x100_0000 * a + 0x1_0000 * b + 0x100 * c + d
    ensures DecValue([0xb1, a, b, c, d] + s + rest) == DecValue([0xb3, a, b, c, d] + s + rest) == Ok(Text(s), rest)
  {
    FourDigits(a, b, c, d);
    TextCode([0xb1, a, b, c, d] + s + rest, 0xb1, [a, b, c, d], s, rest);
    TextCode([0xb3, a, b, c, d] + s + rest, 0xb3, [a, b, c, d], s, rest);
  }

  // ---------------------------------------------------------------- lists and maps

  /** Values one after another. */
  lemma {:induction false} ValuesInTurn(first: Bytes, more: Bytes, v: Value, count: nat, done: seq<Value>)
    requires DecValue(first + more) == Ok(v, more)
    ensures DecAll(first + more, count + 1, done) == DecAll(more, count, done + [v])
    ensures DecAll(more, 0, done) == Ok(done, more)
  {
  }

  lemma {:induction false} ListCode(b: Bytes, c: Byte, size: Bytes, counter: Bytes, items: Bytes, values: seq<Value>,
                                    tail: Bytes, rest: Bytes)
    requires |size| == |counter| >= 1 && KindOf(c) == KList(|size|) && FromBe(size) == |counter| + |items|
    requires DecAll(items, FromBe(counter), []) == Ok(values, tail) && b == [c] + (size + counter + items + rest)
    ensures DecValue(b) == Ok(List(values), rest)
  {
    After(b, c, size + counter + items + rest);
    CompoundBack(size, counter, items, rest);
  }

  /** A size that covers the count, the count, and the values. */
  lemma {:induction false} ShortList(count: Byte, items: Bytes, values: seq<Value>, tail: Bytes, rest: Bytes)
    requires |items| + 1 <= 255 && DecAll(items, count, []) == Ok(values, tail)
    ensures DecValue([0xc0, |items| + 1, count] + items + rest) == Ok(List(values), rest)
  {
    OneDigit(|items| + 1);
    OneDigit(count);
    var b := [0xc0, |items| + 1, count] + items + rest;
    assert b == [0xc0] + ([|items| + 1] + [count] + items + rest);
    ListCode(b, 0xc0, [|items| + 1], [count], items, values, tail, rest);
  }

  lemma {:induction false} LongList(a: Byte, b: Byte, c: Byte, d: Byte, e: Byte, f: Byte, g: Byte, h: Byte,
                                    items: Bytes, values: seq<Value>, tail: Bytes, rest: Bytes)
    requires |items| + 4 == 0x100_0000 * a + 0x1_0000 * b + 0x100 * c + d
    requires DecAll(items, 0x100_0000 * e + 0x1_0000 * f + 0x100 * g + h, []) == Ok(values, tail)
    ensures DecValue([0xd0, a, b, c, d, e, f, g, h] + items + rest) == Ok(List(values), rest)
  {
    FourDigits(a, b, c, d);
    FourDigits(e, f, g, h);
    var bytes := [0xd0, a, b, c, d, e, f, g, h] + items + rest;
    assert bytes == [0xd0] + ([a, b, c, d] + [e, f, g, h] + items + rest);
    ListCode(bytes, 0xd0, [a, b, c, d], [e, f, g, h], items, values, tail, rest);
  }

  /** A key, its value, and the pairs after them. */
  lemma {:induction false} PairsInTurn(first: Bytes, second: Bytes, more: Bytes, name: Bytes, v: Value, count: nat,
                                       done: seq<Field>)
    requires DecValue(first + (second + more)) == Ok(Text(name), second + more)
    requires DecValue(second + more) == Ok(v, more) && FreshName(done, name)
    ensures DecFields(first + (second + more), count + 1, done) == DecFields(more, count, done + [Field(name, v)])
    ensures DecFields(more, 0, done) == Ok(done, more)
  {
    StoreFresh(done, name, v);
  }

  lemma {:induction false} MapCode(b: Bytes, c: Byte, size: Bytes, counter: Bytes, items: Bytes, count: nat,
                                   fields: seq<Field>, tail: Bytes, rest: Bytes)
    requires |size| == |counter| >= 1 && KindOf(c) == KMap(|size|) && FromBe(size) == |counter| + |items|
    requires FromBe(counter) == 2 * count && DecFields(items, count, []) == Ok(fields, tail)
    requires b == [c] + (size + counter + items + rest)
    ensures DecValue(b) == Ok(Struct(fields), rest)
  {
    After(b, c, size + counter + items + rest);
    CompoundBack(size, counter, items, rest);
  }

  /** The count is that of keys and values together. */
  lemma {:induction false} ShortMap(count: nat, items: Bytes, fields: seq<Field>, tail: Bytes, rest: Bytes)
    requires |items| + 1 <= 255 && 2 * count <= 255 && DecFields(items, count, []) == Ok(fields, tail)
    ensures DecValue([0xc1, |items| + 1, 2 * count] + items + rest) == Ok(Struct(fields), rest)
  {
    OneDigit(|items| + 1);
    OneDigit(2 * count);
    var b := [0xc1, |items| + 1, 2 * count] + items + rest;
    assert b == [0xc1] + ([|items| + 1] + [2 * count] + items + rest);
    MapCode(b, 0xc1, [|items| + 1], [2 * count], items, count, fields, tail, rest);
  }

  lemma {:induction false} LongMap(a: Byte, b: Byte, c: Byte, d: Byte, e: Byte, f: Byte, g: Byte, h: Byte, count: nat,
                                   items: Bytes, fields: seq<Field>, tail: Bytes, rest: Bytes)
    requires |items| + 4 == 0x100_0000 * a + 0x1_0000 * b + 0x100 * c + d
    requires 2 * count == 0x100_0000 * e + 0x1_0000 * f + 0x100 * g + h
    requires DecFields(items, count, []) == Ok(fields, tail)
    ensures DecValue([0xd1, a, b, c, d, e, f, g, h] + items + rest) == Ok(Struct(fields), rest)
  {
    FourDigits(a, b, c, d);
    FourDigits(e, f, g, h);
    var bytes := [0xd1, a, b, c, d, e, f, g, h] + items + rest;
    assert bytes == [0xd1] + ([a, b, c, d] + [e, f, g, h] + items + rest);
    MapCode(bytes, 0xd1, [a, b, c, d], [e, f, g, h], items, count, fields, tail, rest);
  }

  // ---------------------------------------------------------------- everything else

  /** A code that is none of these, or too few bytes after one, is an error. */
  lemma {:induction false} OtherBytes(c: Byte, rest: Bytes)
    ensures DecValue([]).Fail?
    ensures c !in {0x40, 0x41, 0x42, 0x43, 0x44, 0x45, 0x50, 0x51, 0x52, 0x53, 0x54, 0x55, 0x56, 0x60, 0x61, 0x70, 0x71,
                   0x73, 0x80, 0x81, 0x82, 0xa1, 0xa3, 0xb1, 0xb3, 0xc0, 0xc1, 0xd0, 0xd1} ==>
      DecValue([c] + rest).Fail?
    ensures c in {0x50, 0x51, 0x52, 0x53, 0x54, 0x55, 0x56, 0xa1, 0xa3, 0xc0, 0xc1} ==> DecValue([c]).Fail?
    ensures c in {0x60, 0x61} && |rest| < 2 ==> DecValue([c] + rest).Fail?
    ensures c in {0x70, 0x71, 0x73, 0xb1, 0xb3, 0xd0, 0xd1} && |rest| < 4 ==> DecValue([c] + rest).Fail?
    ensures c in {0x80, 0x81, 0x82} && |rest| < 8 ==> DecValue([c] + rest).Fail?
  {
    After([c] + rest, c, rest);
    After([c], c, []);
  }

  // ---------------------------------------------------------------- the encoder

  /** The bytes of values without content. */
  lemma {:induction false} PlainEncoded()
    ensures Enc(Null) == [0x40] && Enc(Boolean(true)) == [0x41] && Enc(Boolean(false)) == [0x42]
    ensures Enc(List([])) == [0x45] && Enc(NilStruct) == [0xc1, 0x00]
  {
  }

  /** The form of a number depends on its size; its digits are those that decoding gives back. */
  lemma {:induction false} NumberEncoded(i: int)
    requires -0x8000_0000_0000_0000 <= i < 0x8000_0000_0000_0000
    ensures var b := Enc(Number(i));
            && (-0x80 <= i < 0x80 ==> b[0] == 0x51 && |b| == 2)
            && (!(-0x80 <= i < 0x80) && -0x8000 <= i < 0x8000 ==> b[0] == 0x61 && |b| == 3)
            && (!(-0x8000 <= i < 0x8000) && -0x8000_0000 <= i < 0x8000_0000 ==> b[0] == 0x71 && |b| == 5)
            && (!(-0x8000_0000 <= i < 0x8000_0000) ==> b[0] == 0x81 && |b| == 9)
  {
  }

  lemma {:induction false} DoubleEncoded(bits: nat)
    ensures Enc(Double(bits))[0] == 0x82 && |Enc(Double(bits))| == 9
  {
  }

  lemma {:induction false} TextEncoded(s: Bytes)
    ensures |s| <= 255 ==> Enc(Text(s)) == [0xa1, |s|] + s
    ensures |s| > 255 ==> Enc(Text(s))[0] == 0xb1 && |Enc(Text(s))| == 5 + |s| && Enc(Text(s))[5..] == s
    ensures |s| <= 255 ==> EncSymbol(s) == [0xa3, |s|] + s
    ensures |s| > 255 ==> EncSymbol(s)[0] == 0xa3 && |EncSymbol(s)| == 5 + |s| && EncSymbol(s)[5..] == s
  {
  }

  /** The form of a list or map depends on the size of its items and on their number. */
  lemma {:induction false} CompoundEncoded(values: seq<Value>, fields: seq<Field>)
    ensures var n := |EncAll(values)|;
            values != [] ==>
              if n + 1 <= 255 && |values| <= 255
              then Enc(List(values)) == [0xc0, n + 1, |values|] + EncAll(values)
              else Enc(List(values))[0] == 0xd0 && |Enc(List(values))| == 9 + n
                   && Enc(List(values))[9..] == EncAll(values)
    ensures var n := |EncFields(fields)|;
            if n + 1 <= 255 && 2 * |fields| <= 255
            then Enc(Struct(fields)) == [0xc1, n + 1, 2 * |fields|] + EncFields(fields)
            else Enc(Struct(fields))[0] == 0xd1 && |Enc(Struct(fields))| == 9 + n
                 && Enc(Struct(fields))[9..] == EncFields(fields)
  {
  }
}
