/** The AMQP 0-9-1 field types, letter by letter: what the decoder takes them for, and which the encoder
    writes. */
module BytesV0 {
  import opened Wrappers
  import opened Framing
  import opened Wire
  import opened WireBytes
  import opened CodecV0

  function Letter(c: char): Byte
    requires c < 128 as char
  {
    c as int
  }

  lemma {:induction false} After(b: Bytes, c: Byte, body: Bytes)
    requires b == [c] + body
    ensures DecValue(b) == DecWith(KindOf(c), body)
  {
    assert b[1..] == body;
  }

  /** Void, and a boolean in one byte. */
  lemma {:induction false} PlainTypes(a: Byte, rest: Bytes)
    ensures DecValue([Letter('V')] + rest) == Ok(Null, rest)
    ensures DecValue([Letter('t'), a] + rest) == Ok(Boolean(a != 0), rest)
  {
    After([Letter('V')] + rest, Letter('V'), rest);
    After([Letter('t'), a] + rest, Letter('t'), [a] + rest);
    assert ([a] + rest)[1..] == rest;
  }

  lemma {:induction false} IntType(b: Bytes, c: Byte, body: Bytes, signed: bool, half: nat, rest: Bytes)
    requires KindOf(c) == KInt(|body|, signed) && Pow256(|body|) == 2 * half && b == [c] + body + rest
    ensures DecValue(b) == Ok(Number(if signed then TwosComplement(FromBe(body), half) else FromBe(body)), rest)
  {
    assert b == [c] + (body + rest);
    After(b, c, body + rest);
    IntDigits(body, signed, half, rest);
  }

  lemma {:induction false} OneByteNumbers(a: Byte, rest: Bytes)
    ensures DecValue([Letter('B'), a] + rest) == Ok(Number(a), rest)
    ensures DecValue([Letter('b'), a] + rest) == Ok(Number(if a >= 128 then a - 256 else a), rest)
  {
    OneDigit(a);
    IntType([Letter('B'), a] + rest, Letter('B'), [a], false, 0x80, rest);
    IntType([Letter('b'), a] + rest, Letter('b'), [a], true, 0x80, rest);
  }

  /** Both letters for 16 bits are signed; the third is not. */
  lemma {:induction false} TwoByteNumbers(a: Byte, b: Byte, rest: Bytes)
    ensures DecValue([Letter('u'), a, b] + rest) == Ok(Number(256 * a + b), rest)
    ensures DecValue([Letter('s'), a, b] + rest) == DecValue([Letter('U'), a, b] + rest)
         == Ok(Number(if a >= 128 then 256 * a + b - 0x1_0000 else 256 * a + b), rest)
  {
    TwoDigits(a, b);
    IntType([Letter('u'), a, b] + rest, Letter('u'), [a, b], false, 0x8000, rest);
    IntType([Letter('s'), a, b] + rest, Letter('s'), [a, b], true, 0x8000, rest);
    IntType([Letter('U'), a, b] + rest, Letter('U'), [a, b], true, 0x8000, rest);
  }

  lemma {:induction false} FourByteNumbers(a: Byte, b: Byte, c: Byte, d: Byte, rest: Bytes)
    ensures var v := 0x100_0000 * a + 0x1_0000 * b + 0x100 * c + d;
            && DecValue([Letter('i'), a, b, c, d] + rest) == Ok(Number(v), rest)
            && DecValue([Letter('I'), a, b, c, d] + rest) == Ok(Number(if a >= 128 then v - 0x1_0000_0000 else v), rest)
  {
    FourDigits(a, b, c, d);
    IntType([Letter('i'), a, b, c, d] + rest, Letter('i'), [a, b, c, d], false, 0x8000_0000, rest);
    IntType([Letter('I'), a, b, c, d] + rest, Letter('I'), [a, b, c, d], true, 0x8000_0000, rest);
  }

  lemma {:induction false} EightBytes(body: Bytes, rest: Bytes)
    requires |body| == 8
    ensures DecValue([Letter('L')] + body + rest) == Ok(Number(FromBe(body)), rest)
    ensures DecValue([Letter('l')] + body + rest)
         == Ok(Number(TwosComplement(FromBe(body), 0x8000_0000_0000_0000)), rest)
  {
    Powers();
    IntType([Letter('L')] + body + rest, Letter('L'), body, false, 0x8000_0000_0000_0000, rest);
    IntType([Letter('l')] + body + rest, Letter('l'), body, true, 0x8000_0000_0000_0000, rest);
  }

  lemma {:induction false} DoubleBytes(body: Bytes, rest: Bytes)
    requires |body| == 8
    ensures DecValue([Letter('d')] + body + rest) == Ok(Double(FromBe(body)), rest)
  {
    assert [Letter('d')] + body + rest == [Letter('d')] + (body + rest);
    After([Letter('d')] + body + rest, Letter('d'), body + rest);
    TakeExact(body, rest);
  }

  lemma {:induction false} EightByteNumbers(a: Byte, b: Byte, c: Byte, d: Byte, e: Byte, f: Byte, g: Byte, h: Byte,
                                            rest: Bytes)
    ensures var v := 0x1_0000_0000 * (0x100_0000 * a + 0x1_0000 * b + 0x100 * c + d)
                     + (0x100_0000 * e + 0x1_0000 * f + 0x100 * g + h);
            var body := [a, b, c, d, e, f, g, h];
            && DecValue([Letter('L')] + body + rest) == Ok(Number(v), rest)
            && DecValue([Letter('l')] + body + rest)
               == Ok(Number(if a >= 128 then v - 0x1_0000_0000_0000_0000 else v), rest)
            && DecValue([Letter('d')] + body + rest) == Ok(Double(v), rest)
  {
    EightDigits(a, b, c, d, e, f, g, h);
    EightBytes([a, b, c, d, e, f, g, h], rest);
    DoubleBytes([a, b, c, d, e, f, g, h], rest);
  }

  // ---------------------------------------------------------------- types with a length of four bytes

  lemma {:induction false} BlockType(b: Bytes, c: Byte, size: Bytes, content: Bytes, rest: Bytes)
    requires |size| == 4 && FromBe(size) == |content| && b == [c] + size + content + rest
    ensures DecValue(b) == DecWith(KindOf(c), size + content + rest)
    ensures DecBlock(size + content + rest, 4) == Ok(content, rest)
  {
    assert b == [c] + (size + content + rest);
    After(b, c, size + content + rest);
    BlockBack(size, content, rest);
  }

  /** Strings and byte arrays. */
  lemma {:induction false} TextTypes(a: Byte, b: Byte, c: Byte, d: Byte, s: Bytes, rest: Bytes)
    requires |s| == 0x100_0000 * a + 0x1_0000 * b + 0x100 * c + d
    ensures DecValue([Letter('S'), a, b, c, d] + s + rest) == DecValue([Letter('x'), a, b, c, d] + s + rest)
         == Ok(Text(s), rest)
  {
    FourDigits(a, b, c, d);
    BlockType([Letter('S'), a, b, c, d] + s + rest, Letter('S'), [a, b, c, d], s, rest);
    BlockType([Letter('x'), a, b, c, d] + s + rest, Letter('x'), [a, b, c, d], s, rest);
  }

  /** An array holds values to the end of its content. */
  lemma {:induction false} ArrayType(a: Byte, b: Byte, c: Byte, d: Byte, content: Bytes, values: seq<Value>,
                                     rest: Bytes)
    requires |content| == 0x100_0000 * a + 0x1_0000 * b + 0x100 * c + d && DecAll(content, []) == Success(values)
    ensures DecValue([Letter('A'), a, b, c, d] + content + rest) == Ok(List(values), rest)
  {
    FourDigits(a, b, c, d);
    BlockType([Letter('A'), a, b, c, d] + content + rest, Letter('A'), [a, b, c, d], content, rest);
  }

  lemma {:induction false} ValuesInTurn(first: Bytes, more: Bytes, v: Value, done: seq<Value>)
    requires first + more != [] && DecValue(first + more) == Ok(v, more)
    ensures DecAll(first + more, done) == DecAll(more, done + [v])
    ensures DecAll([], done) == Success(done)
  {
  }

  /** A table holds fields to the end of its content; one without content is none. */
  lemma {:induction false} TableType(a: Byte, b: Byte, c: Byte, d: Byte, content: Bytes, fields: seq<Field>,
                                     rest: Bytes)
    requires |content| == 0x100_0000 * a + 0x1_0000 * b + 0x100 * c + d && DecFields(content, []) == Success(fields)
    ensures DecValue([Letter('F'), a, b, c, d] + content + rest)
         == Ok(if content == [] then NilStruct else Struct(fields), rest)
  {
    FourDigits(a, b, c, d);
    BlockType([Letter('F'), a, b, c, d] + content + rest, Letter('F'), [a, b, c, d], content, rest);
    assert KindOf(Letter('F')) == KTable;
    TableData([a, b, c, d] + content + rest, content, fields, rest);
  }

  lemma {:induction false} TableData(b: Bytes, content: Bytes, fields: seq<Field>, rest: Bytes)
    requires DecBlock(b, 4) == Ok(content, rest) && DecFields(content, []) == Success(fields)
    ensures DecWith(KTable, b) == Ok(if content == [] then NilStruct else Struct(fields), rest)
  {
    assert DecTableData(content) == Success(if content == [] then NilStruct else Struct(fields));
    assert DecTable(b) == Ok(if content == [] then NilStruct else Struct(fields), rest);
  }

  /** The name of a field has a length of one byte and no letter. */
  lemma {:induction false} FieldsInTurn(name: Bytes, second: Bytes, more: Bytes, v: Value, done: seq<Field>)
    requires |name| <= 255 && DecValue(second + more) == Ok(v, more) && FreshName(done, name)
    ensures DecFields([|name|] + name + (second + more), done) == DecFields(more, done + [Field(name, v)])
    ensures DecFields([], done) == Success(done)
  {
    OneDigit(|name|);
    BlockBack([|name|], name, second + more);
    StoreFresh(done, name, v);
  }

  // ---------------------------------------------------------------- everything else

  lemma {:induction false} OtherBytes(c: Byte, rest: Bytes)
    ensures DecValue([]).Fail?
    ensures c !in {Letter('V'), Letter('t'), Letter('b'), Letter('B'), Letter('s'), Letter('U'), Letter('u'),
                   Letter('I'), Letter('i'), Letter('l'), Letter('L'), Letter('d'), Letter('S'), Letter('x'),
                   Letter('A'), Letter('F')} ==>
      DecValue([c] + rest).Fail?
    ensures c in {Letter('t'), Letter('b'), Letter('B')} ==> DecValue([c]).Fail?
    ensures c in {Letter('s'), Letter('U'), Letter('u')} && |rest| < 2 ==> DecValue([c] + rest).Fail?
    ensures c in {Letter('I'), Letter('i'), Letter('S'), Letter('x'), Letter('A'), Letter('F')} && |rest| < 4 ==>
      DecValue([c] + rest).Fail?
    ensures c in {Letter('l'), Letter('L'), Letter('d')} && |rest| < 8 ==> DecValue([c] + rest).Fail?
  {
    After([c] + rest, c, rest);
    After([c], c, []);
  }

  // ---------------------------------------------------------------- the encoder

  lemma {:induction false} PlainEncoded(b: bool)
    ensures Enc(Null) == Some([Letter('V')]) && Enc(Boolean(b)) == Some([Letter('t'), if b then 1 else 0])
  {
  }

  /** The letter of a number depends on its size. */
  lemma {:induction false} NumberEncoded(i: int, bits: nat)
    requires -0x8000_0000_0000_0000 <= i < 0x8000_0000_0000_0000
    ensures Enc(Number(i)).Some?
    ensures var b := Enc(Number(i)).value;
            && (-0x80 <= i < 0x80 ==> b[0] == Letter('b') && |b| == 2)
            && (!(-0x80 <= i < 0x80) && -0x8000 <= i < 0x8000 ==> b[0] == Letter('s') && |b| == 3)
            && (!(-0x8000 <= i < 0x8000) && -0x8000_0000 <= i < 0x8000_0000 ==> b[0] == Letter('I') && |b| == 5)
            && (!(-0x8000_0000 <= i < 0x8000_0000) ==> b[0] == Letter('l') && |b| == 9)
    ensures Enc(Double(bits)).Some? && Enc(Double(bits)).value[0] == Letter('d') && |Enc(Double(bits)).value| == 9
  {
  }

  /** The letter, four bytes of length, and the content. */
  predicate Written(r: Option<Bytes>, letter: char, content: Bytes)
    requires letter < 128 as char
  {
    r.Some? && |r.value| == 5 + |content| && r.value[0] == Letter(letter) && r.value[5..] == content
  }

  lemma {:induction false} BlocksEncoded(s: Bytes, values: seq<Value>, fields: seq<Field>)
    ensures |s| < 0x1_0000_0000 ==> Written(Enc(Text(s)), 'S', s)
    ensures EncAll(values).Some? && |EncAll(values).value| < 0x1_0000_0000 ==>
      Written(Enc(List(values)), 'A', EncAll(values).value)
    ensures EncFields(fields).Some? && |EncFields(fields).value| < 0x1_0000_0000 ==>
      Written(Enc(Struct(fields)), 'F', EncFields(fields).value)
    ensures Written(Enc(NilStruct), 'F', [])
  {
  }
}
