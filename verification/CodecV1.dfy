/** The AMQP 1.0 value encoding (section 1.6 of OASIS AMQP 1.0 Part 1), as far as message values use it. */
module CodecV1 {
  import opened Framing
  import opened Wire

  const NULL: Byte := 0x40
  const BOOLEAN: Byte := 0x56
  const BOOLEAN_TRUE: Byte := 0x41
  const BOOLEAN_FALSE: Byte := 0x42
  const UBYTE: Byte := 0x50
  const USHORT: Byte := 0x60
  const UINT: Byte := 0x70
  const UINT_SMALL: Byte := 0x52
  const UINT_0: Byte := 0x43
  const ULONG: Byte := 0x80
  const ULONG_SMALL: Byte := 0x53
  const ULONG_0: Byte := 0x44
  const BYTE: Byte := 0x51
  const SHORT: Byte := 0x61
  const INT: Byte := 0x71
  const CHAR: Byte := 0x73
  const INT_SMALL: Byte := 0x54
  const LONG: Byte := 0x81
  const LONG_SMALL: Byte := 0x55
  const DOUBLE: Byte := 0x82
  const STRING_8: Byte := 0xa1
  const STRING_32: Byte := 0xb1
  const SYMBOL_8: Byte := 0xa3
  const SYMBOL_32: Byte := 0xb3
  const LIST_0: Byte := 0x45
  const LIST_8: Byte := 0xc0
  const LIST_32: Byte := 0xd0
  const MAP_8: Byte := 0xc1
  const MAP_32: Byte := 0xd1

  // ---------------------------------------------------------------- encoding

  function EncNumber(i: int): (b: Bytes)
    ensures |b| >= 1
  {
    if -TWO_7 <= i < TWO_7 then [BYTE, Unsigned(i, TWO_8)]
    else if -TWO_15 <= i < TWO_15 then [SHORT] + Be(Unsigned(i, TWO_16), 2)
    else if -TWO_31 <= i < TWO_31 then [INT] + Be(Unsigned(i, TWO_32), 4)
    else if -TWO_63 <= i < TWO_63 then [LONG] + Be(Unsigned(i, TWO_64), 8)
    else [LONG] + Be(TWO_63, 8)
  }

  function BlockSize(n: nat): nat {
    n + if n <= 255 then 2 else 5
  }

  function CompoundSize(count: nat, n: nat): nat {
    n + if n + 1 <= 255 && count <= 255 then 3 else 9
  }

  /** A length of one byte if it fits, of four bytes otherwise, and the content. */
  function EncBlock(narrow: Byte, wide: Byte, content: Bytes): (b: Bytes)
    ensures |b| == BlockSize(|content|)
  {
    if |content| <= 255 then [narrow, |content|] + content
    else [wide] + Size32(|content|) + content
  }

  /** Size and count of a compound value, both in one byte if both fit; the size covers the count. */
  function EncCompound(narrow: Byte, wide: Byte, count: nat, items: Bytes): (b: Bytes)
    ensures |b| == CompoundSize(count, |items|)
  {
    if |items| + 1 <= 255 && count <= 255 then [narrow, |items| + 1, count] + items
    else [wide] + Size32(|items| + 4) + Size32(count) + items
  }

  function Enc(v: Value): (b: Bytes)
    ensures |b| >= 1
    decreases v, 1
  {
    match v
    case Null => [NULL]
    case Number(i) => EncNumber(i)
    case Double(bits) => [DOUBLE] + Be(bits, 8)
    case Text(s) => EncBlock(STRING_8, STRING_32, s)
    case Boolean(b) => [if b then BOOLEAN_TRUE else BOOLEAN_FALSE]
    case NilStruct => [MAP_8, 0]
    case Struct(fields) => EncCompound(MAP_8, MAP_32, 2 * |fields|, EncFields(fields))
    case List(values) => if values == [] then [LIST_0] else EncCompound(LIST_8, LIST_32, |values|, EncAll(values))
  }

  function EncAll(vs: seq<Value>): (b: Bytes)
    ensures |b| >= |vs|
    decreases vs, 0
  {
    if vs == [] then [] else Enc(vs[0]) + EncAll(vs[1..])
  }

  function EncFields(fs: seq<Field>): (b: Bytes)
    ensures |b| >= 2 * |fs|
    decreases fs, 0
  {
    if fs == [] then [] else EncField(fs[0]) + EncFields(fs[1..])
  }

  function EncField(f: Field): (b: Bytes)
    ensures |b| >= 2
    decreases f, 2
  {
    EncBlock(STRING_8, STRING_32, f.name) + Enc(f.value)
  }

  // ---------------------------------------------------------------- decoding

  function DecText(b: Bytes, n: nat): (p: Parsed<Value>)
    ensures p.Ok? ==> |p.rest| <= |b|
  {
    var t := DecBlock(b, n);
    if t.Fail? then Fail(t.reason) else Ok(Text(t.value), t.rest)
  }

  /** What follows a constructor byte; `n` is the width of its numbers. */
  datatype Kind =
    | KNull
    | KTrue
    | KFalse
    | KBoolean
    | KZero
    | KInt(n: nat, signed: bool)
    | KDouble
    | KText(n: nat)
    | KEmptyList
    | KList(n: nat)
    | KMap(n: nat)
    | KOther(reason: Reason)

  function KindOf(c: Byte): (k: Kind)
    ensures k.KList? || k.KMap? ==> k.n >= 1
  {
    if c == NULL then KNull
    else if c == BOOLEAN_TRUE then KTrue
    else if c == BOOLEAN_FALSE then KFalse
    else if c == BOOLEAN then KBoolean
    else if c == UINT_0 || c == ULONG_0 then KZero
    else if c == UBYTE || c == UINT_SMALL || c == ULONG_SMALL then KInt(1, false)
    else if c == USHORT then KInt(2, false)
    else if c == UINT then KInt(4, false)
    else if c == ULONG then KInt(8, false)
    else if c == BYTE || c == INT_SMALL || c == LONG_SMALL then KInt(1, true)
    else if c == SHORT then KInt(2, true)
    else if c == INT || c == CHAR then KInt(4, true)
    else if c == LONG then KInt(8, true)
    else if c == DOUBLE then KDouble
    else if c == STRING_8 || c == SYMBOL_8 then KText(1)
    else if c == STRING_32 || c == SYMBOL_32 then KText(4)
    else if c == LIST_0 then KEmptyList
    else if c == LIST_8 then KList(1)
    else if c == LIST_32 then KList(4)
    else if c == MAP_8 then KMap(1)
    else if c == MAP_32 then KMap(4)
    else if c in {0x74, 0x84, 0x94} then KOther(NotImplemented) // decimals
    else KOther(if NotModelledConstructor(c) then NotModelled else BadConstructor)
  }

  function DecValue(b: Bytes): (p: Parsed<Value>)
    ensures p.Ok? ==> |p.rest| < |b|
    decreases |b|, 0
  {
    if b == [] then Fail(Underflow) else DecWith(KindOf(b[0]), b[1..])
  }

  function DecWith(k: Kind, b: Bytes): (p: Parsed<Value>)
    requires k.KList? || k.KMap? ==> k.n >= 1
    ensures p.Ok? ==> |p.rest| <= |b|
    decreases |b|, 3
  {
    match k
    case KNull => Ok(Null, b)
    case KTrue => Ok(Boolean(true), b)
    case KFalse => Ok(Boolean(false), b)
    case KBoolean => if b == [] then Fail(Underflow) else Ok(Boolean(b[0] != 0), b[1..])
    case KZero => Ok(Number(0), b)
    case KInt(n, signed) => DecInt(b, n, signed)
    case KDouble => DecDouble(b)
    case KText(n) => DecText(b, n)
    case KEmptyList => Ok(List([]), b)
    case KList(n) => DecList(b, n)
    case KMap(n) => DecMap(b, n)
    case KOther(reason) => Fail(reason)
  }

  /** Codes that only the decoder knows: float, timestamp, uuid, binary and arrays. */
  predicate NotModelledConstructor(c: Byte) {
    c in {0x72, 0x83, 0x98, 0xa0, 0xb0, 0xe0, 0xf0}
  }

  function DecList(b: Bytes, n: nat): (p: Parsed<Value>)
    requires n >= 1
    ensures p.Ok? ==> |p.rest| <= |b|
    decreases |b|, 2
  {
    var t := DecBlock(b, n);
    if t.Fail? then Fail(t.reason)
    else
      var c := Take(t.value, n);
      if c.Fail? then Fail(c.reason)
      else
        var items := DecAll(c.rest, FromBe(c.value), []);
        if items.Fail? then Fail(items.reason) else Ok(List(items.value), t.rest)
  }

  /** Reads `count` more values onto the values read so far. */
  function DecAll(b: Bytes, count: nat, done: seq<Value>): (p: Parsed<seq<Value>>)
    ensures p.Ok? ==> |p.rest| <= |b|
    decreases |b|, 1
  {
    if count == 0 then Ok(done, b)
    else
      var v := DecValue(b);
      if v.Fail? then Fail(v.reason) else DecAll(v.rest, count - 1, done + [v.value])
  }

  function DecMap(b: Bytes, n: nat): (p: Parsed<Value>)
    requires n >= 1
    ensures p.Ok? ==> |p.rest| <= |b|
    decreases |b|, 2
  {
    var t := DecBlock(b, n);
    if t.Fail? then Fail(t.reason)
    else if t.value == [] then Ok(Struct([]), t.rest)
    else
      var c := Take(t.value, n);
      if c.Fail? then Fail(c.reason)
      else if FromBe(c.value) % 2 != 0 then Fail(OddCount)
      else
        var fields := DecFields(c.rest, FromBe(c.value) / 2, []);
        if fields.Fail? then Fail(fields.reason) else Ok(Struct(fields.value), t.rest)
  }

  /** Reads `count` more pairs into the fields read so far. */
  function DecFields(b: Bytes, count: nat, done: seq<Field>): (p: Parsed<seq<Field>>)
    ensures p.Ok? ==> |p.rest| <= |b|
    decreases |b|, 1
  {
    if count == 0 then Ok(done, b)
    else
      var k := DecValue(b);
      if k.Fail? then Fail(k.reason)
      else if !k.value.Text? then Fail(NonStringKey)
      else
        var v := DecValue(k.rest);
        if v.Fail? then Fail(v.reason)
        else DecFields(v.rest, count - 1, Store(done, k.value.s, v.value))
  }

  // ---------------------------------------------------------------- round trip

  lemma {:induction false} Head(c: Byte, body: Bytes, rest: Bytes)
    ensures DecValue([c] + body + rest) == DecWith(KindOf(c), body + rest)
  {
    assert ([c] + body + rest)[1..] == body + rest;
  }

  lemma {:induction false} IntParts(b: Bytes, c: Byte, n: nat, body: Bytes, i: int, rest: Bytes)
    requires (c == BYTE && n == 1) || (c == SHORT && n == 2) || (c == INT && n == 4) || (c == LONG && n == 8)
    requires b == [c] + body && DecInt(body, n, true) == Ok(Number(i), rest)
    ensures DecValue(b) == Ok(Number(i), rest)
  {
    assert b[1..] == body;
  }

  lemma {:induction false} IntValueBack(c: Byte, i: int, n: nat, modulus: nat, rest: Bytes)
    requires (c == BYTE && n == 1) || (c == SHORT && n == 2) || (c == INT && n == 4) || (c == LONG && n == 8)
    requires modulus == Pow256(n) && -(modulus as int) <= 2 * i < modulus
    ensures DecValue([c] + Be(Unsigned(i, modulus), n) + rest) == Ok(Number(i), rest)
  {
    var be := Be(Unsigned(i, modulus), n);
    IntBack(i, n, modulus, rest);
    OneThen(c, be, rest);
    IntParts([c] + be + rest, c, n, be + rest, i, rest);
  }

  lemma {:induction false} OneThen(c: Byte, body: Bytes, rest: Bytes)
    ensures [c] + body + rest == [c] + (body + rest)
  {
  }

  lemma {:induction false} NumberBack(i: int, rest: Bytes)
    requires -TWO_63 <= i < TWO_63
    ensures DecValue(EncNumber(i) + rest) == Ok(Number(i), rest)
  {
    Powers();
    if -TWO_7 <= i < TWO_7 {
      IntValueBack(BYTE, i, 1, TWO_8, rest);
      ByteIsBe(Unsigned(i, TWO_8));
      assert EncNumber(i) == [BYTE] + Be(Unsigned(i, TWO_8), 1);
    } else if -TWO_15 <= i < TWO_15 {
      IntValueBack(SHORT, i, 2, TWO_16, rest);
    } else if -TWO_31 <= i < TWO_31 {
      IntValueBack(INT, i, 4, TWO_32, rest);
    } else {
      IntValueBack(LONG, i, 8, TWO_64, rest);
    }
  }

  lemma {:induction false} TextParts(b: Bytes, c: Byte, size: Bytes, s: Bytes, rest: Bytes)
    requires (c in {STRING_8, SYMBOL_8} && |size| == 1) || (c == STRING_32 && |size| == 4)
    requires FromBe(size) == |s| && b == [c] + (size + s + rest)
    ensures DecValue(b) == Ok(Text(s), rest)
  {
    assert b[1..] == size + s + rest;
    BlockBack(size, s, rest);
  }

  lemma {:induction false} NarrowBytes(c: Byte, n: Byte, s: Bytes, rest: Bytes)
    ensures [c, n] + s + rest == [c] + ([n] + s + rest)
  {
  }

  lemma {:induction false} TextBack(s: Bytes, rest: Bytes)
    requires |s| < TWO_32
    ensures DecValue(EncBlock(STRING_8, STRING_32, s) + rest) == Ok(Text(s), rest)
  {
    var b := EncBlock(STRING_8, STRING_32, s) + rest;
    if |s| <= 255 {
      ByteIsBe(|s|);
      NarrowBytes(STRING_8, |s|, s, rest);
      TextParts(b, STRING_8, [|s|], s, rest);
    } else {
      Size32RoundTrip(|s|);
      Regroup([STRING_32], Size32(|s|), s, rest);
      TextParts(b, STRING_32, Size32(|s|), s, rest);
    }
  }

  lemma {:induction false} CompoundBack(size: Bytes, count: Bytes, items: Bytes, rest: Bytes)
    requires FromBe(size) == |count| + |items|
    ensures DecBlock(size + count + items + rest, |size|) == Ok(count + items, rest)
    ensures Take(count + items, |count|) == Ok(count, items)
  {
    assert size + count + items + rest == size + (count + items) + rest;
    BlockBack(size, count + items, rest);
    TakeExact(count, items);
  }

  /** The size and count bytes of a compound value, and how they read back. */
  lemma {:induction false} CompoundHead(narrow: Byte, wide: Byte, count: nat, items: Bytes)
    returns (c: Byte, n: nat, size: Bytes, counter: Bytes)
    requires |items| + 4 < TWO_32 && count < TWO_32
    ensures EncCompound(narrow, wide, count, items) == [c] + (size + counter + items)
    ensures (c == narrow && n == 1) || (c == wide && n == 4)
    ensures |size| == |counter| == n
    ensures FromBe(size) == n + |items| && FromBe(counter) == count
  {
    if |items| + 1 <= 255 && count <= 255 {
      ByteIsBe(|items| + 1);
      ByteIsBe(count);
      c, n, size, counter := narrow, 1, [|items| + 1], [count];
      assert [narrow, |items| + 1, count] == [c] + size + counter;
    } else {
      Size32RoundTrip(|items| + 4);
      Size32RoundTrip(count);
      c, n, size, counter := wide, 4, Size32(|items| + 4), Size32(count);
    }
    Regroup([c], size, counter, items);
  }

  lemma {:induction false} Regroup(a: Bytes, b: Bytes, c: Bytes, d: Bytes)
    ensures a + b + c + d == a + (b + c + d)
  {
  }

  lemma {:induction false} ListParts(b: Bytes, n: nat, content: Bytes, counter: Bytes, items: Bytes,
                                     values: seq<Value>, rest: Bytes)
    requires n >= 1 && DecBlock(b, n) == Ok(content, rest) && Take(content, n) == Ok(counter, items)
    requires DecAll(items, FromBe(counter), []) == Ok(values, [])
    ensures DecWith(KList(n), b) == Ok(List(values), rest)
  {
  }

  lemma {:induction false} ListAt(b: Bytes, c: Byte, n: nat, body: Bytes, values: seq<Value>, rest: Bytes)
    requires (c == LIST_8 && n == 1) || (c == LIST_32 && n == 4)
    requires b == [c] + body && DecWith(KList(n), body) == Ok(List(values), rest)
    ensures DecValue(b) == Ok(List(values), rest)
  {
    assert b[1..] == body;
  }

  lemma {:induction false} ListBack(values: seq<Value>, items: Bytes, count: nat, rest: Bytes)
    requires |items| + 4 < TWO_32 && count < TWO_32 && DecAll(items, count, []) == Ok(values, [])
    ensures DecValue(EncCompound(LIST_8, LIST_32, count, items) + rest) == Ok(List(values), rest)
  {
    var c, n, size, counter := CompoundHead(LIST_8, LIST_32, count, items);
    var body := size + counter + items + rest;
    CompoundBack(size, counter, items, rest);
    ListParts(body, n, counter + items, counter, items, values, rest);
    OneThen(c, size + counter + items, rest);
    ListAt(EncCompound(LIST_8, LIST_32, count, items) + rest, c, n, body, values, rest);
  }

  lemma {:induction false} MapParts(b: Bytes, n: nat, content: Bytes, counter: Bytes, items: Bytes, count: nat,
                                    fields: seq<Field>, rest: Bytes)
    requires n >= 1 && DecBlock(b, n) == Ok(content, rest) && Take(content, n) == Ok(counter, items)
    requires FromBe(counter) == 2 * count && DecFields(items, count, []) == Ok(fields, [])
    ensures DecWith(KMap(n), b) == Ok(Struct(fields), rest)
  {
  }

  lemma {:induction false} MapAt(b: Bytes, c: Byte, n: nat, body: Bytes, fields: seq<Field>, rest: Bytes)
    requires (c == MAP_8 && n == 1) || (c == MAP_32 && n == 4)
    requires b == [c] + body && DecWith(KMap(n), body) == Ok(Struct(fields), rest)
    ensures DecValue(b) == Ok(Struct(fields), rest)
  {
    assert b[1..] == body;
  }

  lemma {:induction false} MapBack(fields: seq<Field>, items: Bytes, count: nat, rest: Bytes)
    requires |items| + 4 < TWO_32 && 2 * count < TWO_32 && DecFields(items, count, []) == Ok(fields, [])
    ensures DecValue(EncCompound(MAP_8, MAP_32, 2 * count, items) + rest) == Ok(Struct(fields), rest)
  {
    var c, n, size, counter := CompoundHead(MAP_8, MAP_32, 2 * count, items);
    var body := size + counter + items + rest;
    CompoundBack(size, counter, items, rest);
    MapParts(body, n, counter + items, counter, items, count, fields, rest);
    OneThen(c, size + counter + items, rest);
    MapAt(EncCompound(MAP_8, MAP_32, 2 * count, items) + rest, c, n, body, fields, rest);
  }

  /** A constructor, a size of four bytes, and as much as such a size can announce. */
  const LIMIT: nat := TWO_32 + 5

  /** Decoding an encoded value followed by any bytes gives the value and leaves those bytes. */
  lemma {:induction false} RoundTrip(v: Value, rest: Bytes)
    requires Valid(v) && |Enc(v)| < LIMIT
    ensures DecValue(Enc(v) + rest) == Ok(Norm(v), rest)
    decreases v, 1
  {
    match v {
      case Number(i) => NumberBack(i, rest);
      case Text(s) => TextBack(s, rest);
      case Double(bits) => DoubleBack(bits, rest);
      case Struct(fields) =>
        EncFieldsPlain(fields);
        RoundTripFields(fields, [], []);
        MapBack(NormFields(fields), EncFields(fields), |fields|, rest);
      case List(values) =>
        if values != [] {
          assert EncAll(values) + [] == EncAll(values) && [] + NormAll(values) == NormAll(values);
          RoundTripAll(values, [], []);
          ListBack(NormAll(values), EncAll(values), |values|, rest);
        }
      case NilStruct => NilBack(rest);
      case Boolean(b) => Head(if b then BOOLEAN_TRUE else BOOLEAN_FALSE, [], rest);
      case Null => Head(NULL, [], rest);
    }
  }

  lemma {:induction false} EncFieldsPlain(fields: seq<Field>)
    ensures EncFields(fields) + [] == EncFields(fields)
    ensures [] + NormFields(fields) == NormFields(fields)
  {
  }

  lemma {:induction false} DoubleBack(bits: nat, rest: Bytes)
    requires bits < TWO_64
    ensures DecValue([DOUBLE] + Be(bits, 8) + rest) == Ok(Double(bits), rest)
  {
    Powers();
    BeRoundTrip(bits, 8);
    TakeExact(Be(bits, 8), rest);
    Head(DOUBLE, Be(bits, 8), rest);
  }

  lemma {:induction false} NilParts(body: Bytes, rest: Bytes)
    requires DecBlock(body, 1) == Ok([], rest)
    ensures DecWith(KMap(1), body) == Ok(Struct([]), rest)
  {
  }

  lemma {:induction false} NilBack(rest: Bytes)
    ensures DecValue([MAP_8, 0] + rest) == Ok(Struct([]), rest)
  {
    ByteIsBe(0);
    BlockBack([0], [], rest);
    assert [0] + [] + rest == [0] + rest;
    NarrowBytes(MAP_8, 0, [], rest);
    assert [MAP_8, 0] + [] == [MAP_8, 0];
    NilParts([0] + rest, rest);
    MapAt([MAP_8, 0] + rest, MAP_8, 1, [0] + rest, [], rest);
  }

  lemma {:induction false} RoundTripAll(vs: seq<Value>, done: seq<Value>, rest: Bytes)
    requires ValidAll(vs) && |EncAll(vs)| < TWO_32
    ensures DecAll(EncAll(vs) + rest, |vs|, done) == Ok(done + NormAll(vs), rest)
    decreases vs, 2
  {
    if vs == [] {
      assert EncAll(vs) + rest == rest && done + [] == done;
    } else {
      FirstValueBack(vs, done, rest);
      RoundTripAll(vs[1..], done + [Norm(vs[0])], rest);
    }
  }

  lemma {:induction false} FirstValueBack(vs: seq<Value>, done: seq<Value>, rest: Bytes)
    requires vs != [] && Valid(vs[0]) && |EncAll(vs)| < TWO_32
    ensures |EncAll(vs[1..])| < TWO_32
    ensures DecAll(EncAll(vs) + rest, |vs|, done) ==
            DecAll(EncAll(vs[1..]) + rest, |vs| - 1, done + [Norm(vs[0])])
    ensures done + NormAll(vs) == done + [Norm(vs[0])] + NormAll(vs[1..])
    decreases vs, 1
  {
    var more := EncAll(vs[1..]) + rest;
    RoundTrip(vs[0], more);
    ValuesSplit(vs, rest);
    OneValue(EncAll(vs) + rest, Enc(vs[0]) + more, Norm(vs[0]), more, |vs| - 1, done);
  }

  lemma {:induction false} ValuesSplit(vs: seq<Value>, rest: Bytes)
    requires vs != []
    ensures EncAll(vs) + rest == Enc(vs[0]) + (EncAll(vs[1..]) + rest)
  {
  }

  lemma {:induction false} OneValue(b: Bytes, b': Bytes, v: Value, more: Bytes, count: nat, done: seq<Value>)
    requires b == b' && DecValue(b') == Ok(v, more)
    ensures DecAll(b, count + 1, done) == DecAll(more, count, done + [v])
  {
  }

  lemma {:induction false} RoundTripFields(fs: seq<Field>, done: seq<Field>, rest: Bytes)
    requires ValidFields(fs) && |EncFields(fs)| < TWO_32
    requires forall i :: 0 <= i < |fs| ==> FreshName(done, fs[i].name)
    ensures DecFields(EncFields(fs) + rest, |fs|, done) == Ok(done + NormFields(fs), rest)
    decreases fs, 2
  {
    if fs == [] {
      assert EncFields(fs) + rest == rest && done + [] == done;
    } else {
      var done' := done + [Field(fs[0].name, Norm(fs[0].value))];
      FirstFieldBack(fs, done, rest);
      NormFieldsSplit(fs, done);
      FreshAfter(fs, done, done');
      RoundTripFields(fs[1..], done', rest);
    }
  }

  lemma {:induction false} FieldsSplit(fs: seq<Field>, rest: Bytes)
    requires fs != []
    ensures EncFields(fs) + rest ==
            EncBlock(STRING_8, STRING_32, fs[0].name) + (Enc(fs[0].value) + (EncFields(fs[1..]) + rest))
    ensures |EncFields(fs[1..])| <= |EncFields(fs)| && |Enc(fs[0].value)| <= |EncFields(fs)|
    ensures |fs[0].name| <= |EncFields(fs)|
  {
    var name, value, more := EncBlock(STRING_8, STRING_32, fs[0].name), Enc(fs[0].value), EncFields(fs[1..]);
    assert EncFields(fs) == name + value + more;
    Nest(name, value, more, rest);
  }

  lemma {:induction false} Nest(a: Bytes, b: Bytes, c: Bytes, d: Bytes)
    ensures a + b + c + d == a + (b + (c + d))
  {
  }

  /** One field, read back into the fields before it. */
  lemma {:induction false} FieldBack(name: Bytes, v: Value, b: Bytes, mid: Bytes, more: Bytes, count: nat,
                                     done: seq<Field>)
    requires b == EncBlock(STRING_8, STRING_32, name) + mid && |name| < TWO_32
    requires DecValue(mid) == Ok(v, more) && FreshName(done, name)
    ensures DecFields(b, count + 1, done) == DecFields(more, count, done + [Field(name, v)])
  {
    TextBack(name, mid);
    StoreFresh(done, name, v);
  }

  lemma {:induction false} NormFieldsSplit(fs: seq<Field>, done: seq<Field>)
    requires fs != []
    ensures done + NormFields(fs) == done + [Field(fs[0].name, Norm(fs[0].value))] + NormFields(fs[1..])
  {
  }

  lemma {:induction false} FirstFieldBack(fs: seq<Field>, done: seq<Field>, rest: Bytes)
    requires fs != [] && Valid(fs[0].value) && |EncFields(fs)| < TWO_32 && FreshName(done, fs[0].name)
    ensures |EncFields(fs[1..])| < TWO_32
    ensures DecFields(EncFields(fs) + rest, |fs|, done) ==
            DecFields(EncFields(fs[1..]) + rest, |fs| - 1, done + [Field(fs[0].name, Norm(fs[0].value))])
    decreases fs, 1
  {
    var name, v, more := fs[0].name, Norm(fs[0].value), EncFields(fs[1..]) + rest;
    var b, mid := EncFields(fs) + rest, Enc(fs[0].value) + more;
    FieldsSplit(fs, rest);
    RoundTrip(fs[0].value, more);
    FieldBack(name, v, b, mid, more, |fs| - 1, done);
  }

  lemma {:induction false} FreshAfter(fs: seq<Field>, done: seq<Field>, done': seq<Field>)
    requires fs != [] && FreshName(fs[1..], fs[0].name)
    requires forall i :: 0 <= i < |fs| ==> FreshName(done, fs[i].name)
    requires |done'| == |done| + 1 && done' == done + [done'[|done|]] && done'[|done|].name == fs[0].name
    ensures forall i :: 0 <= i < |fs[1..]| ==> FreshName(done', fs[1..][i].name)
  {
    forall i | 0 <= i < |fs[1..]| ensures FreshName(done', fs[1..][i].name) {
      assert fs[1..][i] == fs[i + 1];
    }
  }

  // ---------------------------------------------------------------- where the round trip ends

  /** Text read back is as long as its length field says. */
  lemma {:induction false} WrongLength(c: Byte, size: Bytes, tail: Bytes, b: Bytes, s: Bytes, rest: Bytes)
    requires b == [c] + size + tail && KindOf(c) == KText(|size|) && FromBe(size) != |s|
    ensures DecValue(b) != Ok(Text(s), rest)
  {
    Head(c, size, tail);
    TakeExact(size, tail);
  }

  /** A string survives exactly when its length fits the 32-bit length field. */
  lemma {:induction false} TextExact(s: Bytes, rest: Bytes)
    ensures DecValue(EncBlock(STRING_8, STRING_32, s) + rest) == Ok(Text(s), rest) <==> |s| < TWO_32
  {
    if |s| < TWO_32 {
      TextBack(s, rest);
    } else {
      LongTextBytes(Size32(|s|), s, rest);
      Size32IsShort(|s|);
      WrongLength(STRING_32, Size32(|s|), s + rest, EncBlock(STRING_8, STRING_32, s) + rest, s, rest);
    }
  }

  function Size(v: Value): nat
    decreases v, 1
  {
    match v
    case Null => 1
    case Number(i) =>
      if -TWO_7 <= i < TWO_7 then 2 else if -TWO_15 <= i < TWO_15 then 3 else if -TWO_31 <= i < TWO_31 then 5 else 9
    case Double(_) => 9
    case Text(s) => BlockSize(|s|)
    case Boolean(_) => 1
    case NilStruct => 2
    case Struct(fields) => CompoundSize(2 * |fields|, SizeFields(fields))
    case List(values) => if values == [] then 1 else CompoundSize(|values|, SizeAll(values))
  }

  function SizeAll(vs: seq<Value>): nat
    decreases vs, 0
  {
    if vs == [] then 0 else Size(vs[0]) + SizeAll(vs[1..])
  }

  function SizeFields(fs: seq<Field>): nat
    decreases fs, 0
  {
    if fs == [] then 0 else BlockSize(|fs[0].name|) + Size(fs[0].value) + SizeFields(fs[1..])
  }

  /** The sizes are those of the bytes written. */
  lemma {:induction false} SizeIs(v: Value)
    ensures |Enc(v)| == Size(v)
    decreases v, 1
  {
    match v {
      case Struct(fields) => SizeIsFields(fields);
      case List(values) => SizeIsAll(values);
      case _ =>
    }
  }

  lemma {:induction false} SizeIsAll(vs: seq<Value>)
    ensures |EncAll(vs)| == SizeAll(vs)
    decreases vs, 0
  {
    if vs != [] {
      SizeIs(vs[0]);
      SizeIsAll(vs[1..]);
    }
  }

  lemma {:induction false} SizeIsFields(fs: seq<Field>)
    ensures |EncFields(fs)| == SizeFields(fs)
    decreases fs, 0
  {
    if fs != [] {
      SizeIs(fs[0].value);
      SizeIsFields(fs[1..]);
    }
  }

  /** Whatever is in a list or map, decoding it steps over as much as its size field says. */
  lemma {:induction false} StepsOver(b: Bytes, c: Byte, size: Bytes, tail: Bytes)
    requires b == [c] + size + tail && |size| >= 1 && KindOf(c) in {KList(|size|), KMap(|size|)}
    ensures DecValue(b).Ok? ==> |DecValue(b).rest| + FromBe(size) == |tail|
  {
    Head(c, size, tail);
    TakeExact(size, tail);
  }

  lemma {:induction false} TooLong(c: Byte, narrow: Byte, count: nat, items: Bytes, rest: Bytes)
    requires |items| + 4 >= TWO_32 && KindOf(c) in {KList(4), KMap(4)}
    ensures var p := DecValue(EncCompound(narrow, c, count, items) + rest); p.Ok? ==> p.rest != rest
  {
    var size, counter := Size32(|items| + 4), Size32(count);
    var b, tail := EncCompound(narrow, c, count, items) + rest, counter + items + rest;
    Size32IsShort(|items| + 4);
    Regroup([c] + size, counter, items, rest);
    StepsOver(b, c, size, tail);
  }

  /** A value survives exactly when its encoding has fewer bytes than the limit. */
  lemma {:induction false} RoundTripExact(v: Value, rest: Bytes)
    requires Valid(v)
    ensures DecValue(Enc(v) + rest) == Ok(Norm(v), rest) <==> Size(v) < LIMIT
  {
    SizeIs(v);
    if Size(v) < LIMIT {
      RoundTrip(v, rest);
    } else {
      match v {
        case Text(s) => TextExact(s, rest);
        case Struct(fields) => TooLong(MAP_32, MAP_8, 2 * |fields|, EncFields(fields), rest);
        case List(values) => TooLong(LIST_32, LIST_8, |values|, EncAll(values), rest);
        case _ =>
      }
    }
  }

  lemma {:induction false} LongTextBytes(size: Bytes, s: Bytes, rest: Bytes)
    ensures [STRING_32] + size + s + rest == [STRING_32] + size + (s + rest)
  {
  }

  lemma {:induction false} Size32IsShort(n: nat)
    ensures FromBe(Size32(n)) < TWO_32
  {
    Size32RoundTrip(Low32(n));
    assert Low32(Low32(n)) == Low32(n);
  }

  /** Symbols over 255 bytes are written with a 32-bit length after the 8-bit constructor. */
  function EncSymbol(s: Bytes): Bytes {
    if |s| <= 255 then [SYMBOL_8, |s|] + s else [SYMBOL_8] + Size32(|s|) + s
  }

  /** So a symbol survives exactly when it has at most 255 bytes. */
  lemma {:induction false} SymbolExact(s: Bytes, rest: Bytes)
    ensures DecValue(EncSymbol(s) + rest) == Ok(Text(s), rest) <==> |s| <= 255
  {
    if |s| <= 255 {
      ByteIsBe(|s|);
      NarrowBytes(SYMBOL_8, |s|, s, rest);
      TextParts(EncSymbol(s) + rest, SYMBOL_8, [|s|], s, rest);
    } else {
      var size := Size32(|s|);
      ByteIsBe(size[0]);
      SymbolBytes(size, s, rest);
      WrongLength(SYMBOL_8, [size[0]], size[1..] + s + rest, EncSymbol(s) + rest, s, rest);
    }
  }

  lemma {:induction false} SymbolBytes(size: Bytes, s: Bytes, rest: Bytes)
    requires |size| == 4
    ensures [SYMBOL_8] + size + s + rest == [SYMBOL_8] + [size[0]] + (size[1..] + s + rest)
  {
  }
}
