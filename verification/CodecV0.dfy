/** The AMQP 0-9-1 field-table encoding (section 4.2.5.5, with the type letters of the errata). */
module CodecV0 {
  import opened Wrappers
  import opened Framing
  import opened Wire

  const MAX_NAME: nat := 255
  const BOOL: Byte := 0x74 // t
  const INT8: Byte := 0x62 // b
  const UINT8: Byte := 0x42 // B
  const INT16: Byte := 0x73 // s
  const INT16_ALT: Byte := 0x55 // U
  const UINT16: Byte := 0x75 // u
  const INT32: Byte := 0x49 // I
  const UINT32: Byte := 0x69 // i
  const INT64: Byte := 0x6c // l
  const UINT64: Byte := 0x4c // L
  const FLOAT: Byte := 0x66 // f
  const DOUBLE: Byte := 0x64 // d
  const DECIMAL: Byte := 0x44 // D
  const BYTES: Byte := 0x78 // x
  const STRING: Byte := 0x53 // S
  const ARRAY: Byte := 0x41 // A
  const TIMESTAMP: Byte := 0x54 // T
  const TABLE: Byte := 0x46 // F
  const VOID: Byte := 0x56 // V

  // ---------------------------------------------------------------- encoding

  function EncNumber(i: int): (b: Bytes)
    ensures |b| >= 1
  {
    if -TWO_7 <= i < TWO_7 then [INT8, Unsigned(i, TWO_8)]
    else if -TWO_15 <= i < TWO_15 then [INT16] + Be(Unsigned(i, TWO_16), 2)
    else if -TWO_31 <= i < TWO_31 then [INT32] + Be(Unsigned(i, TWO_32), 4)
    else if -TWO_63 <= i < TWO_63 then [INT64] + Be(Unsigned(i, TWO_64), 8)
    else [INT64] + Be(TWO_63, 8)
  }

  /** A four-byte length and the content; content that is too long is refused. */
  function EncBlock(letter: Byte, content: Option<Bytes>): (r: Option<Bytes>)
    ensures r.Some? ==> |r.value| >= 1
  {
    if content.None? || |content.value| >= TWO_32 then None
    else Some([letter] + Be(|content.value|, 4) + content.value)
  }

  function Enc(v: Value): (r: Option<Bytes>)
    ensures r.Some? ==> |r.value| >= 1
    decreases v, 1
  {
    match v
    case Null => Some([VOID])
    case Number(i) => Some(EncNumber(i))
    case Double(bits) => Some([DOUBLE] + Be(bits, 8))
    case Text(s) => EncBlock(STRING, Some(s))
    case Boolean(b) => Some([BOOL, if b then 1 else 0])
    case NilStruct => EncBlock(TABLE, Some([]))
    case Struct(fields) => EncBlock(TABLE, EncFields(fields))
    case List(values) => EncBlock(ARRAY, EncAll(values))
  }

  function EncAll(vs: seq<Value>): Option<Bytes>
    decreases vs, 0
  {
    if vs == [] then Some([])
    else
      var first, more := Enc(vs[0]), EncAll(vs[1..]);
      if first.None? || more.None? then None else Some(first.value + more.value)
  }

  /** Names have a one-byte length; a longer one is refused. */
  function EncFields(fs: seq<Field>): Option<Bytes>
    decreases fs, 0
  {
    if fs == [] then Some([])
    else if |fs[0].name| > MAX_NAME then None
    else
      var first, more := Enc(fs[0].value), EncFields(fs[1..]);
      if first.None? || more.None? then None
      else Some([|fs[0].name|] + fs[0].name + first.value + more.value)
  }

  // ---------------------------------------------------------------- decoding

  datatype Kind =
    | KBool
    | KInt(n: nat, signed: bool)
    | KDouble
    | KText
    | KArray
    | KTable
    | KVoid
    | KOther(reason: Reason)

  function KindOf(c: Byte): Kind {
    if c == BOOL then KBool
    else if c == INT8 then KInt(1, true)
    else if c == UINT8 then KInt(1, false)
    else if c == INT16 || c == INT16_ALT then KInt(2, true)
    else if c == UINT16 then KInt(2, false)
    else if c == INT32 then KInt(4, true)
    else if c == UINT32 then KInt(4, false)
    else if c == INT64 then KInt(8, true)
    else if c == UINT64 then KInt(8, false)
    else if c == DOUBLE then KDouble
    else if c == STRING || c == BYTES then KText
    else if c == ARRAY then KArray
    else if c == TABLE then KTable
    else if c == VOID then KVoid
    else if c == FLOAT then KOther(NotModelled)
    else if c == DECIMAL || c == TIMESTAMP then KOther(NotImplemented)
    else KOther(BadConstructor)
  }

  function DecValue(b: Bytes): (p: Parsed<Value>)
    ensures p.Ok? ==> |p.rest| < |b|
    decreases |b|, 0
  {
    if b == [] then Fail(Underflow) else DecWith(KindOf(b[0]), b[1..])
  }

  function DecWith(k: Kind, b: Bytes): (p: Parsed<Value>)
    ensures p.Ok? ==> |p.rest| <= |b|
    decreases |b|, 3
  {
    match k
    case KBool => if b == [] then Fail(Underflow) else Ok(Boolean(b[0] != 0), b[1..])
    case KInt(n, signed) => DecInt(b, n, signed)
    case KDouble => DecDouble(b)
    case KText => var t := DecBlock(b, 4); if t.Fail? then Fail(t.reason) else Ok(Text(t.value), t.rest)
    case KArray => DecArray(b)
    case KTable => DecTable(b)
    case KVoid => Ok(Null, b)
    case KOther(reason) => Fail(reason)
  }

  function DecArray(b: Bytes): (p: Parsed<Value>)
    ensures p.Ok? ==> |p.rest| <= |b|
    decreases |b|, 2
  {
    var t := DecBlock(b, 4);
    if t.Fail? then Fail(t.reason)
    else
      var values := DecAll(t.value, []);
      if values.Failure? then Fail(values.reason) else Ok(List(values.value), t.rest)
  }

  /** Reads values until the data is used up. */
  function DecAll(b: Bytes, done: seq<Value>): Result<seq<Value>>
    decreases |b|, 1
  {
    if b == [] then Success(done)
    else
      var v := DecValue(b);
      if v.Fail? then Failure(v.reason) else DecAll(v.rest, done + [v.value])
  }

  function DecTable(b: Bytes): (p: Parsed<Value>)
    ensures p.Ok? ==> |p.rest| <= |b|
    decreases |b|, 2
  {
    var t := DecBlock(b, 4);
    if t.Fail? then Fail(t.reason)
    else
      var table := DecTableData(t.value);
      if table.Failure? then Fail(table.reason) else Ok(table.value, t.rest)
  }

  /** An empty table is a nil struct. */
  function DecTableData(data: Bytes): (r: Result<Value>)
    decreases |data|, 2
  {
    if data == [] then Success(NilStruct)
    else
      var fields := DecFields(data, []);
      if fields.Failure? then Failure(fields.reason) else Success(Struct(fields.value))
  }

  function DecFields(b: Bytes, done: seq<Field>): Result<seq<Field>>
    decreases |b|, 1
  {
    if b == [] then Success(done)
    else
      var name := DecBlock(b, 1);
      if name.Fail? then Failure(name.reason)
      else
        var v := DecValue(name.rest);
        if v.Fail? then Failure(v.reason) else DecFields(v.rest, Store(done, name.value, v.value))
  }

  // ---------------------------------------------------------------- round trip

  /** What comes back: a struct without fields comes back nil. */
  function Back(v: Value): Value
    decreases v, 1
  {
    match v
    case Struct(fields) => if fields == [] then NilStruct else Struct(BackFields(fields))
    case List(values) => List(BackAll(values))
    case _ => v
  }

  function BackAll(vs: seq<Value>): seq<Value>
    decreases vs, 0
  {
    if vs == [] then [] else [Back(vs[0])] + BackAll(vs[1..])
  }

  function BackFields(fs: seq<Field>): seq<Field>
    decreases fs, 0
  {
    if fs == [] then [] else [Field(fs[0].name, Back(fs[0].value))] + BackFields(fs[1..])
  }

  lemma {:induction false} Head(c: Byte, body: Bytes, rest: Bytes)
    ensures DecValue([c] + body + rest) == DecWith(KindOf(c), body + rest)
  {
    assert ([c] + body + rest)[1..] == body + rest;
  }

  lemma {:induction false} IntValueBack(c: Byte, i: int, n: nat, modulus: nat, rest: Bytes)
    requires KindOf(c) == KInt(n, true)
    requires modulus == Pow256(n) && -(modulus as int) <= 2 * i < modulus
    ensures DecValue([c] + Be(Unsigned(i, modulus), n) + rest) == Ok(Number(i), rest)
  {
    IntBack(i, n, modulus, rest);
    Head(c, Be(Unsigned(i, modulus), n), rest);
  }

  lemma {:induction false} NumberBack(i: int, rest: Bytes)
    requires -TWO_63 <= i < TWO_63
    ensures DecValue(EncNumber(i) + rest) == Ok(Number(i), rest)
  {
    Powers();
    if -TWO_7 <= i < TWO_7 {
      IntValueBack(INT8, i, 1, TWO_8, rest);
      ByteIsBe(Unsigned(i, TWO_8));
      assert EncNumber(i) == [INT8] + Be(Unsigned(i, TWO_8), 1);
    } else if -TWO_15 <= i < TWO_15 {
      IntValueBack(INT16, i, 2, TWO_16, rest);
    } else if -TWO_31 <= i < TWO_31 {
      IntValueBack(INT32, i, 4, TWO_32, rest);
    } else {
      IntValueBack(INT64, i, 8, TWO_64, rest);
    }
  }

  lemma {:induction false} DoubleBack(bits: nat, rest: Bytes)
    requires bits < TWO_64
    ensures DecValue([DOUBLE] + Be(bits, 8) + rest) == Ok(Double(bits), rest)
  {
    Powers();
    BeRoundTrip(bits, 8);
    TakeExact(Be(bits, 8), rest);
    Head(DOUBLE, Be(bits, 8), rest);
  }

  lemma {:induction false} BoolBack(b: bool, rest: Bytes)
    ensures DecValue([BOOL, if b then 1 else 0] + rest) == Ok(Boolean(b), rest)
  {
    var x: Byte := if b then 1 else 0;
    assert [BOOL, x] == [BOOL] + [x];
    Head(BOOL, [x], rest);
    assert ([x] + rest)[1..] == rest;
  }

  /** A block under any of the three letters, up to its content. */
  lemma {:induction false} ContentBack(letter: Byte, content: Bytes, rest: Bytes)
    requires |content| < TWO_32
    ensures DecValue(EncBlock(letter, Some(content)).value + rest)
            == DecWith(KindOf(letter), Be(|content|, 4) + content + rest)
    ensures DecBlock(Be(|content|, 4) + content + rest, 4) == Ok(content, rest)
  {
    assert Pow256(4) == TWO_32 by {
      Powers();
    }
    BeRoundTrip(|content|, 4);
    BlockBack(Be(|content|, 4), content, rest);
    Head(letter, Be(|content|, 4) + content, rest);
    assert [letter] + Be(|content|, 4) + content == [letter] + (Be(|content|, 4) + content);
  }

  /** Whatever the encoder accepts decodes back, followed by any bytes, and leaves those bytes. */
  lemma {:induction false} RoundTrip(v: Value, rest: Bytes)
    requires Valid(v) && Enc(v).Some?
    ensures DecValue(Enc(v).value + rest) == Ok(Back(v), rest)
    decreases v, 1
  {
    match v {
      case Null => Head(VOID, [], rest);
      case Number(i) => NumberBack(i, rest);
      case Double(bits) => DoubleBack(bits, rest);
      case Boolean(b) => BoolBack(b, rest);
      case Text(s) => ContentBack(STRING, s, rest);
      case NilStruct => TableBack([], [], rest);
      case Struct(fields) =>
        RoundTripFields(fields, []);
        TableBack(BackFields(fields), EncFields(fields).value, rest);
      case List(values) =>
        RoundTripAll(values, []);
        ArrayBack(BackAll(values), EncAll(values).value, rest);
    }
  }

  lemma {:induction false} TableBack(fields: seq<Field>, data: Bytes, rest: Bytes)
    requires |data| < TWO_32 && DecFields(data, []) == Success(fields)
    ensures DecValue(EncBlock(TABLE, Some(data)).value + rest) ==
            Ok(if data == [] then NilStruct else Struct(fields), rest)
  {
    ContentBack(TABLE, data, rest);
    TableParts(Be(|data|, 4) + data + rest, fields, data, rest);
  }

  lemma {:induction false} TableParts(b: Bytes, fields: seq<Field>, data: Bytes, rest: Bytes)
    requires DecBlock(b, 4) == Ok(data, rest) && DecFields(data, []) == Success(fields)
    ensures DecWith(KTable, b) == Ok(if data == [] then NilStruct else Struct(fields), rest)
  {
    assert DecTableData(data) == Success(if data == [] then NilStruct else Struct(fields));
  }

  lemma {:induction false} ArrayBack(values: seq<Value>, data: Bytes, rest: Bytes)
    requires |data| < TWO_32 && DecAll(data, []) == Success(values)
    ensures DecValue(EncBlock(ARRAY, Some(data)).value + rest) == Ok(List(values), rest)
  {
    ContentBack(ARRAY, data, rest);
    ArrayParts(Be(|data|, 4) + data + rest, values, data, rest);
  }

  lemma {:induction false} ArrayParts(b: Bytes, values: seq<Value>, data: Bytes, rest: Bytes)
    requires DecBlock(b, 4) == Ok(data, rest) && DecAll(data, []) == Success(values)
    ensures DecWith(KArray, b) == Ok(List(values), rest)
  {
  }

  lemma {:induction false} RoundTripAll(vs: seq<Value>, done: seq<Value>)
    requires ValidAll(vs) && EncAll(vs).Some?
    ensures DecAll(EncAll(vs).value, done) == Success(done + BackAll(vs))
    ensures done == [] ==> done + BackAll(vs) == BackAll(vs)
    decreases vs, 2
  {
    if vs == [] {
      assert done + [] == done;
    } else {
      FirstValueBack(vs, done);
      BackAllSplit(vs, done);
      RoundTripAll(vs[1..], done + [Back(vs[0])]);
    }
  }

  lemma {:induction false} BackAllSplit(vs: seq<Value>, done: seq<Value>)
    requires vs != []
    ensures done + BackAll(vs) == done + [Back(vs[0])] + BackAll(vs[1..])
  {
  }

  lemma {:induction false} FirstValueBack(vs: seq<Value>, done: seq<Value>)
    requires vs != [] && Valid(vs[0]) && EncAll(vs).Some?
    ensures EncAll(vs[1..]).Some?
    ensures DecAll(EncAll(vs).value, done) == DecAll(EncAll(vs[1..]).value, done + [Back(vs[0])])
    decreases vs, 1
  {
    ValuesSplit(vs);
    var more := EncAll(vs[1..]).value;
    RoundTrip(vs[0], more);
    OneValue(EncAll(vs).value, Enc(vs[0]).value + more, Back(vs[0]), more, done);
  }

  lemma {:induction false} ValuesSplit(vs: seq<Value>)
    requires vs != [] && EncAll(vs).Some?
    ensures Enc(vs[0]).Some? && EncAll(vs[1..]).Some?
    ensures EncAll(vs).value == Enc(vs[0]).value + EncAll(vs[1..]).value
  {
  }

  lemma {:induction false} OneValue(b: Bytes, b': Bytes, v: Value, more: Bytes, done: seq<Value>)
    requires b == b' && DecValue(b') == Ok(v, more)
    ensures DecAll(b, done) == DecAll(more, done + [v])
  {
  }

  lemma {:induction false} RoundTripFields(fs: seq<Field>, done: seq<Field>)
    requires ValidFields(fs) && EncFields(fs).Some?
    requires forall i :: 0 <= i < |fs| ==> FreshName(done, fs[i].name)
    ensures DecFields(EncFields(fs).value, done) == Success(done + BackFields(fs))
    ensures done == [] ==> done + BackFields(fs) == BackFields(fs)
    ensures EncFields(fs).value == [] <==> fs == []
    decreases fs, 2
  {
    if fs == [] {
      assert done + [] == done;
    } else {
      var done' := done + [Field(fs[0].name, Back(fs[0].value))];
      FirstFieldBack(fs, done);
      BackFieldsSplit(fs, done);
      FreshAfter(fs, done, done');
      RoundTripFields(fs[1..], done');
    }
  }

  lemma {:induction false} FieldBack(name: Bytes, v: Value, b: Bytes, mid: Bytes, more: Bytes, done: seq<Field>)
    requires |name| <= MAX_NAME && b == [|name|] + name + mid
    requires DecValue(mid) == Ok(v, more) && FreshName(done, name)
    ensures DecFields(b, done) == DecFields(more, done + [Field(name, v)])
  {
    ByteIsBe(|name|);
    BlockBack([|name|], name, mid);
    StoreFresh(done, name, v);
  }

  lemma {:induction false} BackFieldsSplit(fs: seq<Field>, done: seq<Field>)
    requires fs != []
    ensures done + BackFields(fs) == done + [Field(fs[0].name, Back(fs[0].value))] + BackFields(fs[1..])
  {
  }

  lemma {:induction false} FirstFieldBack(fs: seq<Field>, done: seq<Field>)
    requires fs != [] && Valid(fs[0].value) && EncFields(fs).Some? && FreshName(done, fs[0].name)
    ensures EncFields(fs[1..]).Some?
    ensures DecFields(EncFields(fs).value, done) ==
            DecFields(EncFields(fs[1..]).value, done + [Field(fs[0].name, Back(fs[0].value))])
    decreases fs, 1
  {
    FieldsSplit(fs);
    var name, value, more := fs[0].name, Enc(fs[0].value).value, EncFields(fs[1..]).value;
    RoundTrip(fs[0].value, more);
    FieldBack(name, Back(fs[0].value), EncFields(fs).value, value + more, more, done);
  }

  lemma {:induction false} FieldsSplit(fs: seq<Field>)
    requires fs != [] && EncFields(fs).Some?
    ensures |fs[0].name| <= MAX_NAME && Enc(fs[0].value).Some? && EncFields(fs[1..]).Some?
    ensures EncFields(fs).value == [|fs[0].name|] + fs[0].name + (Enc(fs[0].value).value + EncFields(fs[1..]).value)
  {
    Regroup([|fs[0].name|] + fs[0].name, Enc(fs[0].value), EncFields(fs[1..]));
  }

  lemma {:induction false} Regroup(a: Bytes, b: Option<Bytes>, c: Option<Bytes>)
    ensures b.Some? && c.Some? ==> a + b.value + c.value == a + (b.value + c.value)
  {
  }

  lemma {:induction false} FreshAfter(fs: seq<Field>, done: seq<Field>, done': seq<Field>)
    requires fs != [] && FreshName(fs[1..], fs[0].name)
    requires forall i :: 0 <= i < |fs| ==> FreshName(done, fs[i].name)
    requires |done'| == |done| + 1 && done' == done + [done'[|done|]] && done'[|done|].name == fs[0].name
    ensures forall i :: 0 <= i < |fs[1..]| ==> FreshName(done', fs[1..][i].name)
  {
    forall i | 0 <= i < |fs[1..]| ensures FreshName(done', fs[1..][i].name) {
      assert fs[1..][i] == fs[i + 1];
    }
  }

  /** A whole table, as it stands in a message property. */
  lemma {:induction false} TableRoundTrip(fields: seq<Field>)
    requires ValidFields(fields) && EncFields(fields).Some?
    ensures DecTableData(EncFields(fields).value) == Success(Back(Struct(fields)))
  {
    RoundTripFields(fields, []);
  }

  // ---------------------------------------------------------------- what the encoder refuses

  /** The number of bytes a value takes, from its names and lengths alone. */
  function Size(v: Value): nat
    decreases v, 1
  {
    match v
    case Null => 1
    case Boolean(_) => 2
    case Number(i) =>
      if -TWO_7 <= i < TWO_7 then 2 else if -TWO_15 <= i < TWO_15 then 3 else if -TWO_31 <= i < TWO_31 then 5 else 9
    case Double(_) => 9
    case Text(s) => 5 + |s|
    case NilStruct => 5
    case Struct(fields) => 5 + SizeFields(fields)
    case List(values) => 5 + SizeAll(values)
  }

  function SizeAll(vs: seq<Value>): nat
    decreases vs, 0
  {
    if vs == [] then 0 else Size(vs[0]) + SizeAll(vs[1..])
  }

  function SizeFields(fs: seq<Field>): nat
    decreases fs, 0
  {
    if fs == [] then 0 else 1 + |fs[0].name| + Size(fs[0].value) + SizeFields(fs[1..])
  }

  /** Every name fits one length byte, and every string, table and array a 32-bit length. */
  predicate Encodable(v: Value)
    decreases v, 1
  {
    match v
    case Text(s) => |s| < TWO_32
    case Struct(fields) => EncodableFields(fields) && SizeFields(fields) < TWO_32
    case List(values) => EncodableAll(values) && SizeAll(values) < TWO_32
    case _ => true
  }

  predicate EncodableAll(vs: seq<Value>)
    decreases vs, 0
  {
    vs == [] || (Encodable(vs[0]) && EncodableAll(vs[1..]))
  }

  predicate EncodableFields(fs: seq<Field>)
    decreases fs, 0
  {
    fs == [] || (|fs[0].name| <= MAX_NAME && Encodable(fs[0].value) && EncodableFields(fs[1..]))
  }

  /** The encoder accepts exactly those values, and produces as many bytes as their size says. */
  lemma {:induction false} AcceptsEncodable(v: Value)
    ensures Enc(v).Some? <==> Encodable(v)
    ensures Enc(v).Some? ==> |Enc(v).value| == Size(v)
    decreases v, 1
  {
    match v {
      case Struct(fields) => AcceptsFields(fields);
      case List(values) => AcceptsAll(values);
      case _ =>
    }
  }

  lemma {:induction false} AcceptsAll(vs: seq<Value>)
    ensures EncAll(vs).Some? <==> EncodableAll(vs)
    ensures EncAll(vs).Some? ==> |EncAll(vs).value| == SizeAll(vs)
    decreases vs, 0
  {
    if vs != [] {
      AcceptsEncodable(vs[0]);
      AcceptsAll(vs[1..]);
    }
  }

  lemma {:induction false} AcceptsFields(fs: seq<Field>)
    ensures EncFields(fs).Some? <==> EncodableFields(fs)
    ensures EncFields(fs).Some? ==> |EncFields(fs).value| == SizeFields(fs)
    decreases fs, 0
  {
    if fs != [] {
      AcceptsEncodable(fs[0].value);
      AcceptsFields(fs[1..]);
    }
  }
}
