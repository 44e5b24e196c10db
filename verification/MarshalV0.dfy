/** The AMQP 0-9-1 table encoder and decoder as they work on buffers. */
module MarshalV0 {
  import opened Wrappers
  import opened Framing
  import opened Wire
  import opened CodecV0
  import CodecV1
  import MarshalV1

  // ---------------------------------------------------------------- encoding

  /** Appends a block, unless its content could not be encoded or is too long. */
  method WriteBlock(letter: Byte, content: Option<Bytes>, buf: Buffer) returns (ok: bool)
    modifies buf
    ensures ok == EncBlock(letter, content).Some?
    ensures ok ==> buf.bytes == old(buf.bytes) + EncBlock(letter, content).value
  {
    if content.None? || |content.value| >= TWO_32 {
      return false;
    }
    MarshalV1.Join(buf.bytes, [letter] + Be(|content.value|, 4), content.value);
    buf.Write([letter] + Be(|content.value|, 4));
    buf.Write(content.value);
    ok := true;
  }

  method MarshalValue(v: Value, buf: Buffer) returns (ok: bool)
    modifies buf
    ensures ok == Enc(v).Some?
    ensures ok ==> buf.bytes == old(buf.bytes) + Enc(v).value
    decreases v, 1
  {
    ok := true;
    match v {
      case Null => buf.Write([VOID]);
      case Number(i) => MarshalNumber(i, buf);
      case Double(bits) => buf.Write([DOUBLE] + Be(bits, 8));
      case Boolean(b) => buf.Write([BOOL, if b then 1 else 0]);
      case Text(s) => ok := WriteBlock(STRING, Some(s), buf);
      case NilStruct => ok := WriteBlock(TABLE, Some([]), buf);
      case Struct(fields) =>
        var table := MarshalTable(fields);
        ok := WriteBlock(TABLE, table, buf);
      case List(values) =>
        var items := MarshalArray(values);
        ok := WriteBlock(ARRAY, items, buf);
    }
  }

  method MarshalNumber(i: int, buf: Buffer)
    modifies buf
    ensures buf.bytes == old(buf.bytes) + EncNumber(i)
  {
    if -TWO_7 <= i < TWO_7 {
      buf.Write([INT8, Unsigned(i, TWO_8)]);
    } else if -TWO_15 <= i < TWO_15 {
      buf.Write([INT16] + Be(Unsigned(i, TWO_16), 2));
    } else if -TWO_31 <= i < TWO_31 {
      buf.Write([INT32] + Be(Unsigned(i, TWO_32), 4));
    } else if -TWO_63 <= i < TWO_63 {
      buf.Write([INT64] + Be(Unsigned(i, TWO_64), 8));
    } else {
      buf.Write([INT64] + Be(TWO_63, 8));
    }
  }

  method MarshalTable(fields: seq<Field>) returns (r: Option<Bytes>)
    ensures r == EncFields(fields)
    decreases fields, 0
  {
    var buf := new Buffer([]);
    assert fields[0..] == fields;
    PrependNone([], EncFields(fields));
    for i := 0 to |fields|
      invariant EncFields(fields) == Prepend(buf.bytes, EncFields(fields[i..]))
    {
      var f := fields[i];
      assert fields[i..][0] == f && fields[i..][1..] == fields[i + 1..];
      if |f.name| > MAX_NAME {
        return None;
      }
      ghost var before := buf.bytes;
      var ok := MarshalField(f, buf);
      if !ok {
        return None;
      }
      PrependStep(before, [|f.name|] + f.name + Enc(f.value).value, EncFields(fields[i + 1..]));
    }
    PrependNone(buf.bytes, Some([]));
    r := Some(buf.bytes);
  }

  method MarshalField(f: Field, buf: Buffer) returns (ok: bool)
    requires |f.name| <= MAX_NAME
    modifies buf
    ensures ok == Enc(f.value).Some?
    ensures ok ==> buf.bytes == old(buf.bytes) + ([|f.name|] + f.name + Enc(f.value).value)
    decreases f, 2
  {
    if Enc(f.value).Some? {
      CodecV1.Regroup(buf.bytes, [|f.name|], f.name, Enc(f.value).value);
    }
    buf.Write([|f.name|]);
    buf.Write(f.name);
    ok := MarshalValue(f.value, buf);
  }

  method MarshalArray(values: seq<Value>) returns (r: Option<Bytes>)
    ensures r == EncAll(values)
    decreases values, 0
  {
    var buf := new Buffer([]);
    assert values[0..] == values;
    PrependNone([], EncAll(values));
    for i := 0 to |values|
      invariant EncAll(values) == Prepend(buf.bytes, EncAll(values[i..]))
    {
      assert values[i..][0] == values[i] && values[i..][1..] == values[i + 1..];
      ghost var before := buf.bytes;
      var ok := MarshalValue(values[i], buf);
      if !ok {
        return None;
      }
      PrependStep(before, Enc(values[i]).value, EncAll(values[i + 1..]));
    }
    PrependNone(buf.bytes, Some([]));
    r := Some(buf.bytes);
  }

  ghost function Prepend(a: Bytes, more: Option<Bytes>): Option<Bytes> {
    if more.None? then None else Some(a + more.value)
  }

  lemma {:induction false} PrependNone(a: Bytes, more: Option<Bytes>)
    requires a == [] || more == Some([])
    ensures Prepend(a, more) == if a == [] then more else Some(a)
  {
    if more.Some? {
      assert a == [] ==> a + more.value == more.value;
      assert more.value == [] ==> a + more.value == a;
    }
  }

  lemma {:induction false} PrependStep(a: Bytes, b: Bytes, more: Option<Bytes>)
    ensures Prepend(a, Prepend(b, more)) == Prepend(a + b, more)
  {
    if more.Some? {
      MarshalV1.Join(a, b, more.value);
    }
  }

  // ---------------------------------------------------------------- decoding

  method UnmarshalValue(buf: Buffer) returns (r: Result<Value>)
    modifies buf
    ensures MarshalV1.Consumed(buf, r, DecValue(old(buf.bytes)))
    decreases |buf.bytes|, 0
  {
    var c, ok := buf.ReadByte();
    if !ok {
      return Failure(Underflow);
    }
    assert old(buf.bytes)[1..] == buf.bytes;
    r := UnmarshalWithType(KindOf(c), buf);
  }

  method UnmarshalWithType(k: Kind, buf: Buffer) returns (r: Result<Value>)
    modifies buf
    ensures MarshalV1.Consumed(buf, r, DecWith(k, old(buf.bytes)))
    decreases |buf.bytes|, 3
  {
    match k {
      case KVoid => r := Success(Null);
      case KBool =>
        var b, ok := buf.ReadByte();
        r := if ok then Success(Boolean(b != 0)) else Failure(Underflow);
      case KInt(n, signed) =>
        var x := MarshalV1.ReadUint(n, buf);
        r := if x.Failure? then Failure(x.reason)
             else Success(Number(if signed then Signed(x.value, Pow256(n)) else x.value));
      case KDouble =>
        var x := MarshalV1.ReadUint(8, buf);
        r := if x.Failure? then Failure(x.reason) else Success(Double(x.value));
      case KText =>
        var s := MarshalV1.ReadBlock(4, buf);
        r := if s.Failure? then Failure(s.reason) else Success(Text(s.value));
      case KArray =>
        var data := MarshalV1.ReadBlock(4, buf);
        if data.Failure? {
          return Failure(data.reason);
        }
        var values := UnmarshalArray(data.value);
        r := if values.Failure? then Failure(values.reason) else Success(List(values.value));
      case KTable =>
        var data := MarshalV1.ReadBlock(4, buf);
        if data.Failure? {
          return Failure(data.reason);
        }
        r := UnmarshalTable(data.value);
      case KOther(reason) => r := Failure(reason);
    }
  }

  method UnmarshalArray(data: Bytes) returns (r: Result<seq<Value>>)
    ensures r == DecAll(data, [])
    decreases |data|, 1
  {
    var buf := new Buffer(data);
    var values := [];
    while buf.bytes != []
      invariant |buf.bytes| <= |data|
      invariant DecAll(data, []) == DecAll(buf.bytes, values)
      decreases |buf.bytes|
    {
      var v := UnmarshalValue(buf);
      if v.Failure? {
        return Failure(v.reason);
      }
      values := values + [v.value];
    }
    r := Success(values);
  }

  method UnmarshalTable(data: Bytes) returns (r: Result<Value>)
    ensures r == DecTableData(data)
    decreases |data|, 2
  {
    if data == [] {
      return Success(NilStruct);
    }
    var fields := UnmarshalFields(data);
    r := if fields.Failure? then Failure(fields.reason) else Success(Struct(fields.value));
  }

  method UnmarshalFields(data: Bytes) returns (r: Result<seq<Field>>)
    ensures r == DecFields(data, [])
    decreases |data|, 1
  {
    var buf := new Buffer(data);
    var fields := [];
    while buf.bytes != []
      invariant |buf.bytes| <= |data|
      invariant DecFields(data, []) == DecFields(buf.bytes, fields)
      decreases |buf.bytes|
    {
      var name := MarshalV1.ReadBlock(1, buf);
      if name.Failure? {
        return Failure(name.reason);
      }
      var v := UnmarshalValue(buf);
      if v.Failure? {
        return Failure(v.reason);
      }
      fields := Store(fields, name.value, v.value);
    }
    r := Success(fields);
  }
}
