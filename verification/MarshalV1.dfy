/** The AMQP 1.0 encoder and decoder as they work on buffers. */
module MarshalV1 {
  import opened Framing
  import opened Wire
  import opened CodecV1

  // ---------------------------------------------------------------- encoding

  method MarshalNumber(i: int, buf: Buffer)
    modifies buf
    ensures buf.bytes == old(buf.bytes) + EncNumber(i)
  {
    if -TWO_7 <= i < TWO_7 {
      buf.Write([BYTE, Unsigned(i, TWO_8)]);
    } else if -TWO_15 <= i < TWO_15 {
      buf.Write([SHORT] + Be(Unsigned(i, TWO_16), 2));
    } else if -TWO_31 <= i < TWO_31 {
      buf.Write([INT] + Be(Unsigned(i, TWO_32), 4));
    } else if -TWO_63 <= i < TWO_63 {
      buf.Write([LONG] + Be(Unsigned(i, TWO_64), 8));
    } else {
      buf.Write([LONG] + Be(TWO_63, 8));
    }
  }

  method MarshalString(s: Bytes, buf: Buffer)
    modifies buf
    ensures buf.bytes == old(buf.bytes) + EncBlock(STRING_8, STRING_32, s)
  {
    if |s| <= 255 {
      buf.Write([STRING_8, |s|]);
    } else {
      buf.Write([STRING_32] + Size32(|s|));
    }
    buf.Write(s);
  }

  /** Writes size and count in the narrowest form that fits both, then the items. */
  method WriteCompound(narrow: Byte, wide: Byte, count: nat, items: Buffer, buf: Buffer)
    requires items != buf
    modifies buf
    ensures buf.bytes == old(buf.bytes) + EncCompound(narrow, wide, count, items.bytes)
  {
    var head: Bytes;
    if |items.bytes| + 1 <= 255 && count <= 255 {
      head := [narrow, |items.bytes| + 1, count];
    } else {
      head := [wide] + Size32(|items.bytes| + 4) + Size32(count);
    }
    assert EncCompound(narrow, wide, count, items.bytes) == head + items.bytes;
    Join(buf.bytes, head, items.bytes);
    buf.Write(head);
    buf.Write(items.bytes);
  }

  lemma {:induction false} Join(a: Bytes, b: Bytes, c: Bytes)
    ensures a + b + c == a + (b + c)
  {
  }

  method MarshalValue(v: Value, buf: Buffer)
    modifies buf
    ensures buf.bytes == old(buf.bytes) + Enc(v)
    decreases v, 1
  {
    match v {
      case Null => buf.Write([NULL]);
      case Number(i) => MarshalNumber(i, buf);
      case Double(bits) => buf.Write([DOUBLE] + Be(bits, 8));
      case Text(s) => MarshalString(s, buf);
      case Boolean(b) => buf.Write([if b then BOOLEAN_TRUE else BOOLEAN_FALSE]);
      case NilStruct => buf.Write([MAP_8, 0]);
      case Struct(fields) => MarshalMap(fields, buf);
      case List(values) => MarshalList(values, buf);
    }
  }

  method MarshalMap(fields: seq<Field>, buf: Buffer)
    modifies buf
    ensures buf.bytes == old(buf.bytes) + EncCompound(MAP_8, MAP_32, 2 * |fields|, EncFields(fields))
    decreases fields, 3
  {
    var items := MarshalFields(fields);
    WriteCompound(MAP_8, MAP_32, 2 * |fields|, items, buf);
  }

  method MarshalFields(fields: seq<Field>) returns (items: Buffer)
    ensures fresh(items) && items.bytes == EncFields(fields)
    decreases fields, 2
  {
    items := new Buffer([]);
    for i := 0 to |fields|
      invariant items.bytes + EncFields(fields[i..]) == EncFields(fields)
    {
      assert fields[i..][1..] == fields[i + 1..];
      Join(items.bytes, EncField(fields[i]), EncFields(fields[i + 1..]));
      MarshalField(fields[i], items);
    }
  }

  method MarshalField(f: Field, items: Buffer)
    modifies items
    ensures items.bytes == old(items.bytes) + EncField(f)
    decreases f, 2
  {
    Join(items.bytes, EncBlock(STRING_8, STRING_32, f.name), Enc(f.value));
    MarshalString(f.name, items);
    MarshalValue(f.value, items);
  }

  method MarshalList(values: seq<Value>, buf: Buffer)
    modifies buf
    ensures buf.bytes == old(buf.bytes) + Enc(List(values))
    decreases values, 3
  {
    if values == [] {
      buf.Write([LIST_0]);
      return;
    }
    var items := MarshalItems(values);
    WriteCompound(LIST_8, LIST_32, |values|, items, buf);
  }

  method MarshalItems(values: seq<Value>) returns (items: Buffer)
    ensures fresh(items) && items.bytes == EncAll(values)
    decreases values, 2
  {
    items := new Buffer([]);
    for i := 0 to |values|
      invariant items.bytes + EncAll(values[i..]) == EncAll(values)
    {
      assert values[i..][1..] == values[i + 1..];
      Join(items.bytes, Enc(values[i]), EncAll(values[i + 1..]));
      MarshalValue(values[i], items);
    }
  }

  // ---------------------------------------------------------------- decoding

  /** What a decoder did to its buffer, against the specification. */
  ghost predicate Consumed<T>(buf: Buffer, r: Result<T>, p: Parsed<T>)
    reads buf
  {
    match p
    case Ok(value, rest) => r == Success(value) && buf.bytes == rest
    case Fail(reason) => r == Failure(reason)
  }

  method ReadUint(n: nat, buf: Buffer) returns (r: Result<nat>)
    modifies buf
    ensures var t := Take(old(buf.bytes), n);
            if t.Ok? then r == Success(FromBe(t.value)) && buf.bytes == t.rest else r == Failure(Underflow)
  {
    if |buf.bytes| < n {
      return Failure(Underflow);
    }
    var b := buf.Next(n);
    r := Success(FromBe(b));
  }

  method ReadBlock(n: nat, buf: Buffer) returns (r: Result<Bytes>)
    modifies buf
    ensures Consumed(buf, r, DecBlock(old(buf.bytes), n))
  {
    var size := ReadUint(n, buf);
    if size.Failure? {
      return Failure(size.reason);
    }
    if |buf.bytes| < size.value {
      return Failure(Underflow);
    }
    var b := buf.Next(size.value);
    r := Success(b);
  }

  method UnmarshalValue(buf: Buffer) returns (r: Result<Value>)
    modifies buf
    ensures Consumed(buf, r, DecValue(old(buf.bytes)))
    decreases |buf.bytes|, 0
  {
    var c, ok := buf.ReadByte();
    if !ok {
      return Failure(Underflow);
    }
    assert old(buf.bytes)[1..] == buf.bytes;
    r := UnmarshalWithConstructor(KindOf(c), buf);
  }

  method UnmarshalWithConstructor(k: Kind, buf: Buffer) returns (r: Result<Value>)
    requires k.KList? || k.KMap? ==> k.n >= 1
    modifies buf
    ensures Consumed(buf, r, DecWith(k, old(buf.bytes)))
    decreases |buf.bytes|, 3
  {
    match k {
      case KNull => r := Success(Null);
      case KTrue => r := Success(Boolean(true));
      case KFalse => r := Success(Boolean(false));
      case KBoolean =>
        var b, ok := buf.ReadByte();
        r := if ok then Success(Boolean(b != 0)) else Failure(Underflow);
      case KZero => r := Success(Number(0));
      case KInt(n, signed) =>
        var x := ReadUint(n, buf);
        r := if x.Failure? then Failure(x.reason)
             else Success(Number(if signed then Signed(x.value, Pow256(n)) else x.value));
      case KDouble =>
        var x := ReadUint(8, buf);
        r := if x.Failure? then Failure(x.reason) else Success(Double(x.value));
      case KText(n) =>
        var s := ReadBlock(n, buf);
        r := if s.Failure? then Failure(s.reason) else Success(Text(s.value));
      case KEmptyList => r := Success(List([]));
      case KList(n) => r := UnmarshalList(n, buf);
      case KMap(n) => r := UnmarshalMap(n, buf);
      case KOther(reason) => r := Failure(reason);
    }
  }

  method UnmarshalList(n: nat, buf: Buffer) returns (r: Result<Value>)
    requires n >= 1
    modifies buf
    ensures Consumed(buf, r, DecList(old(buf.bytes), n))
    decreases |buf.bytes|, 2
  {
    var block := ReadBlock(n, buf);
    if block.Failure? {
      return Failure(block.reason);
    }
    var items := new Buffer(block.value);
    var count := ReadUint(n, items);
    if count.Failure? {
      return Failure(count.reason);
    }
    var values := UnmarshalItems(count.value, items);
    r := if values.Failure? then Failure(values.reason) else Success(List(values.value));
  }

  method UnmarshalItems(count: nat, items: Buffer) returns (r: Result<seq<Value>>)
    modifies items
    ensures var p := DecAll(old(items.bytes), count, []);
            r == if p.Ok? then Success(p.value) else Failure(p.reason)
    decreases |items.bytes|, 1
  {
    ghost var all := DecAll(items.bytes, count, []);
    var values := [];
    for i := 0 to count
      invariant |items.bytes| <= |old(items.bytes)|
      invariant all == DecAll(items.bytes, count - i, values)
    {
      var v := UnmarshalValue(items);
      if v.Failure? {
        return Failure(v.reason);
      }
      values := values + [v.value];
    }
    r := Success(values);
  }

  method UnmarshalMap(n: nat, buf: Buffer) returns (r: Result<Value>)
    requires n >= 1
    modifies buf
    ensures Consumed(buf, r, DecMap(old(buf.bytes), n))
    decreases |buf.bytes|, 2
  {
    var block := ReadBlock(n, buf);
    if block.Failure? {
      return Failure(block.reason);
    }
    if block.value == [] {
      return Success(Struct([]));
    }
    var items := new Buffer(block.value);
    var count := ReadUint(n, items);
    if count.Failure? {
      return Failure(count.reason);
    }
    if count.value % 2 != 0 {
      return Failure(OddCount);
    }
    var fields := UnmarshalPairs(count.value / 2, items);
    r := if fields.Failure? then Failure(fields.reason) else Success(Struct(fields.value));
  }

  method UnmarshalPairs(count: nat, items: Buffer) returns (r: Result<seq<Field>>)
    modifies items
    ensures var p := DecFields(old(items.bytes), count, []);
            r == if p.Ok? then Success(p.value) else Failure(p.reason)
    decreases |items.bytes|, 1
  {
    ghost var all := DecFields(items.bytes, count, []);
    var fields := [];
    for i := 0 to count
      invariant |items.bytes| <= |old(items.bytes)|
      invariant all == DecFields(items.bytes, count - i, fields)
    {
      var key := UnmarshalValue(items);
      if key.Failure? {
        return Failure(key.reason);
      }
      if !key.value.Text? {
        return Failure(NonStringKey);
      }
      var value := UnmarshalValue(items);
      if value.Failure? {
        return Failure(value.reason);
      }
      fields := Store(fields, key.value.s, value.value);
    }
    r := Success(fields);
  }
}
