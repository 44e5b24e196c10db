/** Values as both AMQP versions carry them, big-endian numbers and byte buffers. */
module Wire {
  import opened Framing

  const TWO_7: int := 128
  const TWO_8: nat := 256
  const TWO_15: int := 0x8000
  const TWO_16: nat := 0x1_0000
  const TWO_31: int := 0x8000_0000
  const TWO_32: nat := 0x1_0000_0000
  const TWO_63: int := 0x8000_0000_0000_0000

  // ---------------------------------------------------------------- values

  type Bytes = seq<Byte>

  /** `Number` is a number with an integral value, `Double` any other number by its 64-bit pattern;
      `NilStruct` is a struct without a field map. Fields are listed in iteration order. */
  datatype Value =
    | Null
    | Number(i: int)
    | Double(bits: nat)
    | Text(s: Bytes)
    | Boolean(b: bool)
    | NilStruct
    | Struct(fields: seq<Field>)
    | List(values: seq<Value>)

  datatype Field = Field(name: Bytes, value: Value)

  predicate FreshName(fields: seq<Field>, name: Bytes) {
    forall i :: 0 <= i < |fields| ==> fields[i].name != name
  }

  /** Integral numbers fit 64 bits and the names of a struct are distinct, at every depth. */
  predicate Valid(v: Value)
    decreases v, 1
  {
    match v
    case Number(i) => -TWO_63 <= i < TWO_63
    case Double(bits) => bits < TWO_64
    case Struct(fields) => ValidFields(fields)
    case List(values) => ValidAll(values)
    case _ => true
  }

  predicate ValidAll(vs: seq<Value>)
    decreases vs, 0
  {
    vs == [] || (Valid(vs[0]) && ValidAll(vs[1..]))
  }

  predicate ValidFields(fs: seq<Field>)
    decreases fs, 0
  {
    fs == [] || (Valid(fs[0].value) && FreshName(fs[1..], fs[0].name) && ValidFields(fs[1..]))
  }

  /** The value a decoder can give back: a nil struct comes back empty. */
  function Norm(v: Value): Value
    decreases v, 1
  {
    match v
    case NilStruct => Struct([])
    case Struct(fields) => Struct(NormFields(fields))
    case List(values) => List(NormAll(values))
    case _ => v
  }

  function NormAll(vs: seq<Value>): (r: seq<Value>)
    ensures |r| == |vs|
    decreases vs, 0
  {
    if vs == [] then [] else [Norm(vs[0])] + NormAll(vs[1..])
  }

  function NormFields(fs: seq<Field>): (r: seq<Field>)
    ensures |r| == |fs|
    ensures forall i :: 0 <= i < |fs| ==> r[i].name == fs[i].name
    decreases fs, 0
  {
    if fs == [] then [] else [Field(fs[0].name, Norm(fs[0].value))] + NormFields(fs[1..])
  }

  /** Storing under a name that is already there replaces the value. */
  function Store(fields: seq<Field>, name: Bytes, value: Value): seq<Field> {
    if fields == [] then [Field(name, value)]
    else if fields[0].name == name then [Field(name, value)] + fields[1..]
    else [fields[0]] + Store(fields[1..], name, value)
  }

  lemma {:induction false} StoreFresh(fields: seq<Field>, name: Bytes, value: Value)
    requires FreshName(fields, name)
    ensures Store(fields, name, value) == fields + [Field(name, value)]
  {
    if fields != [] {
      StoreFresh(fields[1..], name, value);
      assert fields == [fields[0]] + fields[1..];
    }
  }

  // ---------------------------------------------------------------- big-endian numbers

  function Pow256(k: nat): nat {
    if k == 0 then 1 else 256 * Pow256(k - 1)
  }

  function Be(x: nat, k: nat): (b: Bytes)
    ensures |b| == k
    decreases k
  {
    if k == 0 then [] else var q := x / 256; Be(q, k - 1) + [x - 256 * q]
  }

  function FromBe(b: Bytes): nat {
    if b == [] then 0 else 256 * FromBe(b[..|b| - 1]) + b[|b| - 1]
  }

  lemma {:induction false} BeRoundTrip(x: nat, k: nat)
    requires x < Pow256(k)
    ensures FromBe(Be(x, k)) == x
    decreases k
  {
    if k > 0 {
      var q := x / 256;
      BeRoundTrip(q, k - 1);
      assert Be(x, k)[..k - 1] == Be(q, k - 1);
    }
  }

  lemma {:induction false} Powers()
    ensures Pow256(1) == TWO_8 && Pow256(2) == TWO_16 && Pow256(4) == TWO_32 && Pow256(8) == TWO_64
  {
    assert Pow256(2) == TWO_16;
    assert Pow256(4) == TWO_32;
    assert Pow256(6) == 0x1_0000_0000_0000;
  }

  /** Two's complement in a range of `modulus` values. */
  function Unsigned(i: int, modulus: nat): int {
    if i < 0 then i + modulus else i
  }

  function Signed(x: nat, modulus: nat): int {
    if 2 * x >= modulus then x - modulus else x
  }

  /** A 32-bit size field keeps only the low 32 bits. */
  function Low32(n: nat): nat {
    if n < TWO_32 then n else n % TWO_32
  }

  function Size32(n: nat): (b: Bytes)
    ensures |b| == 4
  {
    Be(Low32(n), 4)
  }

  lemma {:induction false} Size32RoundTrip(n: nat)
    requires n < TWO_32
    ensures FromBe(Size32(n)) == n
  {
    assert Pow256(4) == TWO_32 by {
      Powers();
    }
    BeRoundTrip(n, 4);
  }

  /** A signed number of `k` bytes, read back. */
  lemma {:induction false} SignedRoundTrip(i: int, k: nat, modulus: nat)
    requires modulus == Pow256(k) && -(modulus as int) <= 2 * i < modulus
    ensures 0 <= Unsigned(i, modulus) < modulus
    ensures Signed(FromBe(Be(Unsigned(i, modulus), k)), modulus) == i
  {
    BeRoundTrip(Unsigned(i, modulus), k);
  }

  // ---------------------------------------------------------------- parsing

  /** `NegativeSize` stands for a panic: a negative number of bytes is asked for. */
  datatype Reason = Underflow | BadConstructor | NonStringKey | OddCount | NotImplemented | NotModelled | NegativeSize

  datatype Parsed<+T> = Ok(value: T, rest: Bytes) | Fail(reason: Reason)

  datatype Result<+T> = Success(value: T) | Failure(reason: Reason)

  function Take(b: Bytes, n: nat): (p: Parsed<Bytes>)
    ensures p.Ok? <==> n <= |b|
    ensures p.Ok? ==> b == p.value + p.rest && |p.value| == n
  {
    if |b| < n then Fail(Underflow) else Ok(b[..n], b[n..])
  }

  function DecInt(b: Bytes, n: nat, signed: bool): (p: Parsed<Value>)
    ensures p.Ok? ==> |p.rest| <= |b|
  {
    var t := Take(b, n);
    if t.Fail? then Fail(t.reason)
    else Ok(Number(if signed then Signed(FromBe(t.value), Pow256(n)) else FromBe(t.value)), t.rest)
  }

  function DecDouble(b: Bytes): (p: Parsed<Value>)
    ensures p.Ok? ==> |p.rest| <= |b|
  {
    var t := Take(b, 8);
    if t.Fail? then Fail(t.reason) else Ok(Double(FromBe(t.value)), t.rest)
  }

  /** A length of `n` bytes and that much content. */
  function DecBlock(b: Bytes, n: nat): (p: Parsed<Bytes>)
    ensures p.Ok? ==> |p.value| + n + |p.rest| == |b|
  {
    var t := Take(b, n);
    if t.Fail? then Fail(t.reason) else Take(t.rest, FromBe(t.value))
  }

  lemma {:induction false} TakeExact(a: Bytes, rest: Bytes)
    ensures Take(a + rest, |a|) == Ok(a, rest)
  {
  }

  lemma {:induction false} ByteIsBe(x: Byte)
    ensures FromBe([x]) == x && Be(x, 1) == [x]
  {
    assert [x][..0] == [];
  }

  lemma {:induction false} IntBack(i: int, n: nat, modulus: nat, rest: Bytes)
    requires modulus == Pow256(n) && -(modulus as int) <= 2 * i < modulus
    ensures DecInt(Be(Unsigned(i, modulus), n) + rest, n, true) == Ok(Number(i), rest)
  {
    SignedRoundTrip(i, n, modulus);
    TakeExact(Be(Unsigned(i, modulus), n), rest);
  }

  lemma {:induction false} BlockBack(size: Bytes, content: Bytes, rest: Bytes)
    requires FromBe(size) == |content|
    ensures DecBlock(size + content + rest, |size|) == Ok(content, rest)
  {
    assert size + content + rest == size + (content + rest);
    TakeExact(size, content + rest);
    TakeExact(content, rest);
  }

  /** A byte buffer that is appended to at the back and consumed from the front. */
  class Buffer {
    var bytes: Bytes

    constructor (bytes: Bytes)
      ensures this.bytes == bytes
    {
      this.bytes := bytes;
    }

    method Write(b: Bytes)
      modifies this
      ensures bytes == old(bytes) + b
    {
      bytes := bytes + b;
    }

    method ReadByte() returns (b: Byte, ok: bool)
      modifies this
      ensures ok == (old(bytes) != [])
      ensures if ok then old(bytes) == [b] + bytes else bytes == old(bytes)
    {
      if bytes == [] {
        return 0, false;
      }
      b, bytes, ok := bytes[0], bytes[1..], true;
    }

    /** At most `n` bytes from the front. */
    method Next(n: nat) returns (b: Bytes)
      modifies this
      ensures var m := if n <= |old(bytes)| then n else |old(bytes)|;
              b == old(bytes)[..m] && bytes == old(bytes)[m..]
    {
      var m := if n <= |bytes| then n else |bytes|;
      b, bytes := bytes[..m], bytes[m..];
    }
  }
}
