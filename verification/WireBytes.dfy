/** What bytes of big-endian numbers stand for, digit by digit. */
module WireBytes {
  import opened Framing
  import opened Wire

  lemma {:induction false} OneDigit(a: Byte)
    ensures FromBe([a]) == a && Pow256(1) == 0x100
  {
    ByteIsBe(a);
  }

  lemma {:induction false} TwoDigits(a: Byte, b: Byte)
    ensures FromBe([a, b]) == 256 * a + b && Pow256(2) == 0x1_0000
  {
    OneDigit(a);
    assert [a, b][..1] == [a];
    Powers();
  }

  lemma {:induction false} ThreeDigits(a: Byte, b: Byte, c: Byte)
    ensures FromBe([a, b, c]) == 0x1_0000 * a + 0x100 * b + c
  {
    TwoDigits(a, b);
    assert [a, b, c][..2] == [a, b];
  }

  lemma {:induction false} FourDigits(a: Byte, b: Byte, c: Byte, d: Byte)
    ensures FromBe([a, b, c, d]) == 0x100_0000 * a + 0x1_0000 * b + 0x100 * c + d && Pow256(4) == 0x1_0000_0000
  {
    ThreeDigits(a, b, c);
    assert [a, b, c, d][..3] == [a, b, c];
    Powers();
  }

  lemma {:induction false} AndOneMore(high: Bytes, x: Byte)
    ensures FromBe(high + [x]) == 256 * FromBe(high) + x
  {
    assert (high + [x])[..|high|] == high;
  }

  lemma {:induction false} AndFourMore(high: Bytes, e: Byte, f: Byte, g: Byte, h: Byte)
    ensures FromBe(high + [e, f, g, h]) == 0x1_0000_0000 * FromBe(high) + FromBe([e, f, g, h])
  {
    AndOneMore(high, e);
    AndOneMore(high + [e], f);
    AndOneMore(high + [e] + [f], g);
    AndOneMore(high + [e] + [f] + [g], h);
    assert high + [e, f, g, h] == high + [e] + [f] + [g] + [h];
    FourDigits(e, f, g, h);
  }

  /** Eight digits, from those of the two halves. */
  lemma {:induction false} EightDigits(a: Byte, b: Byte, c: Byte, d: Byte, e: Byte, f: Byte, g: Byte, h: Byte)
    ensures FromBe([a, b, c, d, e, f, g, h]) ==
            0x1_0000_0000 * (0x100_0000 * a + 0x1_0000 * b + 0x100 * c + d)
            + (0x100_0000 * e + 0x1_0000 * f + 0x100 * g + h)
    ensures Pow256(8) == 0x1_0000_0000_0000_0000
  {
    FourDigits(a, b, c, d);
    FourDigits(e, f, g, h);
    AndFourMore([a, b, c, d], e, f, g, h);
    assert [a, b, c, d] + [e, f, g, h] == [a, b, c, d, e, f, g, h];
    Powers();
  }

  /** A number of `n` bytes, the highest bit of which is its sign. */
  function TwosComplement(v: nat, half: nat): int {
    if v >= half then v - 2 * half else v
  }

  lemma {:induction false} IntDigits(body: Bytes, signed: bool, half: nat, rest: Bytes)
    requires Pow256(|body|) == 2 * half
    ensures DecInt(body + rest, |body|, signed)
         == Ok(Number(if signed then TwosComplement(FromBe(body), half) else FromBe(body)), rest)
  {
    TakeExact(body, rest);
  }
}
