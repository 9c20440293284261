/** Bit-vector facts, kept apart so that each is solved on its own. */
module BitFacts {
  function Xor(a: bv32, b: bv32): bv32 {
    a ^ b
  }

  lemma XorAssoc(u: bv32, v: bv32, p: bv32)
    ensures Xor(Xor(u, v), p) == Xor(u, Xor(v, p))
  {
  }

  lemma XorUnits(u: bv32, v: bv32)
    ensures Xor(u, v) == Xor(v, u) && Xor(u, u) == 0 && Xor(0, u) == u
  {
  }

  lemma XorSwap(u: bv32, v: bv32, p: bv32)
    ensures Xor(Xor(u, v), p) == Xor(Xor(u, p), v)
  {
    hide Xor;
    XorAssoc(u, v, p);
    XorAssoc(u, p, v);
    XorUnits(v, p);
  }

  lemma XorCancel(u: bv32, v: bv32, p: bv32)
    ensures Xor(Xor(u, p), Xor(v, p)) == Xor(u, v)
  {
    hide Xor;
    XorAssoc(u, p, Xor(v, p));
    XorUnits(v, p);
    XorAssoc(p, p, v);
    XorUnits(p, v);
    XorUnits(v, 0);
  }

  function Flip(x: bool, u: bv32, p: bv32): bv32 {
    if x then Xor(u, p) else u
  }

  lemma FlipXor(x: bool, y: bool, u: bv32, v: bv32, p: bv32)
    ensures Flip(x != y, Xor(u, v), p) == Xor(Flip(x, u, p), Flip(y, v, p))
  {
    hide Xor;
    XorSwap(u, v, p);
    XorAssoc(u, v, p);
    XorCancel(u, v, p);
  }

  function Half(c: bv32): bv32 {
    c >> 1
  }

  predicate Odd(c: bv32) {
    c & 1 == 1
  }

  lemma HalfXor(a: bv32, b: bv32)
    ensures Half(Xor(a, b)) == Xor(Half(a), Half(b))
    ensures Odd(Xor(a, b)) <==> (Odd(a) != Odd(b))
  {
  }

  function Low(c: bv32): (r: bv32)
    ensures r <= 0xff
  {
    c & 0xff
  }

  function High(c: bv32): bv32 {
    c & 0xffff_ff00
  }

  function Shift(c: bv32): bv32 {
    c >> 8
  }

  lemma LowHigh(c: bv32)
    ensures Xor(Low(c), High(c)) == c && Low(High(c)) == 0 && Shift(High(c)) == Shift(c)
  {
  }

  lemma ByteXor(crc: bv32, b: bv8)
    ensures Shift(crc ^ b as bv32) == Shift(crc)
  {
  }
}

/** The reflected CRC-32, bit at a time. */
module CrcBits {
  import opened BitFacts

  const POLY: bv32 := 0xEDB88320

  /** One bit of input. */
  function Bit(c: bv32): bv32 {
    Flip(Odd(c), Half(c), POLY)
  }

  /** Eight bits: the effect of one input byte. */
  function Octet(c: bv32): bv32 {
    Bit(Bit(Bit(Bit(Bit(Bit(Bit(Bit(c))))))))
  }

  /** The definition: start from all ones, feed the bytes low bit first, invert. */
  function Feed(crc: bv32, data: seq<bv8>): bv32
    decreases |data|
  {
    if data == [] then crc else Feed(FeedByte(crc, data[0]), data[1..])
  }

  function FeedByte(crc: bv32, b: bv8): bv32 {
    Octet(crc ^ b as bv32)
  }

  function BitwiseCrc(data: seq<bv8>): bv32 {
    Feed(0xFFFF_FFFF, data) ^ 0xFFFF_FFFF
  }

  lemma BitLinear(a: bv32, b: bv32)
    ensures Bit(Xor(a, b)) == Xor(Bit(a), Bit(b))
  {
    hide Flip;
    hide Half;
    hide Odd;
    hide Xor;
    HalfXor(a, b);
    FlipXor(Odd(a), Odd(b), Half(a), Half(b), POLY);
  }

  lemma OctetLinear(a: bv32, b: bv32)
    ensures Octet(Xor(a, b)) == Xor(Octet(a), Octet(b))
  {
    hide Bit;
    hide Xor;
    var a1, b1 := Bit(a), Bit(b);
    var a2, b2 := Bit(a1), Bit(b1);
    var a3, b3 := Bit(a2), Bit(b2);
    var a4, b4 := Bit(a3), Bit(b3);
    var a5, b5 := Bit(a4), Bit(b4);
    var a6, b6 := Bit(a5), Bit(b5);
    var a7, b7 := Bit(a6), Bit(b6);
    BitLinear(a, b);
    BitLinear(a1, b1);
    BitLinear(a2, b2);
    BitLinear(a3, b3);
    BitLinear(a4, b4);
    BitLinear(a5, b5);
    BitLinear(a6, b6);
    BitLinear(a7, b7);
  }

  lemma OctetHigh(c: bv32)
    requires Low(c) == 0
    ensures Octet(c) == Shift(c)
  {
  }

  /** A byte step splits into a table part and a shift. */
  lemma OctetSplits(c: bv32)
    ensures Octet(c) == Xor(Octet(Low(c)), Shift(c))
  {
    hide Octet;
    hide Xor;
    hide Low;
    hide High;
    hide Shift;
    LowHigh(c);
    OctetLinear(Low(c), High(c));
    OctetHigh(High(c));
  }
}
