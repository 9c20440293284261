/** get_crc32 of utils/byte_crypto.cpp. */
module Crc32 {
  import opened BitFacts
  import opened CrcBits
  import opened CrcTable

  /** The loop body. */
  function Step(crc: bv32, b: bv8): bv32 {
    Xor(Table(Low(crc ^ b as bv32)), Shift(crc))
  }

  /** One turn of the loop is one byte of the bitwise definition. */
  lemma StepIsFeed(crc: bv32, b: bv8)
    ensures Step(crc, b) == FeedByte(crc, b)
  {
    hide Octet;
    hide Table;
    hide Xor;
    hide Low;
    hide Shift;
    var c := crc ^ b as bv32;
    ByteXor(crc, b);
    OctetSplits(c);
    TableCorrect(Low(c));
  }

  /** The table-driven loop computes the bit-at-a-time CRC-32. */
  method GetCrc32(data: seq<bv8>) returns (r: bv32)
    ensures r == BitwiseCrc(data)
  {
    hide FeedByte;
    hide Step;
    var crc: bv32 := 0xFFFF_FFFF;
    var i := 0;
    while i < |data|
      invariant 0 <= i <= |data|
      invariant Feed(crc, data[i..]) == Feed(0xFFFF_FFFF, data)
    {
      StepIsFeed(crc, data[i]);
      assert data[i..][1..] == data[i + 1..];
      crc := Step(crc, data[i]);
      i := i + 1;
    }
    r := crc ^ 0xFFFF_FFFF;
  }

  lemma TakesByte(crc: bv32, b: bv8, data: seq<bv8>)
    ensures Feed(crc, [b] + data) == Feed(FeedByte(crc, b), data)
  {
    hide FeedByte;
    assert ([b] + data)[1..] == data;
  }

  lemma CheckBytes()
    ensures FeedByte(0xffffffff, 0x31) == 0x7c231048
    ensures FeedByte(0x7c231048, 0x32) == 0xb0acbb32
    ensures FeedByte(0xb0acbb32, 0x33) == 0x77b79c2d
    ensures FeedByte(0x77b79c2d, 0x34) == 0x641c1f5c
    ensures FeedByte(0x641c1f5c, 0x35) == 0x340ac5e3
    ensures FeedByte(0x340ac5e3, 0x36) == 0xf68d2c9e
    ensures FeedByte(0xf68d2c9e, 0x37) == 0xaffc9660
    ensures FeedByte(0xaffc9660, 0x38) == 0x651f2550
    ensures FeedByte(0x651f2550, 0x39) == 0x340bc6d9
  {
  }

  /** The check value of CRC-32: that of the digits 1 to 9. */
  lemma CheckValue()
    ensures BitwiseCrc([0x31, 0x32, 0x33, 0x34, 0x35, 0x36, 0x37, 0x38, 0x39]) == 0xcbf43926
  {
    CheckBytes();
    hide FeedByte;
    TakesByte(0xffffffff, 0x31, [0x32, 0x33, 0x34, 0x35, 0x36, 0x37, 0x38, 0x39]);
    TakesByte(0x7c231048, 0x32, [0x33, 0x34, 0x35, 0x36, 0x37, 0x38, 0x39]);
    TakesByte(0xb0acbb32, 0x33, [0x34, 0x35, 0x36, 0x37, 0x38, 0x39]);
    TakesByte(0x77b79c2d, 0x34, [0x35, 0x36, 0x37, 0x38, 0x39]);
    TakesByte(0x641c1f5c, 0x35, [0x36, 0x37, 0x38, 0x39]);
    TakesByte(0x340ac5e3, 0x36, [0x37, 0x38, 0x39]);
    TakesByte(0xf68d2c9e, 0x37, [0x38, 0x39]);
    TakesByte(0xaffc9660, 0x38, [0x39]);
    TakesByte(0x651f2550, 0x39, []);
    assert Feed(0x340bc6d9, []) == 0x340bc6d9;
    hide Feed;
    assert [0x31] + [0x32, 0x33, 0x34, 0x35, 0x36, 0x37, 0x38, 0x39]
        == [0x31, 0x32, 0x33, 0x34, 0x35, 0x36, 0x37, 0x38, 0x39];
    assert [0x32] + [0x33, 0x34, 0x35, 0x36, 0x37, 0x38, 0x39] == [0x32, 0x33, 0x34, 0x35, 0x36, 0x37, 0x38, 0x39];
    assert [0x33] + [0x34, 0x35, 0x36, 0x37, 0x38, 0x39] == [0x33, 0x34, 0x35, 0x36, 0x37, 0x38, 0x39];
    assert [0x34] + [0x35, 0x36, 0x37, 0x38, 0x39] == [0x34, 0x35, 0x36, 0x37, 0x38, 0x39];
    assert [0x35] + [0x36, 0x37, 0x38, 0x39] == [0x35, 0x36, 0x37, 0x38, 0x39];
    assert [0x36] + [0x37, 0x38, 0x39] == [0x36, 0x37, 0x38, 0x39];
    assert [0x37] + [0x38, 0x39] == [0x37, 0x38, 0x39];
    assert [0x38] + [0x39] == [0x38, 0x39];
    assert [0x39] + [] == [0x39];
  }
}
