/** Bytes and the big-endian helpers of utils/byte_stream.cpp. */
module Bytes {
  type byte = x: int | 0 <= x < 256

  /** write_2bytes stores the low 16 bits of its argument. */
  function Put2(v: nat): (r: seq<byte>)
    ensures |r| == 2 && Get2(r) == v % 0x1_0000
  {
    LowByte(v);
    [v / 0x100 % 0x100, v % 0x100]
  }

  function Get2(s: seq<byte>): (v: nat)
    requires |s| >= 2
    ensures v < 0x1_0000
  {
    s[0] as int * 0x100 + s[1]
  }

  /** write_3bytes stores the low 24 bits of its argument. */
  function Put3(v: nat): (r: seq<byte>)
    ensures |r| == 3 && Get3(r) == v % 0x100_0000
  {
    LowByte(v);
    Put2(v / 0x100) + [v % 0x100]
  }

  function Get3(s: seq<byte>): (v: nat)
    requires |s| >= 3
    ensures v < 0x100_0000
  {
    Get2(s) * 0x100 + s[2]
  }

  /** write_4bytes stores the low 32 bits of its argument. */
  function Put4(v: nat): (r: seq<byte>)
    ensures |r| == 4 && Get4(r) == v % 0x1_0000_0000
  {
    LowByte(v);
    Put3(v / 0x100) + [v % 0x100]
  }

  function Get4(s: seq<byte>): (v: nat)
    requires |s| >= 4
    ensures v < 0x1_0000_0000
  {
    Get3(s) * 0x100 + s[3]
  }

  /** write_8bytes stores the low 64 bits of its argument. */
  function Put8(v: nat): (r: seq<byte>)
    ensures |r| == 8 && Get8(r) == v % 0x1_0000_0000_0000_0000
  {
    Put8Halves(v);
    Put4(v / 0x1_0000_0000) + Put4(v)
  }

  function Get8(s: seq<byte>): (v: nat)
    requires |s| >= 8
    ensures v < 0x1_0000_0000_0000_0000
  {
    Get4(s) * 0x1_0000_0000 + Get4(s[4..])
  }

  lemma Rest16(x: nat, p: nat, t: nat)
    requires x == 0x1_0000 * p + t && t < 0x1_0000
    ensures x % 0x1_0000 == t
  {
  }

  lemma Rest24(x: nat, p: nat, t: nat)
    requires x == 0x100_0000 * p + t && t < 0x100_0000
    ensures x % 0x100_0000 == t
  {
  }

  lemma Rest32(x: nat, p: nat, t: nat)
    requires x == 0x1_0000_0000 * p + t && t < 0x1_0000_0000
    ensures x % 0x1_0000_0000 == t
  {
  }

  /** A number cut to 16, 24 or 32 bits, and its last byte. */
  lemma LowByte(v: nat)
    ensures v / 0x100 % 0x100 * 0x100 + v % 0x100 == v % 0x1_0000
    ensures v / 0x100 % 0x1_0000 * 0x100 + v % 0x100 == v % 0x100_0000
    ensures v / 0x100 % 0x100_0000 * 0x100 + v % 0x100 == v % 0x1_0000_0000
  {
    var q, r := v / 0x100, v % 0x100;
    Rest16(v, q / 0x100, q % 0x100 * 0x100 + r);
    Rest24(v, q / 0x1_0000, q % 0x1_0000 * 0x100 + r);
    Rest32(v, q / 0x100_0000, q % 0x100_0000 * 0x100 + r);
  }

  lemma Put8Halves(v: nat)
    ensures Get8(Put4(v / 0x1_0000_0000) + Put4(v)) == v % 0x1_0000_0000_0000_0000
  {
    var hi, lo := Put4(v / 0x1_0000_0000), Put4(v);
    assert (hi + lo)[4..] == lo;
    Get4Prefix(hi, lo);
    SplitMod(v, Get4(hi), Get4(lo));
  }

  lemma SplitMod(v: nat, hi: nat, lo: nat)
    requires hi == v / 0x1_0000_0000 % 0x1_0000_0000 && lo == v % 0x1_0000_0000
    ensures hi * 0x1_0000_0000 + lo == v % 0x1_0000_0000_0000_0000
  {
  }

  /** The most significant byte comes first. */
  lemma BigEndian(s: seq<byte>)
    requires |s| >= 8
    ensures Get2(s) == 256 * (s[0] as int) + s[1]
    ensures Get3(s) == 65536 * (s[0] as int) + 256 * (s[1] as int) + s[2]
    ensures Get4(s) == 16777216 * (s[0] as int) + 65536 * (s[1] as int) + 256 * (s[2] as int) + s[3]
    ensures Get8(s) == 4294967296 * Get4(s) + Get4(s[4..8])
  {
    assert s[4..][..4] == s[4..8];
  }

  /** Only the first three bytes matter to Get3. */
  lemma Get3Prefix(s: seq<byte>, rest: seq<byte>)
    requires |s| >= 3
    ensures Get3(s + rest) == Get3(s)
  {
  }

  /** Only the first four bytes matter to Get4. */
  lemma Get4Prefix(s: seq<byte>, rest: seq<byte>)
    requires |s| >= 4
    ensures Get4(s + rest) == Get4(s)
  {
  }

  /** What a list of pieces carries. */
  function Concat(pieces: seq<seq<byte>>): seq<byte> {
    if pieces == [] then [] else pieces[0] + Concat(pieces[1..])
  }
}
