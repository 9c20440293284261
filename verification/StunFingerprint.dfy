/** The FINGERPRINT value of section 15.5 of RFC 5389. */
module StunFingerprint {
  import opened Bytes
  import CrcBits
  import Crc32

  const XOR_VALUE: bv32 := 0x5354554e

  function ToBits(data: seq<byte>): (r: seq<bv8>) {
    seq(|data|, i requires 0 <= i < |data| => data[i] as bv8)
  }

  function Fingerprint(data: seq<byte>): (r: nat)
    ensures r < 0x1_0000_0000
  {
    (CrcBits.BitwiseCrc(ToBits(data)) ^ XOR_VALUE) as int
  }

  /** The CRC-32 of no bytes is 0, so this is the number it is XORed with. */
  lemma FingerprintOfNothing()
    ensures Fingerprint([]) == 0x5354554e
  {
    assert ToBits([]) == [];
    assert CrcBits.BitwiseCrc([]) == 0;
  }

  method GetFingerprint(data: seq<byte>) returns (r: nat)
    ensures r == Fingerprint(data)
  {
    hide CrcBits.BitwiseCrc;
    var crc := Crc32.GetCrc32(ToBits(data));
    r := (crc ^ XOR_VALUE) as int;
  }
}
