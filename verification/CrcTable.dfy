/**
 * crc32_table of utils/byte_crypto.cpp, eight entries a row as in the source, each entry
 * checked against eight bit steps.
 */
module CrcTable {
  import opened CrcBits

  function Row00(x: bv32): bv32 {
    if x == 0x00 then 0x00000000 else if x == 0x01 then 0x77073096 else
    if x == 0x02 then 0xee0e612c else if x == 0x03 then 0x990951ba else
    if x == 0x04 then 0x076dc419 else if x == 0x05 then 0x706af48f else
    if x == 0x06 then 0xe963a535 else 0x9e6495a3
  }

  lemma Row00Correct(x: bv32)
    requires 0x00 <= x <= 0x07
    ensures Row00(x) == Octet(x)
  {
    assert x <= 0x03 ==> Row00(x) == Octet(x);
  }

  function Row08(x: bv32): bv32 {
    if x == 0x08 then 0x0edb8832 else if x == 0x09 then 0x79dcb8a4 else
    if x == 0x0a then 0xe0d5e91e else if x == 0x0b then 0x97d2d988 else
    if x == 0x0c then 0x09b64c2b else if x == 0x0d then 0x7eb17cbd else
    if x == 0x0e then 0xe7b82d07 else 0x90bf1d91
  }

  lemma Row08Correct(x: bv32)
    requires 0x08 <= x <= 0x0f
    ensures Row08(x) == Octet(x)
  {
    assert x <= 0x0b ==> Row08(x) == Octet(x);
  }

  function Row10(x: bv32): bv32 {
    if x == 0x10 then 0x1db71064 else if x == 0x11 then 0x6ab020f2 else
    if x == 0x12 then 0xf3b97148 else if x == 0x13 then 0x84be41de else
    if x == 0x14 then 0x1adad47d else if x == 0x15 then 0x6ddde4eb else
    if x == 0x16 then 0xf4d4b551 else 0x83d385c7
  }

  lemma Row10Correct(x: bv32)
    requires 0x10 <= x <= 0x17
    ensures Row10(x) == Octet(x)
  {
    assert x <= 0x13 ==> Row10(x) == Octet(x);
  }

  function Row18(x: bv32): bv32 {
    if x == 0x18 then 0x136c9856 else if x == 0x19 then 0x646ba8c0 else
    if x == 0x1a then 0xfd62f97a else if x == 0x1b then 0x8a65c9ec else
    if x == 0x1c then 0x14015c4f else if x == 0x1d then 0x63066cd9 else
    if x == 0x1e then 0xfa0f3d63 else 0x8d080df5
  }

  lemma Row18Correct(x: bv32)
    requires 0x18 <= x <= 0x1f
    ensures Row18(x) == Octet(x)
  {
    assert x <= 0x1b ==> Row18(x) == Octet(x);
  }

  function Row20(x: bv32): bv32 {
    if x == 0x20 then 0x3b6e20c8 else if x == 0x21 then 0x4c69105e else
    if x == 0x22 then 0xd56041e4 else if x == 0x23 then 0xa2677172 else
    if x == 0x24 then 0x3c03e4d1 else if x == 0x25 then 0x4b04d447 else
    if x == 0x26 then 0xd20d85fd else 0xa50ab56b
  }

  lemma Row20Correct(x: bv32)
    requires 0x20 <= x <= 0x27
    ensures Row20(x) == Octet(x)
  {
    assert x <= 0x23 ==> Row20(x) == Octet(x);
  }

  function Row28(x: bv32): bv32 {
    if x == 0x28 then 0x35b5a8fa else if x == 0x29 then 0x42b2986c else
    if x == 0x2a then 0xdbbbc9d6 else if x == 0x2b then 0xacbcf940 else
    if x == 0x2c then 0x32d86ce3 else if x == 0x2d then 0x45df5c75 else
    if x == 0x2e then 0xdcd60dcf else 0xabd13d59
  }

  lemma Row28Correct(x: bv32)
    requires 0x28 <= x <= 0x2f
    ensures Row28(x) == Octet(x)
  {
    assert x <= 0x2b ==> Row28(x) == Octet(x);
  }

  function Row30(x: bv32): bv32 {
    if x == 0x30 then 0x26d930ac else if x == 0x31 then 0x51de003a else
    if x == 0x32 then 0xc8d75180 else if x == 0x33 then 0xbfd06116 else
    if x == 0x34 then 0x21b4f4b5 else if x == 0x35 then 0x56b3c423 else
    if x == 0x36 then 0xcfba9599 else 0xb8bda50f
  }

  lemma Row30Correct(x: bv32)
    requires 0x30 <= x <= 0x37
    ensures Row30(x) == Octet(x)
  {
    assert x <= 0x33 ==> Row30(x) == Octet(x);
  }

  function Row38(x: bv32): bv32 {
    if x == 0x38 then 0x2802b89e else if x == 0x39 then 0x5f058808 else
    if x == 0x3a then 0xc60cd9b2 else if x == 0x3b then 0xb10be924 else
    if x == 0x3c then 0x2f6f7c87 else if x == 0x3d then 0x58684c11 else
    if x == 0x3e then 0xc1611dab else 0xb6662d3d
  }

  lemma Row38Correct(x: bv32)
    requires 0x38 <= x <= 0x3f
    ensures Row38(x) == Octet(x)
  {
    assert x <= 0x3b ==> Row38(x) == Octet(x);
  }

  function Row40(x: bv32): bv32 {
    if x == 0x40 then 0x76dc4190 else if x == 0x41 then 0x01db7106 else
    if x == 0x42 then 0x98d220bc else if x == 0x43 then 0xefd5102a else
    if x == 0x44 then 0x71b18589 else if x == 0x45 then 0x06b6b51f else
    if x == 0x46 then 0x9fbfe4a5 else 0xe8b8d433
  }

  lemma Row40Correct(x: bv32)
    requires 0x40 <= x <= 0x47
    ensures Row40(x) == Octet(x)
  {
    assert x <= 0x43 ==> Row40(x) == Octet(x);
  }

  function Row48(x: bv32): bv32 {
    if x == 0x48 then 0x7807c9a2 else if x == 0x49 then 0x0f00f934 else
    if x == 0x4a then 0x9609a88e else if x == 0x4b then 0xe10e9818 else
    if x == 0x4c then 0x7f6a0dbb else if x == 0x4d then 0x086d3d2d else
    if x == 0x4e then 0x91646c97 else 0xe6635c01
  }

  lemma Row48Correct(x: bv32)
    requires 0x48 <= x <= 0x4f
    ensures Row48(x) == Octet(x)
  {
    assert x <= 0x4b ==> Row48(x) == Octet(x);
  }

  function Row50(x: bv32): bv32 {
    if x == 0x50 then 0x6b6b51f4 else if x == 0x51 then 0x1c6c6162 else
    if x == 0x52 then 0x856530d8 else if x == 0x53 then 0xf262004e else
    if x == 0x54 then 0x6c0695ed else if x == 0x55 then 0x1b01a57b else
    if x == 0x56 then 0x8208f4c1 else 0xf50fc457
  }

  lemma Row50Correct(x: bv32)
    requires 0x50 <= x <= 0x57
    ensures Row50(x) == Octet(x)
  {
    assert x <= 0x53 ==> Row50(x) == Octet(x);
  }

  function Row58(x: bv32): bv32 {
    if x == 0x58 then 0x65b0d9c6 else if x == 0x59 then 0x12b7e950 else
    if x == 0x5a then 0x8bbeb8ea else if x == 0x5b then 0xfcb9887c else
    if x == 0x5c then 0x62dd1ddf else if x == 0x5d then 0x15da2d49 else
    if x == 0x5e then 0x8cd37cf3 else 0xfbd44c65
  }

  lemma Row58Correct(x: bv32)
    requires 0x58 <= x <= 0x5f
    ensures Row58(x) == Octet(x)
  {
    assert x <= 0x5b ==> Row58(x) == Octet(x);
  }

  function Row60(x: bv32): bv32 {
    if x == 0x60 then 0x4db26158 else if x == 0x61 then 0x3ab551ce else
    if x == 0x62 then 0xa3bc0074 else if x == 0x63 then 0xd4bb30e2 else
    if x == 0x64 then 0x4adfa541 else if x == 0x65 then 0x3dd895d7 else
    if x == 0x66 then 0xa4d1c46d else 0xd3d6f4fb
  }

  lemma Row60Correct(x: bv32)
    requires 0x60 <= x <= 0x67
    ensures Row60(x) == Octet(x)
  {
    assert x <= 0x63 ==> Row60(x) == Octet(x);
  }

  function Row68(x: bv32): bv32 {
    if x == 0x68 then 0x4369e96a else if x == 0x69 then 0x346ed9fc else
    if x == 0x6a then 0xad678846 else if x == 0x6b then 0xda60b8d0 else
    if x == 0x6c then 0x44042d73 else if x == 0x6d then 0x33031de5 else
    if x == 0x6e then 0xaa0a4c5f else 0xdd0d7cc9
  }

  lemma Row68Correct(x: bv32)
    requires 0x68 <= x <= 0x6f
    ensures Row68(x) == Octet(x)
  {
    assert x <= 0x6b ==> Row68(x) == Octet(x);
  }

  function Row70(x: bv32): bv32 {
    if x == 0x70 then 0x5005713c else if x == 0x71 then 0x270241aa else
    if x == 0x72 then 0xbe0b1010 else if x == 0x73 then 0xc90c2086 else
    if x == 0x74 then 0x5768b525 else if x == 0x75 then 0x206f85b3 else
    if x == 0x76 then 0xb966d409 else 0xce61e49f
  }

  lemma Row70Correct(x: bv32)
    requires 0x70 <= x <= 0x77
    ensures Row70(x) == Octet(x)
  {
    assert x <= 0x73 ==> Row70(x) == Octet(x);
  }

  function Row78(x: bv32): bv32 {
    if x == 0x78 then 0x5edef90e else if x == 0x79 then 0x29d9c998 else
    if x == 0x7a then 0xb0d09822 else if x == 0x7b then 0xc7d7a8b4 else
    if x == 0x7c then 0x59b33d17 else if x == 0x7d then 0x2eb40d81 else
    if x == 0x7e then 0xb7bd5c3b else 0xc0ba6cad
  }

  lemma Row78Correct(x: bv32)
    requires 0x78 <= x <= 0x7f
    ensures Row78(x) == Octet(x)
  {
    assert x <= 0x7b ==> Row78(x) == Octet(x);
  }

  function Row80(x: bv32): bv32 {
    if x == 0x80 then 0xedb88320 else if x == 0x81 then 0x9abfb3b6 else
    if x == 0x82 then 0x03b6e20c else if x == 0x83 then 0x74b1d29a else
    if x == 0x84 then 0xead54739 else if x == 0x85 then 0x9dd277af else
    if x == 0x86 then 0x04db2615 else 0x73dc1683
  }

  lemma Row80Correct(x: bv32)
    requires 0x80 <= x <= 0x87
    ensures Row80(x) == Octet(x)
  {
    assert x <= 0x83 ==> Row80(x) == Octet(x);
  }

  function Row88(x: bv32): bv32 {
    if x == 0x88 then 0xe3630b12 else if x == 0x89 then 0x94643b84 else
    if x == 0x8a then 0x0d6d6a3e else if x == 0x8b then 0x7a6a5aa8 else
    if x == 0x8c then 0xe40ecf0b else if x == 0x8d then 0x9309ff9d else
    if x == 0x8e then 0x0a00ae27 else 0x7d079eb1
  }

  lemma Row88Correct(x: bv32)
    requires 0x88 <= x <= 0x8f
    ensures Row88(x) == Octet(x)
  {
    assert x <= 0x8b ==> Row88(x) == Octet(x);
  }

  function Row90(x: bv32): bv32 {
    if x == 0x90 then 0xf00f9344 else if x == 0x91 then 0x8708a3d2 else
    if x == 0x92 then 0x1e01f268 else if x == 0x93 then 0x6906c2fe else
    if x == 0x94 then 0xf762575d else if x == 0x95 then 0x806567cb else
    if x == 0x96 then 0x196c3671 else 0x6e6b06e7
  }

  lemma Row90Correct(x: bv32)
    requires 0x90 <= x <= 0x97
    ensures Row90(x) == Octet(x)
  {
    assert x <= 0x93 ==> Row90(x) == Octet(x);
  }

  function Row98(x: bv32): bv32 {
    if x == 0x98 then 0xfed41b76 else if x == 0x99 then 0x89d32be0 else
    if x == 0x9a then 0x10da7a5a else if x == 0x9b then 0x67dd4acc else
    if x == 0x9c then 0xf9b9df6f else if x == 0x9d then 0x8ebeeff9 else
    if x == 0x9e then 0x17b7be43 else 0x60b08ed5
  }

  lemma Row98Correct(x: bv32)
    requires 0x98 <= x <= 0x9f
    ensures Row98(x) == Octet(x)
  {
    assert x <= 0x9b ==> Row98(x) == Octet(x);
  }

  function RowA0(x: bv32): bv32 {
    if x == 0xa0 then 0xd6d6a3e8 else if x == 0xa1 then 0xa1d1937e else
    if x == 0xa2 then 0x38d8c2c4 else if x == 0xa3 then 0x4fdff252 else
    if x == 0xa4 then 0xd1bb67f1 else if x == 0xa5 then 0xa6bc5767 else
    if x == 0xa6 then 0x3fb506dd else 0x48b2364b
  }

  lemma RowA0Correct(x: bv32)
    requires 0xa0 <= x <= 0xa7
    ensures RowA0(x) == Octet(x)
  {
    assert x <= 0xa3 ==> RowA0(x) == Octet(x);
  }

  function RowA8(x: bv32): bv32 {
    if x == 0xa8 then 0xd80d2bda else if x == 0xa9 then 0xaf0a1b4c else
    if x == 0xaa then 0x36034af6 else if x == 0xab then 0x41047a60 else
    if x == 0xac then 0xdf60efc3 else if x == 0xad then 0xa867df55 else
    if x == 0xae then 0x316e8eef else 0x4669be79
  }

  lemma RowA8Correct(x: bv32)
    requires 0xa8 <= x <= 0xaf
    ensures RowA8(x) == Octet(x)
  {
    assert x <= 0xab ==> RowA8(x) == Octet(x);
  }

  function RowB0(x: bv32): bv32 {
    if x == 0xb0 then 0xcb61b38c else if x == 0xb1 then 0xbc66831a else
    if x == 0xb2 then 0x256fd2a0 else if x == 0xb3 then 0x5268e236 else
    if x == 0xb4 then 0xcc0c7795 else if x == 0xb5 then 0xbb0b4703 else
    if x == 0xb6 then 0x220216b9 else 0x5505262f
  }

  lemma RowB0Correct(x: bv32)
    requires 0xb0 <= x <= 0xb7
    ensures RowB0(x) == Octet(x)
  {
    assert x <= 0xb3 ==> RowB0(x) == Octet(x);
  }

  function RowB8(x: bv32): bv32 {
    if x == 0xb8 then 0xc5ba3bbe else if x == 0xb9 then 0xb2bd0b28 else
    if x == 0xba then 0x2bb45a92 else if x == 0xbb then 0x5cb36a04 else
    if x == 0xbc then 0xc2d7ffa7 else if x == 0xbd then 0xb5d0cf31 else
    if x == 0xbe then 0x2cd99e8b else 0x5bdeae1d
  }

  lemma RowB8Correct(x: bv32)
    requires 0xb8 <= x <= 0xbf
    ensures RowB8(x) == Octet(x)
  {
    assert x <= 0xbb ==> RowB8(x) == Octet(x);
  }

  function RowC0(x: bv32): bv32 {
    if x == 0xc0 then 0x9b64c2b0 else if x == 0xc1 then 0xec63f226 else
    if x == 0xc2 then 0x756aa39c else if x == 0xc3 then 0x026d930a else
    if x == 0xc4 then 0x9c0906a9 else if x == 0xc5 then 0xeb0e363f else
    if x == 0xc6 then 0x72076785 else 0x05005713
  }

  lemma RowC0Correct(x: bv32)
    requires 0xc0 <= x <= 0xc7
    ensures RowC0(x) == Octet(x)
  {
    assert x <= 0xc3 ==> RowC0(x) == Octet(x);
  }

  function RowC8(x: bv32): bv32 {
    if x == 0xc8 then 0x95bf4a82 else if x == 0xc9 then 0xe2b87a14 else
    if x == 0xca then 0x7bb12bae else if x == 0xcb then 0x0cb61b38 else
    if x == 0xcc then 0x92d28e9b else if x == 0xcd then 0xe5d5be0d else
    if x == 0xce then 0x7cdcefb7 else 0x0bdbdf21
  }

  lemma RowC8Correct(x: bv32)
    requires 0xc8 <= x <= 0xcf
    ensures RowC8(x) == Octet(x)
  {
    assert x <= 0xcb ==> RowC8(x) == Octet(x);
  }

  function RowD0(x: bv32): bv32 {
    if x == 0xd0 then 0x86d3d2d4 else if x == 0xd1 then 0xf1d4e242 else
    if x == 0xd2 then 0x68ddb3f8 else if x == 0xd3 then 0x1fda836e else
    if x == 0xd4 then 0x81be16cd else if x == 0xd5 then 0xf6b9265b else
    if x == 0xd6 then 0x6fb077e1 else 0x18b74777
  }

  lemma RowD0Correct(x: bv32)
    requires 0xd0 <= x <= 0xd7
    ensures RowD0(x) == Octet(x)
  {
    assert x <= 0xd3 ==> RowD0(x) == Octet(x);
  }

  function RowD8(x: bv32): bv32 {
    if x == 0xd8 then 0x88085ae6 else if x == 0xd9 then 0xff0f6a70 else
    if x == 0xda then 0x66063bca else if x == 0xdb then 0x11010b5c else
    if x == 0xdc then 0x8f659eff else if x == 0xdd then 0xf862ae69 else
    if x == 0xde then 0x616bffd3 else 0x166ccf45
  }

  lemma RowD8Correct(x: bv32)
    requires 0xd8 <= x <= 0xdf
    ensures RowD8(x) == Octet(x)
  {
    assert x <= 0xdb ==> RowD8(x) == Octet(x);
  }

  function RowE0(x: bv32): bv32 {
    if x == 0xe0 then 0xa00ae278 else if x == 0xe1 then 0xd70dd2ee else
    if x == 0xe2 then 0x4e048354 else if x == 0xe3 then 0x3903b3c2 else
    if x == 0xe4 then 0xa7672661 else if x == 0xe5 then 0xd06016f7 else
    if x == 0xe6 then 0x4969474d else 0x3e6e77db
  }

  lemma RowE0Correct(x: bv32)
    requires 0xe0 <= x <= 0xe7
    ensures RowE0(x) == Octet(x)
  {
    assert x <= 0xe3 ==> RowE0(x) == Octet(x);
  }

  function RowE8(x: bv32): bv32 {
    if x == 0xe8 then 0xaed16a4a else if x == 0xe9 then 0xd9d65adc else
    if x == 0xea then 0x40df0b66 else if x == 0xeb then 0x37d83bf0 else
    if x == 0xec then 0xa9bcae53 else if x == 0xed then 0xdebb9ec5 else
    if x == 0xee then 0x47b2cf7f else 0x30b5ffe9
  }

  lemma RowE8Correct(x: bv32)
    requires 0xe8 <= x <= 0xef
    ensures RowE8(x) == Octet(x)
  {
    assert x <= 0xeb ==> RowE8(x) == Octet(x);
  }

  function RowF0(x: bv32): bv32 {
    if x == 0xf0 then 0xbdbdf21c else if x == 0xf1 then 0xcabac28a else
    if x == 0xf2 then 0x53b39330 else if x == 0xf3 then 0x24b4a3a6 else
    if x == 0xf4 then 0xbad03605 else if x == 0xf5 then 0xcdd70693 else
    if x == 0xf6 then 0x54de5729 else 0x23d967bf
  }

  lemma RowF0Correct(x: bv32)
    requires 0xf0 <= x <= 0xf7
    ensures RowF0(x) == Octet(x)
  {
    assert x <= 0xf3 ==> RowF0(x) == Octet(x);
  }

  function RowF8(x: bv32): bv32 {
    if x == 0xf8 then 0xb3667a2e else if x == 0xf9 then 0xc4614ab8 else
    if x == 0xfa then 0x5d681b02 else if x == 0xfb then 0x2a6f2b94 else
    if x == 0xfc then 0xb40bbe37 else if x == 0xfd then 0xc30c8ea1 else
    if x == 0xfe then 0x5a05df1b else 0x2d02ef8d
  }

  lemma RowF8Correct(x: bv32)
    requires 0xf8 <= x <= 0xff
    ensures RowF8(x) == Octet(x)
  {
    assert x <= 0xfb ==> RowF8(x) == Octet(x);
  }

  /** crc32_table[x]. */
  function Table(x: bv32): bv32
    requires x <= 0xff
  {
    if x <= 0x07 then Row00(x) else
    if x <= 0x0f then Row08(x) else
    if x <= 0x17 then Row10(x) else
    if x <= 0x1f then Row18(x) else
    if x <= 0x27 then Row20(x) else
    if x <= 0x2f then Row28(x) else
    if x <= 0x37 then Row30(x) else
    if x <= 0x3f then Row38(x) else
    if x <= 0x47 then Row40(x) else
    if x <= 0x4f then Row48(x) else
    if x <= 0x57 then Row50(x) else
    if x <= 0x5f then Row58(x) else
    if x <= 0x67 then Row60(x) else
    if x <= 0x6f then Row68(x) else
    if x <= 0x77 then Row70(x) else
    if x <= 0x7f then Row78(x) else
    if x <= 0x87 then Row80(x) else
    if x <= 0x8f then Row88(x) else
    if x <= 0x97 then Row90(x) else
    if x <= 0x9f then Row98(x) else
    if x <= 0xa7 then RowA0(x) else
    if x <= 0xaf then RowA8(x) else
    if x <= 0xb7 then RowB0(x) else
    if x <= 0xbf then RowB8(x) else
    if x <= 0xc7 then RowC0(x) else
    if x <= 0xcf then RowC8(x) else
    if x <= 0xd7 then RowD0(x) else
    if x <= 0xdf then RowD8(x) else
    if x <= 0xe7 then RowE0(x) else
    if x <= 0xef then RowE8(x) else
    if x <= 0xf7 then RowF0(x) else
    RowF8(x)
  }

  /** Every table entry is eight bit steps of its index. */
  lemma TableCorrect(x: bv32)
    requires x <= 0xff
    ensures Table(x) == Octet(x)
  {
    hide Row00;
    hide Row08;
    hide Row10;
    hide Row18;
    hide Row20;
    hide Row28;
    hide Row30;
    hide Row38;
    hide Row40;
    hide Row48;
    hide Row50;
    hide Row58;
    hide Row60;
    hide Row68;
    hide Row70;
    hide Row78;
    hide Row80;
    hide Row88;
    hide Row90;
    hide Row98;
    hide RowA0;
    hide RowA8;
    hide RowB0;
    hide RowB8;
    hide RowC0;
    hide RowC8;
    hide RowD0;
    hide RowD8;
    hide RowE0;
    hide RowE8;
    hide RowF0;
    hide RowF8;
    hide Octet;
    if x <= 0x07 {
      Row00Correct(x);
    } else if x <= 0x0f {
      Row08Correct(x);
    } else if x <= 0x17 {
      Row10Correct(x);
    } else if x <= 0x1f {
      Row18Correct(x);
    } else if x <= 0x27 {
      Row20Correct(x);
    } else if x <= 0x2f {
      Row28Correct(x);
    } else if x <= 0x37 {
      Row30Correct(x);
    } else if x <= 0x3f {
      Row38Correct(x);
    } else if x <= 0x47 {
      Row40Correct(x);
    } else if x <= 0x4f {
      Row48Correct(x);
    } else if x <= 0x57 {
      Row50Correct(x);
    } else if x <= 0x5f {
      Row58Correct(x);
    } else if x <= 0x67 {
      Row60Correct(x);
    } else if x <= 0x6f {
      Row68Correct(x);
    } else if x <= 0x77 {
      Row70Correct(x);
    } else if x <= 0x7f {
      Row78Correct(x);
    } else if x <= 0x87 {
      Row80Correct(x);
    } else if x <= 0x8f {
      Row88Correct(x);
    } else if x <= 0x97 {
      Row90Correct(x);
    } else if x <= 0x9f {
      Row98Correct(x);
    } else if x <= 0xa7 {
      RowA0Correct(x);
    } else if x <= 0xaf {
      RowA8Correct(x);
    } else if x <= 0xb7 {
      RowB0Correct(x);
    } else if x <= 0xbf {
      RowB8Correct(x);
    } else if x <= 0xc7 {
      RowC0Correct(x);
    } else if x <= 0xcf {
      RowC8Correct(x);
    } else if x <= 0xd7 {
      RowD0Correct(x);
    } else if x <= 0xdf {
      RowD8Correct(x);
    } else if x <= 0xe7 {
      RowE0Correct(x);
    } else if x <= 0xef {
      RowE8Correct(x);
    } else if x <= 0xf7 {
      RowF0Correct(x);
    } else {
      RowF8Correct(x);
    }
  }
}
