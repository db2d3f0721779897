/**
 The CRC-32 of the SD card menu (software/sdfat_menu/sdfat_menu.c, crc32b, op_crc,
 file_operation and the write test). The reference is the bit-by-bit CRC of section 8
 of RFC 1952.
 */
module Crc32Table {

  // crc32_tab, sixteen entries to a row

  function Row0(n: bv8): bv32 {
    if n == 0 then 0x00000000 else if n == 1 then 0x77073096 else if n == 2 then 0xee0e612c else if n
        == 3 then 0x990951ba
    else if n == 4 then 0x076dc419 else if n == 5 then 0x706af48f else if n == 6 then 0xe963a535 else if n
        == 7 then 0x9e6495a3
    else if n == 8 then 0x0edb8832 else if n == 9 then 0x79dcb8a4 else if n == 10 then 0xe0d5e91e else if n
        == 11 then 0x97d2d988
    else if n == 12 then 0x09b64c2b else if n == 13 then 0x7eb17cbd else if n == 14 then 0xe7b82d07 else 0x90bf1d91
  }

  function Row1(n: bv8): bv32 {
    if n == 0 then 0x1db71064 else if n == 1 then 0x6ab020f2 else if n == 2 then 0xf3b97148 else if n
        == 3 then 0x84be41de
    else if n == 4 then 0x1adad47d else if n == 5 then 0x6ddde4eb else if n == 6 then 0xf4d4b551 else if n
        == 7 then 0x83d385c7
    else if n == 8 then 0x136c9856 else if n == 9 then 0x646ba8c0 else if n == 10 then 0xfd62f97a else if n
        == 11 then 0x8a65c9ec
    else if n == 12 then 0x14015c4f else if n == 13 then 0x63066cd9 else if n == 14 then 0xfa0f3d63 else 0x8d080df5
  }

  function Row2(n: bv8): bv32 {
    if n == 0 then 0x3b6e20c8 else if n == 1 then 0x4c69105e else if n == 2 then 0xd56041e4 else if n
        == 3 then 0xa2677172
    else if n == 4 then 0x3c03e4d1 else if n == 5 then 0x4b04d447 else if n == 6 then 0xd20d85fd else if n
        == 7 then 0xa50ab56b
    else if n == 8 then 0x35b5a8fa else if n == 9 then 0x42b2986c else if n == 10 then 0xdbbbc9d6 else if n
        == 11 then 0xacbcf940
    else if n == 12 then 0x32d86ce3 else if n == 13 then 0x45df5c75 else if n == 14 then 0xdcd60dcf else 0xabd13d59
  }

  function Row3(n: bv8): bv32 {
    if n == 0 then 0x26d930ac else if n == 1 then 0x51de003a else if n == 2 then 0xc8d75180 else if n
        == 3 then 0xbfd06116
    else if n == 4 then 0x21b4f4b5 else if n == 5 then 0x56b3c423 else if n == 6 then 0xcfba9599 else if n
        == 7 then 0xb8bda50f
    else if n == 8 then 0x2802b89e else if n == 9 then 0x5f058808 else if n == 10 then 0xc60cd9b2 else if n
        == 11 then 0xb10be924
    else if n == 12 then 0x2f6f7c87 else if n == 13 then 0x58684c11 else if n == 14 then 0xc1611dab else 0xb6662d3d
  }

  function Row4(n: bv8): bv32 {
    if n == 0 then 0x76dc4190 else if n == 1 then 0x01db7106 else if n == 2 then 0x98d220bc else if n
        == 3 then 0xefd5102a
    else if n == 4 then 0x71b18589 else if n == 5 then 0x06b6b51f else if n == 6 then 0x9fbfe4a5 else if n
        == 7 then 0xe8b8d433
    else if n == 8 then 0x7807c9a2 else if n == 9 then 0x0f00f934 else if n == 10 then 0x9609a88e else if n
        == 11 then 0xe10e9818
    else if n == 12 then 0x7f6a0dbb else if n == 13 then 0x086d3d2d else if n == 14 then 0x91646c97 else 0xe6635c01
  }

  function Row5(n: bv8): bv32 {
    if n == 0 then 0x6b6b51f4 else if n == 1 then 0x1c6c6162 else if n == 2 then 0x856530d8 else if n
        == 3 then 0xf262004e
    else if n == 4 then 0x6c0695ed else if n == 5 then 0x1b01a57b else if n == 6 then 0x8208f4c1 else if n
        == 7 then 0xf50fc457
    else if n == 8 then 0x65b0d9c6 else if n == 9 then 0x12b7e950 else if n == 10 then 0x8bbeb8ea else if n
        == 11 then 0xfcb9887c
    else if n == 12 then 0x62dd1ddf else if n == 13 then 0x15da2d49 else if n == 14 then 0x8cd37cf3 else 0xfbd44c65
  }

  function Row6(n: bv8): bv32 {
    if n == 0 then 0x4db26158 else if n == 1 then 0x3ab551ce else if n == 2 then 0xa3bc0074 else if n
        == 3 then 0xd4bb30e2
    else if n == 4 then 0x4adfa541 else if n == 5 then 0x3dd895d7 else if n == 6 then 0xa4d1c46d else if n
        == 7 then 0xd3d6f4fb
    else if n == 8 then 0x4369e96a else if n == 9 then 0x346ed9fc else if n == 10 then 0xad678846 else if n
        == 11 then 0xda60b8d0
    else if n == 12 then 0x44042d73 else if n == 13 then 0x33031de5 else if n == 14 then 0xaa0a4c5f else 0xdd0d7cc9
  }

  function Row7(n: bv8): bv32 {
    if n == 0 then 0x5005713c else if n == 1 then 0x270241aa else if n == 2 then 0xbe0b1010 else if n
        == 3 then 0xc90c2086
    else if n == 4 then 0x5768b525 else if n == 5 then 0x206f85b3 else if n == 6 then 0xb966d409 else if n
        == 7 then 0xce61e49f
    else if n == 8 then 0x5edef90e else if n == 9 then 0x29d9c998 else if n == 10 then 0xb0d09822 else if n
        == 11 then 0xc7d7a8b4
    else if n == 12 then 0x59b33d17 else if n == 13 then 0x2eb40d81 else if n == 14 then 0xb7bd5c3b else 0xc0ba6cad
  }

  function Row8(n: bv8): bv32 {
    if n == 0 then 0xedb88320 else if n == 1 then 0x9abfb3b6 else if n == 2 then 0x03b6e20c else if n
        == 3 then 0x74b1d29a
    else if n == 4 then 0xead54739 else if n == 5 then 0x9dd277af else if n == 6 then 0x04db2615 else if n
        == 7 then 0x73dc1683
    else if n == 8 then 0xe3630b12 else if n == 9 then 0x94643b84 else if n == 10 then 0x0d6d6a3e else if n
        == 11 then 0x7a6a5aa8
    else if n == 12 then 0xe40ecf0b else if n == 13 then 0x9309ff9d else if n == 14 then 0x0a00ae27 else 0x7d079eb1
  }

  function Row9(n: bv8): bv32 {
    if n == 0 then 0xf00f9344 else if n == 1 then 0x8708a3d2 else if n == 2 then 0x1e01f268 else if n
        == 3 then 0x6906c2fe
    else if n == 4 then 0xf762575d else if n == 5 then 0x806567cb else if n == 6 then 0x196c3671 else if n
        == 7 then 0x6e6b06e7
    else if n == 8 then 0xfed41b76 else if n == 9 then 0x89d32be0 else if n == 10 then 0x10da7a5a else if n
        == 11 then 0x67dd4acc
    else if n == 12 then 0xf9b9df6f else if n == 13 then 0x8ebeeff9 else if n == 14 then 0x17b7be43 else 0x60b08ed5
  }

  function Row10(n: bv8): bv32 {
    if n == 0 then 0xd6d6a3e8 else if n == 1 then 0xa1d1937e else if n == 2 then 0x38d8c2c4 else if n
        == 3 then 0x4fdff252
    else if n == 4 then 0xd1bb67f1 else if n == 5 then 0xa6bc5767 else if n == 6 then 0x3fb506dd else if n
        == 7 then 0x48b2364b
    else if n == 8 then 0xd80d2bda else if n == 9 then 0xaf0a1b4c else if n == 10 then 0x36034af6 else if n
        == 11 then 0x41047a60
    else if n == 12 then 0xdf60efc3 else if n == 13 then 0xa867df55 else if n == 14 then 0x316e8eef else 0x4669be79
  }

  function Row11(n: bv8): bv32 {
    if n == 0 then 0xcb61b38c else if n == 1 then 0xbc66831a else if n == 2 then 0x256fd2a0 else if n
        == 3 then 0x5268e236
    else if n == 4 then 0xcc0c7795 else if n == 5 then 0xbb0b4703 else if n == 6 then 0x220216b9 else if n
        == 7 then 0x5505262f
    else if n == 8 then 0xc5ba3bbe else if n == 9 then 0xb2bd0b28 else if n == 10 then 0x2bb45a92 else if n
        == 11 then 0x5cb36a04
    else if n == 12 then 0xc2d7ffa7 else if n == 13 then 0xb5d0cf31 else if n == 14 then 0x2cd99e8b else 0x5bdeae1d
  }

  function Row12(n: bv8): bv32 {
    if n == 0 then 0x9b64c2b0 else if n == 1 then 0xec63f226 else if n == 2 then 0x756aa39c else if n
        == 3 then 0x026d930a
    else if n == 4 then 0x9c0906a9 else if n == 5 then 0xeb0e363f else if n == 6 then 0x72076785 else if n
        == 7 then 0x05005713
    else if n == 8 then 0x95bf4a82 else if n == 9 then 0xe2b87a14 else if n == 10 then 0x7bb12bae else if n
        == 11 then 0x0cb61b38
    else if n == 12 then 0x92d28e9b else if n == 13 then 0xe5d5be0d else if n == 14 then 0x7cdcefb7 else 0x0bdbdf21
  }

  function Row13(n: bv8): bv32 {
    if n == 0 then 0x86d3d2d4 else if n == 1 then 0xf1d4e242 else if n == 2 then 0x68ddb3f8 else if n
        == 3 then 0x1fda836e
    else if n == 4 then 0x81be16cd else if n == 5 then 0xf6b9265b else if n == 6 then 0x6fb077e1 else if n
        == 7 then 0x18b74777
    else if n == 8 then 0x88085ae6 else if n == 9 then 0xff0f6a70 else if n == 10 then 0x66063bca else if n
        == 11 then 0x11010b5c
    else if n == 12 then 0x8f659eff else if n == 13 then 0xf862ae69 else if n == 14 then 0x616bffd3 else 0x166ccf45
  }

  function Row14(n: bv8): bv32 {
    if n == 0 then 0xa00ae278 else if n == 1 then 0xd70dd2ee else if n == 2 then 0x4e048354 else if n
        == 3 then 0x3903b3c2
    else if n == 4 then 0xa7672661 else if n == 5 then 0xd06016f7 else if n == 6 then 0x4969474d else if n
        == 7 then 0x3e6e77db
    else if n == 8 then 0xaed16a4a else if n == 9 then 0xd9d65adc else if n == 10 then 0x40df0b66 else if n
        == 11 then 0x37d83bf0
    else if n == 12 then 0xa9bcae53 else if n == 13 then 0xdebb9ec5 else if n == 14 then 0x47b2cf7f else 0x30b5ffe9
  }

  function Row15(n: bv8): bv32 {
    if n == 0 then 0xbdbdf21c else if n == 1 then 0xcabac28a else if n == 2 then 0x53b39330 else if n
        == 3 then 0x24b4a3a6
    else if n == 4 then 0xbad03605 else if n == 5 then 0xcdd70693 else if n == 6 then 0x54de5729 else if n
        == 7 then 0x23d967bf
    else if n == 8 then 0xb3667a2e else if n == 9 then 0xc4614ab8 else if n == 10 then 0x5d681b02 else if n
        == 11 then 0x2a6f2b94
    else if n == 12 then 0xb40bbe37 else if n == 13 then 0xc30c8ea1 else if n == 14 then 0x5a05df1b else 0x2d02ef8d
  }

  /** crc32_tab[i] */
  function Table(i: bv8): bv32 {
    if i >> 4 == 0 then Row0(i & 0xf)
    else if i >> 4 == 1 then Row1(i & 0xf)
    else if i >> 4 == 2 then Row2(i & 0xf)
    else if i >> 4 == 3 then Row3(i & 0xf)
    else if i >> 4 == 4 then Row4(i & 0xf)
    else if i >> 4 == 5 then Row5(i & 0xf)
    else if i >> 4 == 6 then Row6(i & 0xf)
    else if i >> 4 == 7 then Row7(i & 0xf)
    else if i >> 4 == 8 then Row8(i & 0xf)
    else if i >> 4 == 9 then Row9(i & 0xf)
    else if i >> 4 == 10 then Row10(i & 0xf)
    else if i >> 4 == 11 then Row11(i & 0xf)
    else if i >> 4 == 12 then Row12(i & 0xf)
    else if i >> 4 == 13 then Row13(i & 0xf)
    else if i >> 4 == 14 then Row14(i & 0xf)
    else Row15(i & 0xf)
  }

  // ---------------------------------------------------------------------------
  // The bit-by-bit CRC
  // ---------------------------------------------------------------------------

  const POLYNOMIAL: bv32 := 0xedb88320

  /** One bit: shift right, and subtract the reflected polynomial if a one fell out. */
  function BitStep(c: bv32): bv32 { if Odd(c) then OddStep(c) else EvenStep(c) }

  function OddStep(c: bv32): bv32 { (c >> 1) ^ POLYNOMIAL }

  function EvenStep(c: bv32): bv32 { c >> 1 }

  function Bits4(c: bv32): bv32 { BitStep(BitStep(BitStep(BitStep(c)))) }

  function Bits8(c: bv32): bv32 { Bits4(Bits4(c)) }

  lemma Row0IsBits(n: bv8)
    requires n < 16
    ensures Row0(n) == Bits8((n as bv32) | 0x0)
  {
    if n < 4 { } else if n < 8 { } else if n < 12 { } else { }
  }

  lemma Row1IsBits(n: bv8)
    requires n < 16
    ensures Row1(n) == Bits8((n as bv32) | 0x10)
  {
    if n < 4 { } else if n < 8 { } else if n < 12 { } else { }
  }

  lemma Row2IsBits(n: bv8)
    requires n < 16
    ensures Row2(n) == Bits8((n as bv32) | 0x20)
  {
    if n < 4 { } else if n < 8 { } else if n < 12 { } else { }
  }

  lemma Row3IsBits(n: bv8)
    requires n < 16
    ensures Row3(n) == Bits8((n as bv32) | 0x30)
  {
    if n < 4 { } else if n < 8 { } else if n < 12 { } else { }
  }

  lemma Row4IsBits(n: bv8)
    requires n < 16
    ensures Row4(n) == Bits8((n as bv32) | 0x40)
  {
    if n < 4 { } else if n < 8 { } else if n < 12 { } else { }
  }

  lemma Row5IsBits(n: bv8)
    requires n < 16
    ensures Row5(n) == Bits8((n as bv32) | 0x50)
  {
    if n < 4 { } else if n < 8 { } else if n < 12 { } else { }
  }

  lemma Row6IsBits(n: bv8)
    requires n < 16
    ensures Row6(n) == Bits8((n as bv32) | 0x60)
  {
    if n < 4 { } else if n < 8 { } else if n < 12 { } else { }
  }

  lemma Row7IsBits(n: bv8)
    requires n < 16
    ensures Row7(n) == Bits8((n as bv32) | 0x70)
  {
    if n < 4 { } else if n < 8 { } else if n < 12 { } else { }
  }

  lemma Row8IsBits(n: bv8)
    requires n < 16
    ensures Row8(n) == Bits8((n as bv32) | 0x80)
  {
    if n < 4 { } else if n < 8 { } else if n < 12 { } else { }
  }

  lemma Row9IsBits(n: bv8)
    requires n < 16
    ensures Row9(n) == Bits8((n as bv32) | 0x90)
  {
    if n < 4 { } else if n < 8 { } else if n < 12 { } else { }
  }

  lemma Row10IsBits(n: bv8)
    requires n < 16
    ensures Row10(n) == Bits8((n as bv32) | 0xa0)
  {
    if n < 4 { } else if n < 8 { } else if n < 12 { } else { }
  }

  lemma Row11IsBits(n: bv8)
    requires n < 16
    ensures Row11(n) == Bits8((n as bv32) | 0xb0)
  {
    if n < 4 { } else if n < 8 { } else if n < 12 { } else { }
  }

  lemma Row12IsBits(n: bv8)
    requires n < 16
    ensures Row12(n) == Bits8((n as bv32) | 0xc0)
  {
    if n < 4 { } else if n < 8 { } else if n < 12 { } else { }
  }

  lemma Row13IsBits(n: bv8)
    requires n < 16
    ensures Row13(n) == Bits8((n as bv32) | 0xd0)
  {
    if n < 4 { } else if n < 8 { } else if n < 12 { } else { }
  }

  lemma Row14IsBits(n: bv8)
    requires n < 16
    ensures Row14(n) == Bits8((n as bv32) | 0xe0)
  {
    if n < 4 { } else if n < 8 { } else if n < 12 { } else { }
  }

  lemma Row15IsBits(n: bv8)
    requires n < 16
    ensures Row15(n) == Bits8((n as bv32) | 0xf0)
  {
    if n < 4 { } else if n < 8 { } else if n < 12 { } else { }
  }

  lemma Nibbles(i: bv8)
    ensures (i >> 4) < 16 && (i & 0xf) < 16 && (((i & 0xf) as bv32) | (((i >> 4) as bv32) << 4)) == i as bv32
  {
  }

  /** The table holds what eight bit steps make of every byte. */
  lemma TableIsBits(i: bv8)
    ensures Table(i) == Bits8(i as bv32)
  {
    hide Bits8, Row0, Row1, Row2, Row3, Row4, Row5, Row6, Row7, Row8, Row9, Row10, Row11, Row12, Row13, Row14, Row15;
    var h, n := i >> 4, i & 0xf;
    Nibbles(i);
    if h == 0 {
      Row0IsBits(n);
    } else if h == 1 {
      Row1IsBits(n);
    } else if h == 2 {
      Row2IsBits(n);
    } else if h == 3 {
      Row3IsBits(n);
    } else if h == 4 {
      Row4IsBits(n);
    } else if h == 5 {
      Row5IsBits(n);
    } else if h == 6 {
      Row6IsBits(n);
    } else if h == 7 {
      Row7IsBits(n);
    } else if h == 8 {
      Row8IsBits(n);
    } else if h == 9 {
      Row9IsBits(n);
    } else if h == 10 {
      Row10IsBits(n);
    } else if h == 11 {
      Row11IsBits(n);
    } else if h == 12 {
      Row12IsBits(n);
    } else if h == 13 {
      Row13IsBits(n);
    } else if h == 14 {
      Row14IsBits(n);
    } else {
      Row15IsBits(n);
    }
  }

  // The register's algebra, named so that the proofs below can treat it as given.

  function Xor(a: bv32, b: bv32): bv32 { a ^ b }

  function Not(a: bv32): bv32 { !a }

  function Down1(a: bv32): bv32 { a >> 1 }

  function Down8(a: bv32): bv32 { a >> 8 }

  function Low8(a: bv32): bv32 { a & 0xff }

  predicate Even(a: bv32) { a & 1 == 0 }

  lemma XorCancels(a: bv32, b: bv32, x: bv32)
    requires Xor(a, x) == Xor(b, x)
    ensures a == b
  {
  }

  lemma XorCommutes(a: bv32, b: bv32)
    ensures Xor(a, b) == Xor(b, a)
  {
  }

  lemma NotNot(a: bv32)
    ensures Not(Not(a)) == a
  {
  }

  predicate Odd(a: bv32) { a & 1 == 1 }

  lemma SameParity(c: bv32, d: bv32)
    requires Even(d)
    ensures Odd(Xor(c, d)) == Odd(c)
  {
  }

  lemma OddStepAbove(c: bv32, d: bv32)
    ensures OddStep(c ^ d) == OddStep(c) ^ (d >> 1)
  {
  }

  lemma EvenStepAbove(c: bv32, d: bv32)
    ensures EvenStep(c ^ d) == EvenStep(c) ^ (d >> 1)
  {
  }

  lemma OddStepXor(c: bv32, d: bv32)
    ensures OddStep(Xor(c, d)) == Xor(OddStep(c), Down1(d))
  {
    hide OddStep;
    OddStepAbove(c, d);
  }

  lemma EvenStepXor(c: bv32, d: bv32)
    ensures EvenStep(Xor(c, d)) == Xor(EvenStep(c), Down1(d))
  {
    hide EvenStep;
    EvenStepAbove(c, d);
  }

  /** A part of the register that lies above the bit being consumed is only shifted down. */
  lemma BitStepAbove(c: bv32, d: bv32)
    requires Even(d)
    ensures BitStep(Xor(c, d)) == Xor(BitStep(c), Down1(d))
  {
    hide OddStep, EvenStep, Odd, Even, Xor, Down1;
    SameParity(c, d);
    OddStepXor(c, d);
    EvenStepXor(c, d);
  }

  /** d >> k */
  function Shifted(d: bv32, k: nat): bv32 { if k == 0 then d else Down1(Shifted(d, k - 1)) }

  function Steps(c: bv32, k: nat): bv32 { if k == 0 then c else BitStep(Steps(c, k - 1)) }

  lemma {:induction false} StepsAbove(c: bv32, d: bv32, k: nat)
    requires forall i | 0 <= i < k :: Even(Shifted(d, i))
    ensures Steps(Xor(c, d), k) == Xor(Steps(c, k), Shifted(d, k))
  {
    hide BitStep, Xor, Down1, Even;
    if k > 0 {
      StepsAbove(c, d, k - 1);
      BitStepAbove(Steps(c, k - 1), Shifted(d, k - 1));
    }
  }

  lemma Bits8Steps(c: bv32)
    ensures Bits8(c) == Steps(c, 8)
  {
    hide BitStep;
    var c1 := BitStep(c);
    var c2 := BitStep(c1);
    var c3 := BitStep(c2);
    var c4 := BitStep(c3);
    var c5 := BitStep(c4);
    var c6 := BitStep(c5);
    assert Steps(c, 1) == c1;
    assert Steps(c, 2) == c2;
    assert Steps(c, 3) == c3;
    assert Steps(c, 4) == c4;
    assert Steps(c, 5) == c5;
    assert Steps(c, 6) == c6;
  }

  lemma ShiftBytes(d: bv32)
    requires Low8(d) == 0
    ensures forall i | 0 <= i < 8 :: Even(Shifted(d, i))
    ensures Shifted(d, 8) == Down8(d)
  {
    assert Shifted(d, 1) == d >> 1;
    assert Shifted(d, 2) == d >> 2;
    assert Shifted(d, 3) == d >> 3;
    assert Shifted(d, 4) == d >> 4;
    assert Shifted(d, 5) == d >> 5;
    assert Shifted(d, 6) == d >> 6;
    assert Shifted(d, 7) == d >> 7;
  }

  lemma Bits8Above(c: bv32, d: bv32)
    requires Low8(d) == 0
    ensures Bits8(Xor(c, d)) == Xor(Bits8(c), Down8(d))
  {
    hide Bits8, Xor, Down8, Low8, Steps, Shifted, Even;
    ShiftBytes(d);
    StepsAbove(c, d, 8);
    Bits8Steps(c);
    Bits8Steps(Xor(c, d));
  }

  function High24(c: bv32): bv32 { c & 0xffff_ff00 }

  lemma SplitByte(c: bv32)
    ensures Xor(Low8(c), High24(c)) == c && Low8(High24(c)) == 0 && Down8(High24(c)) == Down8(c)
  {
  }

  /** Only the low byte meets the polynomial. */
  lemma LowByteDecides(c: bv32)
    ensures Bits8(c) == Xor(Bits8(Low8(c)), Down8(c))
  {
    hide Bits8, Xor, Down8, Low8, High24;
    SplitByte(c);
    Bits8Above(Low8(c), High24(c));
  }

  /** No two registers step to the same one: the polynomial's top bit tells which way a step went. */
  lemma BitStepInjective(a: bv32, b: bv32)
    requires BitStep(a) == BitStep(b)
    ensures a == b
  {
  }
}
