/**
 crc32b and its use (software/sdfat_menu/sdfat_menu.c): checksums of files read and
 written in chunks.
 */
module Crc32 {
  import opened Crc32Table

  type Bytes = seq<bv8>

  function Widen(b: bv8): bv32 { b as bv32 }

  /** The index of crc32_tab: (crc ^ *p++) & 0xFF */
  function Index(crc: bv32, b: bv8): bv8 { Low8(Xor(crc, Widen(b))) as bv8 }

  /** One pass of the loop in crc32b */
  function TableStep(crc: bv32, b: bv8): bv32 { Xor(Table(Index(crc, b)), Down8(crc)) }

  /** One byte of the bit-by-bit CRC */
  function ByteStep(crc: bv32, b: bv8): bv32 { Bits8(Xor(crc, Widen(b))) }

  function Update(crc: bv32, data: Bytes): bv32 {
    if data == [] then crc else ByteStep(Update(crc, data[..|data| - 1]), data[|data| - 1])
  }

  /** The CRC-32 of RFC 1952, continued from `crc`. */
  function Crc(crc: bv32, data: Bytes): bv32 { Not(Update(Not(crc), data)) }

  lemma IndexBits(crc: bv32, b: bv8)
    ensures Widen(Index(crc, b)) == Low8(Xor(crc, Widen(b))) && Down8(Xor(crc, Widen(b))) == Down8(crc)
  {
  }

  lemma TableIsWideBits(i: bv8)
    ensures Table(i) == Bits8(Widen(i))
  {
    hide Table, Bits8;
    TableIsBits(i);
  }

  /** The table step is eight steps of the bit-by-bit CRC. */
  lemma TableStepIsByteStep(crc: bv32, b: bv8)
    ensures TableStep(crc, b) == ByteStep(crc, b)
  {
    hide Table, Bits8, Index, Xor, Low8, Down8, Widen;
    IndexBits(crc, b);
    TableIsWideBits(Index(crc, b));
    LowByteDecides(Xor(crc, Widen(b)));
  }

  /** crc32b */
  method Crc32b(crc: bv32, buf: Bytes) returns (r: bv32)
    ensures r == Crc(crc, buf)
  {
    hide TableStep, ByteStep, Not;
    var c := Not(crc);
    for i := 0 to |buf|
      invariant c == Update(Not(crc), buf[..i])
    {
      TableStepIsByteStep(c, buf[i]);
      assert buf[..i + 1][..i] == buf[..i];
      c := TableStep(c, buf[i]);
    }
    assert buf[..|buf|] == buf;
    r := Not(c);
  }

  /** The check value of this CRC: that of the ASCII digits from 1 to 9. */
  lemma CheckValue()
    ensures Crc(0, [0x31, 0x32, 0x33, 0x34, 0x35, 0x36, 0x37, 0x38, 0x39]) == 0xcbf4_3926
  {
    var d: Bytes := [0x31, 0x32, 0x33, 0x34, 0x35, 0x36, 0x37, 0x38, 0x39];
    CheckStep1();
    CheckStep2();
    CheckStep3();
    CheckStep4();
    CheckStep5();
    CheckStep6();
    CheckStep7();
    CheckStep8();
    CheckStep9();
    hide ByteStep;
    assert d[..0] == [] && Update(Not(0), d[..0]) == 0xffff_ffff;
    assert d[..1][..0] == d[..0] && Update(Not(0), d[..1]) == 0x7c231048;
    assert d[..2][..1] == d[..1] && Update(Not(0), d[..2]) == 0xb0acbb32;
    assert d[..3][..2] == d[..2] && Update(Not(0), d[..3]) == 0x77b79c2d;
    assert d[..4][..3] == d[..3] && Update(Not(0), d[..4]) == 0x641c1f5c;
    assert d[..5][..4] == d[..4] && Update(Not(0), d[..5]) == 0x340ac5e3;
    assert d[..6][..5] == d[..5] && Update(Not(0), d[..6]) == 0xf68d2c9e;
    assert d[..7][..6] == d[..6] && Update(Not(0), d[..7]) == 0xaffc9660;
    assert d[..8][..7] == d[..7] && Update(Not(0), d[..8]) == 0x651f2550;
    assert d[..9][..8] == d[..8] && Update(Not(0), d[..9]) == 0x340bc6d9;
    assert d[..9] == d;
  }

  lemma CheckStep1()
    ensures ByteStep(0xffffffff, 0x31) == 0x7c231048
  {
  }

  lemma CheckStep2()
    ensures ByteStep(0x7c231048, 0x32) == 0xb0acbb32
  {
  }

  lemma CheckStep3()
    ensures ByteStep(0xb0acbb32, 0x33) == 0x77b79c2d
  {
  }

  lemma CheckStep4()
    ensures ByteStep(0x77b79c2d, 0x34) == 0x641c1f5c
  {
  }

  lemma CheckStep5()
    ensures ByteStep(0x641c1f5c, 0x35) == 0x340ac5e3
  {
  }

  lemma CheckStep6()
    ensures ByteStep(0x340ac5e3, 0x36) == 0xf68d2c9e
  {
  }

  lemma CheckStep7()
    ensures ByteStep(0xf68d2c9e, 0x37) == 0xaffc9660
  {
  }

  lemma CheckStep8()
    ensures ByteStep(0xaffc9660, 0x38) == 0x651f2550
  {
  }

  lemma CheckStep9()
    ensures ByteStep(0x651f2550, 0x39) == 0x340bc6d9
  {
  }

  // ---------------------------------------------------------------------------
  // Chunks
  // ---------------------------------------------------------------------------

  lemma {:induction false} UpdateAppend(crc: bv32, a: Bytes, b: Bytes)
    ensures Update(crc, a + b) == Update(Update(crc, a), b)
  {
    hide ByteStep;
    if b == [] {
      assert a + b == a;
    } else {
      UpdateAppend(crc, a, b[..|b| - 1]);
      assert (a + b)[..|a + b| - 1] == a + b[..|b| - 1];
    }
  }

  /** The checksum does not depend on where a file is cut. */
  lemma CrcAppend(crc: bv32, a: Bytes, b: Bytes)
    ensures Crc(crc, a + b) == Crc(Crc(crc, a), b)
  {
    hide Not, Update;
    UpdateAppend(Not(crc), a, b);
    NotNot(Update(Not(crc), a));
  }

  function Flatten(chunks: seq<Bytes>): Bytes {
    if chunks == [] then [] else Flatten(chunks[..|chunks| - 1]) + chunks[|chunks| - 1]
  }

  // ---------------------------------------------------------------------------
  // Error detection
  // ---------------------------------------------------------------------------

  // The bits of a file, each byte's lowest first: the order in which the reflected CRC takes them.

  type Bits = seq<bool>

  predicate Low(b: bv8) { b & 1 != 0 }

  function Half(b: bv8): bv8 { b >> 1 }

  function LowBits(b: bv8, n: nat): (r: Bits)
    ensures |r| == n
  {
    if n == 0 then [] else [Low(b)] + LowBits(Half(b), n - 1)
  }

  function ByteBits(b: bv8): Bits { LowBits(b, 8) }

  function BitsOf(data: Bytes): (r: Bits)
    ensures |r| == 8 * |data|
  {
    if data == [] then [] else BitsOf(data[..|data| - 1]) + ByteBits(data[|data| - 1])
  }

  function Bit(b: bool): bv32 { if b then 1 else 0 }

  /** The CRC one bit at a time */
  function UpdateBits(crc: bv32, w: Bits): bv32
    decreases w
  {
    if w == [] then crc else UpdateBits(BitStep(Xor(crc, Bit(w[0]))), w[1..])
  }

  lemma {:induction false} UpdateBitsAppend(crc: bv32, a: Bits, b: Bits)
    ensures UpdateBits(crc, a + b) == UpdateBits(UpdateBits(crc, a), b)
    decreases a
  {
    hide BitStep, Xor, Bit;
    if a == [] {
      assert a + b == b;
    } else {
      assert (a + b)[1..] == a[1..] + b;
      UpdateBitsAppend(BitStep(Xor(crc, Bit(a[0]))), a[1..], b);
    }
  }

  /** Different registers stay different whatever follows. */
  lemma {:induction false} UpdateBitsInjective(a: bv32, b: bv32, w: Bits)
    requires UpdateBits(a, w) == UpdateBits(b, w)
    ensures a == b
    decreases w
  {
    hide BitStep, Xor, Bit;
    if w != [] {
      var x, y := Xor(a, Bit(w[0])), Xor(b, Bit(w[0]));
      UpdateBitsInjective(BitStep(x), BitStep(y), w[1..]);
      BitStepInjective(x, y);
      XorCancels(a, b, Bit(w[0]));
    }
  }

  // Up to 32 bits pass through the register as one word.

  function Up1(v: bv32): bv32 { v << 1 }

  predicate TopClear(v: bv32) { v & 0x8000_0000 == 0 }

  /** The bits as they lie in a register, the first lowest */
  function Word(w: Bits): bv32 { if w == [] then 0 else Xor(Bit(w[0]), Up1(Word(w[1..]))) }

  lemma HalfOfWord(b: bool, v: bv32)
    requires TopClear(v)
    ensures Down1(Xor(Bit(b), Up1(v))) == v && (Odd(Xor(Bit(b), Up1(v))) <==> b)
  {
  }

  lemma DownUp(v: bv32)
    requires TopClear(v)
    ensures Down1(Up1(v)) == v && Even(Up1(v))
  {
  }

  lemma {:induction false} ShiftedFirst(v: bv32, k: nat)
    ensures Shifted(v, k + 1) == Shifted(Down1(v), k)
  {
    hide Down1;
    if k > 0 { ShiftedFirst(v, k - 1); }
  }

  lemma DownZero()
    ensures Down1(0) == 0
  {
  }

  lemma {:induction false} ShiftedOn(v: bv32, k: nat, n: nat)
    requires k <= n && Shifted(v, k) == 0
    ensures Shifted(v, n) == 0
  {
    hide Down1;
    DownZero();
    if k < n { ShiftedOn(v, k, n - 1); }
  }

  lemma ShiftedToTop(v: bv32)
    ensures Shifted(v, 31) == v >> 31
  {
    assert Shifted(v, 1) == v >> 1;
    assert Shifted(v, 2) == v >> 2;
    assert Shifted(v, 3) == v >> 3;
    assert Shifted(v, 4) == v >> 4;
    assert Shifted(v, 5) == v >> 5;
    assert Shifted(v, 6) == v >> 6;
    assert Shifted(v, 7) == v >> 7;
    assert Shifted(v, 8) == v >> 8;
    assert Shifted(v, 9) == v >> 9;
    assert Shifted(v, 10) == v >> 10;
    assert Shifted(v, 11) == v >> 11;
    assert Shifted(v, 12) == v >> 12;
    assert Shifted(v, 13) == v >> 13;
    assert Shifted(v, 14) == v >> 14;
    assert Shifted(v, 15) == v >> 15;
    assert Shifted(v, 16) == v >> 16;
    assert Shifted(v, 17) == v >> 17;
    assert Shifted(v, 18) == v >> 18;
    assert Shifted(v, 19) == v >> 19;
    assert Shifted(v, 20) == v >> 20;
    assert Shifted(v, 21) == v >> 21;
    assert Shifted(v, 22) == v >> 22;
    assert Shifted(v, 23) == v >> 23;
    assert Shifted(v, 24) == v >> 24;
    assert Shifted(v, 25) == v >> 25;
    assert Shifted(v, 26) == v >> 26;
    assert Shifted(v, 27) == v >> 27;
    assert Shifted(v, 28) == v >> 28;
    assert Shifted(v, 29) == v >> 29;
    assert Shifted(v, 30) == v >> 30;
  }

  lemma TopIsShifted(v: bv32)
    requires v >> 31 == 0
    ensures TopClear(v)
  {
  }

  lemma FitsBelowTop(v: bv32, n: nat)
    requires n <= 31 && Shifted(v, n) == 0
    ensures TopClear(v)
  {
    hide Shifted, TopClear;
    ShiftedOn(v, n, 31);
    ShiftedToTop(v);
    TopIsShifted(v);
  }

  lemma {:induction false} WordFits(w: Bits)
    requires |w| <= 32
    ensures Shifted(Word(w), |w|) == 0
  {
    if w != [] {
      hide Xor, Up1, Down1, Bit, Shifted, TopClear, Odd;
      WordFits(w[1..]);
      FitsBelowTop(Word(w[1..]), |w| - 1);
      HalfOfWord(w[0], Word(w[1..]));
      ShiftedFirst(Word(w), |w| - 1);
    }
  }

  lemma WordTop(w: Bits)
    requires |w| <= 31
    ensures TopClear(Word(w))
  {
    hide TopClear, Shifted, Word;
    WordFits(w);
    FitsBelowTop(Word(w), |w|);
  }

  lemma {:induction false} WordInjective(w1: Bits, w2: Bits)
    requires |w1| == |w2| <= 32 && Word(w1) == Word(w2)
    ensures w1 == w2
  {
    if w1 != [] {
      hide Xor, Up1, Down1, Bit, TopClear, Odd;
      WordTop(w1[1..]);
      WordTop(w2[1..]);
      HalfOfWord(w1[0], Word(w1[1..]));
      HalfOfWord(w2[0], Word(w2[1..]));
      WordInjective(w1[1..], w2[1..]);
      assert w1 == [w1[0]] + w1[1..] && w2 == [w2[0]] + w2[1..];
    }
  }

  lemma {:induction false} StepsFirst(c: bv32, k: nat)
    requires k > 0
    ensures Steps(c, k) == Steps(BitStep(c), k - 1)
  {
    hide BitStep;
    if k > 1 { StepsFirst(c, k - 1); }
  }

  lemma {:induction false} StepsInjective(a: bv32, b: bv32, k: nat)
    requires Steps(a, k) == Steps(b, k)
    ensures a == b
  {
    hide BitStep;
    if k > 0 {
      BitStepInjective(Steps(a, k - 1), Steps(b, k - 1));
      StepsInjective(a, b, k - 1);
    }
  }

  lemma XorAssociates(a: bv32, b: bv32, c: bv32)
    ensures Xor(a, Xor(b, c)) == Xor(Xor(a, b), c) && Xor(a, 0) == a
  {
  }

  /** Up to 32 bits can as well be put into the register before the first step. */
  lemma {:induction false} UpdateWord(c: bv32, w: Bits)
    requires |w| <= 32
    ensures UpdateBits(c, w) == Steps(Xor(c, Word(w)), |w|)
    decreases w
  {
    hide BitStep, Xor, Bit, Up1, Down1, TopClear, Even;
    XorAssociates(c, c, c);
    if w != [] {
      var v := Word(w[1..]);
      var c1 := BitStep(Xor(c, Bit(w[0])));
      UpdateWord(c1, w[1..]);
      WordTop(w[1..]);
      DownUp(v);
      XorAssociates(c, Bit(w[0]), Up1(v));
      BitStepAbove(Xor(c, Bit(w[0])), Up1(v));
      StepsFirst(Xor(c, Word(w)), |w|);
    }
  }

  // Bytes are eight bits.

  lemma LowAndHalf(b: bv8)
    ensures Xor(Bit(Low(b)), Up1(Widen(Half(b)))) == Widen(b)
  {
  }

  /** n halvings */
  function Halved(b: bv8, n: nat): bv8 { if n == 0 then b else Halved(Half(b), n - 1) }

  lemma NothingHalved(b: bv8)
    ensures Halved(b, 8) == 0
  {
    assert Halved(b, 8) == Halved(b >> 1, 7) == Halved(b >> 2, 6) == Halved(b >> 3, 5) == Halved(b >> 4, 4);
    assert Halved(b >> 4, 4) == Halved(b >> 5, 3) == Halved(b >> 6, 2) == Halved(b >> 7, 1) == Halved(b >> 8, 0);
  }

  lemma {:induction false} WordOfLowBits(b: bv8, n: nat)
    requires Halved(b, n) == 0
    ensures Word(LowBits(b, n)) == Widen(b)
    decreases n
  {
    if n == 0 {
      assert Widen(0) == 0;
    } else {
      hide Low, Half, Xor, Up1, Bit, Widen;
      WordOfLowBits(Half(b), n - 1);
      LowAndHalf(b);
      assert LowBits(b, n)[1..] == LowBits(Half(b), n - 1);
    }
  }

  lemma WordOfByte(b: bv8)
    ensures Word(ByteBits(b)) == Widen(b)
  {
    hide Word, LowBits, Halved;
    NothingHalved(b);
    WordOfLowBits(b, 8);
  }

  lemma ByteOfBits(b: bv8, b': bv8)
    requires ByteBits(b) == ByteBits(b')
    ensures b == b'
  {
    hide ByteBits, Word;
    WordOfByte(b);
    WordOfByte(b');
    Narrow(b, b');
  }

  lemma Narrow(b: bv8, b': bv8)
    requires Widen(b) == Widen(b')
    ensures b == b'
  {
  }

  lemma {:induction false} BitsInjective(a: Bytes, b: Bytes)
    requires BitsOf(a) == BitsOf(b)
    ensures a == b
  {
    hide ByteBits;
    if a != [] {
      var n := |a| - 1;
      assert |b| == |a|;
      SplitBits(a);
      SplitBits(b);
      ByteOfBits(a[n], b[n]);
      BitsInjective(a[..n], b[..n]);
      assert a == a[..n] + [a[n]] && b == b[..n] + [b[n]];
    }
  }

  lemma SplitBits(a: Bytes)
    requires a != []
    ensures var n := |a| - 1; BitsOf(a)[..8 * n] == BitsOf(a[..n]) && BitsOf(a)[8 * n..] == ByteBits(a[n])
  {
  }

  lemma ByteStepIsBits(c: bv32, b: bv8)
    ensures ByteStep(c, b) == UpdateBits(c, ByteBits(b))
  {
    assert |ByteBits(b)| == 8;
    hide ByteBits, Bits8, Xor, Widen, Word, Steps, UpdateBits;
    UpdateWord(c, ByteBits(b));
    WordOfByte(b);
    Bits8Steps(Xor(c, Widen(b)));
  }

  lemma {:induction false} UpdateIsBits(c: bv32, data: Bytes)
    ensures Update(c, data) == UpdateBits(c, BitsOf(data))
  {
    hide ByteStep, ByteBits;
    if data != [] {
      var n := |data| - 1;
      UpdateIsBits(c, data[..n]);
      ByteStepIsBits(Update(c, data[..n]), data[n]);
      UpdateBitsAppend(c, BitsOf(data[..n]), ByteBits(data[n]));
    }
  }

  /** Buffers of one length that differ, and only within k bits in a row from bit i. */
  ghost predicate DifferWithin(a: Bytes, b: Bytes, i: nat, k: nat) {
    && |a| == |b| && a != b && i + k <= 8 * |a|
    && BitsOf(a)[..i] == BitsOf(b)[..i] && BitsOf(a)[i + k..] == BitsOf(b)[i + k..]
  }

  /** A burst of at most 32 bits, wherever it starts */
  ghost predicate DifferByBurst(a: Bytes, b: Bytes) { exists i: nat, k: nat :: k <= 32 && DifferWithin(a, b, i, k) }

  lemma CutBits(c: bv32, w: Bits, i: nat, k: nat)
    requires i + k <= |w|
    ensures UpdateBits(c, w) == UpdateBits(UpdateBits(UpdateBits(c, w[..i]), w[i..i + k]), w[i + k..])
  {
    hide UpdateBits;
    assert w == w[..i] + w[i..i + k] + w[i + k..];
    UpdateBitsAppend(c, w[..i] + w[i..i + k], w[i + k..]);
    UpdateBitsAppend(c, w[..i], w[i..i + k]);
  }

  /** Windows of at most 32 bits that leave the same register are the same. */
  lemma WindowInjective(c: bv32, w1: Bits, w2: Bits)
    requires |w1| == |w2| <= 32 && UpdateBits(c, w1) == UpdateBits(c, w2)
    ensures w1 == w2
  {
    hide UpdateBits, Xor, Word, Steps;
    UpdateWord(c, w1);
    UpdateWord(c, w2);
    StepsInjective(Xor(c, Word(w1)), Xor(c, Word(w2)), |w1|);
    XorCommutes(c, Word(w1));
    XorCommutes(c, Word(w2));
    XorCancels(Word(w1), Word(w2), c);
    WordInjective(w1, w2);
  }

  /** A burst of at most 32 bits never goes unseen. */
  lemma BurstDetected(crc: bv32, a: Bytes, b: Bytes, i: nat, k: nat)
    requires k <= 32 && DifferWithin(a, b, i, k)
    ensures Crc(crc, a) != Crc(crc, b)
  {
    hide Update, UpdateBits, Not, BitsOf;
    var c, wa, wb := Not(crc), BitsOf(a), BitsOf(b);
    UpdateIsBits(c, a);
    UpdateIsBits(c, b);
    NotNot(Update(c, a));
    NotNot(Update(c, b));
    if Crc(crc, a) == Crc(crc, b) {
      CutBits(c, wa, i, k);
      CutBits(c, wb, i, k);
      var c1 := UpdateBits(c, wa[..i]);
      UpdateBitsInjective(UpdateBits(c1, wa[i..i + k]), UpdateBits(c1, wb[i..i + k]), wa[i + k..]);
      WindowInjective(c1, wa[i..i + k], wb[i..i + k]);
      assert wa == wa[..i] + wa[i..i + k] + wa[i + k..] && wb == wb[..i] + wb[i..i + k] + wb[i + k..];
      BitsInjective(a, b);
    }
  }

  lemma {:induction false} BitsAppend(a: Bytes, b: Bytes)
    ensures BitsOf(a + b) == BitsOf(a) + BitsOf(b)
  {
    hide ByteBits;
    if b == [] {
      assert a + b == a;
    } else {
      var n := |b| - 1;
      BitsAppend(a, b[..n]);
      assert (a + b)[..|a + b| - 1] == a + b[..n];
    }
  }

  lemma BitsOfParts(a: Bytes, i: nat)
    requires i <= |a|
    ensures BitsOf(a)[..8 * i] == BitsOf(a[..i]) && BitsOf(a)[8 * i..] == BitsOf(a[i..])
  {
    hide BitsOf;
    assert a == a[..i] + a[i..];
    BitsAppend(a[..i], a[i..]);
  }

  /** In particular, a difference within four bytes in a row is such a burst. */
  lemma FourBytesAreABurst(a: Bytes, b: Bytes, i: nat, k: nat)
    requires k <= 4 && i + k <= |a| == |b| && a != b && a[..i] == b[..i] && a[i + k..] == b[i + k..]
    ensures DifferWithin(a, b, 8 * i, 8 * k)
  {
    hide BitsOf;
    BitsOfParts(a, i);
    BitsOfParts(b, i);
    BitsOfParts(a, i + k);
    BitsOfParts(b, i + k);
  }

  // ---------------------------------------------------------------------------
  // Files
  // ---------------------------------------------------------------------------

  lemma {:induction false} FlattenNext(chunks: seq<Bytes>, i: nat)
    requires i < |chunks|
    ensures Flatten(chunks[..i + 1]) == Flatten(chunks[..i]) + chunks[i]
  {
    assert chunks[..i + 1][..i] == chunks[..i];
  }

  /** The test file: 512-byte sectors, each filled with its own number. */
  function TestFile(sectors: nat): Bytes {
    if sectors == 0 then [] else TestFile(sectors - 1) + Sector(sectors - 1)
  }

  function Sector(i: nat): (r: Bytes)
    ensures |r| == 512 && forall k | 0 <= k < 512 :: r[k] == (i % 256) as bv8
  {
    seq(512, _ => (i % 256) as bv8)
  }

  const SECTORS: nat := 1024

  /** Every write took its whole sector, and the file was read to its end. */
  predicate Uninterrupted(accepted: seq<int>, chunks: seq<Bytes>, stops: seq<bool>)
    requires |accepted| == SECTORS && |stops| == |chunks|
  {
    (forall i | 0 <= i < SECTORS :: accepted[i] == 512) && forall i | 0 <= i < |chunks| :: chunks[i] != [] && !stops[i]
  }

  /** Reading went on through chunk n - 1: up to a stop, to an empty chunk or to the end. */
  predicate ReadTo(chunks: seq<Bytes>, stops: seq<bool>, n: nat)
    requires |stops| == |chunks|
  {
    && n <= |chunks| && (forall i | 0 <= i < n :: chunks[i] != [] && (i < n - 1 ==> !stops[i]))
    && (n == |chunks| || chunks[n] == [] || (n > 0 && stops[n - 1]))
  }

  /** Writing went on through sector n - 1: up to the first that was cut short, or to the last. */
  predicate WrittenTo(accepted: seq<int>, n: nat)
    requires |accepted| == SECTORS
  {
    && 0 < n <= SECTORS && (forall i | 0 <= i < n - 1 :: accepted[i] == 512)
    && (n == SECTORS || accepted[n - 1] != 512)
  }

  /** An unsigned int keeps 32 bits. */
  function Wrap32(n: int): int { n % 0x1_0000_0000 }

  lemma WrapSum(a: int, b: int)
    ensures Wrap32(a) == a % 0x1_0000_0000 && Wrap32(Wrap32(a) + b) == Wrap32(a + b) && Wrap32(0) == 0
  {
  }

  /** The menu's file variables */
  class Menu {
    var filesize: int
    var filecrc: bv32

    /** op_crc */
    method OpCrc(p: Bytes)
      modifies this`filecrc
      ensures filecrc == Crc(old(filecrc), p)
    {
      filecrc := Crc32b(filecrc, p);
    }

    /**
     file_operation with op_crc: `chunks` are what successive reads of the file return, and
     `stops` whether Ctrl-C was pressed after each.
     */
    method FileCrc(chunks: seq<Bytes>, stops: seq<bool>) returns (ghost n: nat)
      requires |stops| == |chunks|
      modifies this
      ensures ReadTo(chunks, stops, n)
      ensures filecrc == Crc(0, Flatten(chunks[..n])) && filesize == |Flatten(chunks[..n])| % 0x1_0000_0000
      ensures (forall i | 0 <= i < |chunks| :: chunks[i] != [] && !stops[i]) ==> n == |chunks|
    {
      hide Crc, Wrap32;
      filesize, filecrc := 0, 0;
      var i := 0;
      WrapSum(0, 0);
      EmptyCrc(0);
      while i < |chunks| && chunks[i] != []
        invariant i <= |chunks| && filecrc == Crc(0, Flatten(chunks[..i])) && filesize == Wrap32(|Flatten(chunks[..i])|)
        invariant forall j | 0 <= j < i :: chunks[j] != [] && !stops[j]
        decreases |chunks| - i
      {
        FlattenNext(chunks, i);
        CrcAppend(0, Flatten(chunks[..i]), chunks[i]);
        OpCrc(chunks[i]);
        WrapSum(|Flatten(chunks[..i])|, |chunks[i]|);
        filesize := Wrap32(filesize + |chunks[i]|);
        i := i + 1;
        if stops[i - 1] { break; }
      }
      EmptyCrc(filecrc);
      OpCrc([]);
      n := i;
      WrapSum(|Flatten(chunks[..n])|, 0);
    }

    /** The writing half of CMD_WRITE: `accepted` are the byte counts that the writes report. */
    method WriteTestFile(accepted: seq<int>) returns (crc: bv32, ghost sectors: nat)
      requires |accepted| == SECTORS
      modifies this`filesize
      ensures WrittenTo(accepted, sectors) && crc == Crc(0, TestFile(sectors))
      ensures filesize == 512 * (if accepted[sectors - 1] == 512 then sectors else sectors - 1)
      ensures (forall i | 0 <= i < SECTORS :: accepted[i] == 512) ==> sectors == SECTORS
    {
      hide Crc, Sector;
      crc := 0;
      filesize := 0;
      var i := 0;
      EmptyCrc(0);
      while filesize < 512 * 1024
        invariant i <= SECTORS && filesize == 512 * i && crc == Crc(0, TestFile(i))
        invariant forall j | 0 <= j < i :: accepted[j] == 512
        decreases SECTORS - i
      {
        CrcAppend(0, TestFile(i), Sector(i));
        assert filesize / 512 == i;
        crc := Crc32b(crc, Sector(filesize / 512));
        i := i + 1;
        if accepted[i - 1] != 512 { break; }
        filesize := filesize + 512;
      }
      sectors := i;
    }

    /** CMD_WRITE: the test file is written, read back and compared by checksum. */
    method WriteAndVerify(accepted: seq<int>, chunks: seq<Bytes>, stops: seq<bool>)
      returns (verified: bool, ghost n: nat, ghost sectors: nat)
      requires |accepted| == SECTORS && |stops| == |chunks|
      modifies this
      ensures ReadTo(chunks, stops, n) && WrittenTo(accepted, sectors)
      ensures verified <==> Crc(0, Flatten(chunks[..n])) == Crc(0, TestFile(sectors))
      ensures Uninterrupted(accepted, chunks, stops) && Flatten(chunks) == TestFile(SECTORS) ==>
                verified && filesize == |Flatten(chunks)| % 0x1_0000_0000
      ensures Uninterrupted(accepted, chunks, stops) && DifferByBurst(Flatten(chunks), TestFile(SECTORS)) ==> !verified
    {
      hide Crc, TestFile, DifferWithin, Flatten;
      var crc;
      crc, sectors := WriteTestFile(accepted);
      n := FileCrc(chunks, stops);
      assert chunks[..|chunks|] == chunks;
      verified := filecrc == crc;
      forall i: nat, k: nat | k <= 32 && DifferWithin(Flatten(chunks), TestFile(SECTORS), i, k)
        ensures Crc(0, Flatten(chunks)) != Crc(0, TestFile(SECTORS))
      {
        BurstDetected(0, Flatten(chunks), TestFile(SECTORS), i, k);
      }
    }
  }

  lemma EmptyCrc(crc: bv32)
    ensures Crc(crc, []) == crc
  {
    hide Not;
    NotNot(crc);
  }
}
