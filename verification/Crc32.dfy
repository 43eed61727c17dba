/**
 The CRC-32 of section 8 of RFC 1952: the bit loop of host_crc32, the chained form
 that function identities use, and the table-driven form of the standard.
 */
module Crc32 {
  import opened BitWords
  import opened BinaryPolynomials

  const WORD := 0x1_0000_0000
  const POLYNOMIAL := 0xEDB8_8320
  const BYTE_BITS: nat := 8

  /** `(crc >> 1) ^ ((crc & 1) ? 0xEDB88320 : 0)` */
  function BitStep(c: nat): nat {
    if c % 2 == 1 then Xor(c / 2, POLYNOMIAL) else c / 2
  }

  /** The step undone: the top bit tells whether the polynomial was added. */
  function BitUnstep(c: nat): nat {
    if c >= 0x8000_0000 then 2 * Xor(c, POLYNOMIAL) + 1 else 2 * c
  }

  lemma PolynomialTop(x: nat)
    requires x < 0x8000_0000
    ensures 0x8000_0000 <= Xor(x, POLYNOMIAL) < WORD
    ensures Xor(0x8000_0000 + x, POLYNOMIAL) < 0x8000_0000
  {
    var low := POLYNOMIAL - 0x8000_0000;
    Pow2Values();
    XorTopBit(x, low, 31);
    XorBelow(x, low, 31);
    var y := Xor(x, low);
    XorTopBit(y, low, 31);
    XorTwice(x, low);
    assert Xor(y, POLYNOMIAL) == 0x8000_0000 + x;
    XorTwice(y, POLYNOMIAL);
  }

  lemma BitStepInverts(c: nat)
    requires c < WORD
    ensures BitStep(c) < WORD && BitUnstep(BitStep(c)) == c
  {
    if c % 2 == 1 {
      PolynomialTop(c / 2);
      XorTwice(c / 2, POLYNOMIAL);
    }
  }

  lemma BitUnstepInverts(c: nat)
    requires c < WORD
    ensures BitUnstep(c) < WORD && BitStep(BitUnstep(c)) == c
  {
    if c >= 0x8000_0000 {
      PolynomialTop(c - 0x8000_0000);
      XorTwice(c, POLYNOMIAL);
    }
  }

  function Bits(c: nat, n: nat): nat
    decreases n
  {
    if n == 0 then c else Bits(BitStep(c), n - 1)
  }

  function Unbits(c: nat, n: nat): nat
    decreases n
  {
    if n == 0 then c else BitUnstep(Unbits(c, n - 1))
  }

  lemma {:induction false} BitsInvert(c: nat, n: nat)
    requires c < WORD
    ensures Bits(c, n) < WORD && Unbits(Bits(c, n), n) == c
    decreases n
  {
    if n > 0 {
      BitStepInverts(c);
      BitsInvert(BitStep(c), n - 1);
    }
  }

  lemma {:induction false} UnbitsInvert(c: nat, n: nat)
    requires c < WORD
    ensures Unbits(c, n) < WORD && Bits(Unbits(c, n), n) == c
    decreases n
  {
    if n > 0 {
      UnbitsInvert(c, n - 1);
      BitUnstepInverts(Unbits(c, n - 1));
    }
  }

  lemma {:induction false} BitsJoin(c: nat, m: nat, n: nat)
    ensures Bits(Bits(c, m), n) == Bits(c, m + n)
    decreases m
  {
    if m > 0 {
      BitsJoin(BitStep(c), m - 1, n);
    }
  }

  function ByteStep(c: nat, b: Byte): nat {
    Bits(Xor(c, b), BYTE_BITS)
  }

  function ByteUnstep(c: nat, b: Byte): nat {
    Xor(Unbits(c, BYTE_BITS), b)
  }

  /** For every fixed input byte the CRC is a bijection on its states: `ByteUnstep` inverts it on both sides. */
  lemma ByteStepBijective(c: nat, b: Byte)
    requires c < WORD
    ensures ByteStep(c, b) < WORD && ByteUnstep(ByteStep(c, b), b) == c
    ensures ByteUnstep(c, b) < WORD && ByteStep(ByteUnstep(c, b), b) == c
  {
    Pow2Values();
    XorBelow(c, b, 32);
    BitsInvert(Xor(c, b), BYTE_BITS);
    XorTwice(c, b);
    UnbitsInvert(c, BYTE_BITS);
    XorBelow(Unbits(c, BYTE_BITS), b, 32);
    XorTwice(Unbits(c, BYTE_BITS), b);
  }

  function Run(c: nat, data: seq<Byte>): nat
    decreases |data|
  {
    if data == [] then c else Run(ByteStep(c, data[0]), data[1..])
  }

  lemma {:induction false} RunBelow(c: nat, data: seq<Byte>)
    requires c < WORD
    ensures Run(c, data) < WORD
    decreases |data|
  {
    if data != [] {
      ByteStepBijective(c, data[0]);
      RunBelow(ByteStep(c, data[0]), data[1..]);
    }
  }

  /** `~c` on 32 bits. */
  function Flip(c: nat): nat { Xor(c, 0xFFFF_FFFF) }

  /** zlib's `crc32(data, previous)`; the loop of host_crc32 is `Crc(data, 0)`. */
  function Crc(data: seq<Byte>, previous: nat): nat {
    Flip(Run(Flip(previous), data))
  }

  lemma FlipBelow(c: nat)
    requires c < WORD
    ensures Flip(c) < WORD
  {
    Pow2Values();
    XorBelow(c, 0xFFFF_FFFF, 32);
  }

  lemma CrcBelow(data: seq<Byte>, previous: nat)
    requires previous < WORD
    ensures Crc(data, previous) < WORD
  {
    FlipBelow(previous);
    RunBelow(Flip(previous), data);
    FlipBelow(Run(Flip(previous), data));
  }

  lemma {:induction false} RunSnoc(c: nat, data: seq<Byte>, b: Byte)
    ensures Run(c, data + [b]) == ByteStep(Run(c, data), b)
    decreases |data|
  {
    if data == [] {
      assert [b][1..] == [];
      assert data + [b] == [b];
    } else {
      assert (data + [b])[1..] == data[1..] + [b];
      RunSnoc(ByteStep(c, data[0]), data[1..], b);
    }
  }

  lemma {:induction false} RunConcat(c: nat, a: seq<Byte>, b: seq<Byte>)
    ensures Run(c, a + b) == Run(Run(c, a), b)
    decreases |a|
  {
    if a == [] {
      assert a + b == b;
    } else {
      assert (a + b)[1..] == a[1..] + b;
      RunConcat(ByteStep(c, a[0]), a[1..], b);
    }
  }

  /** Chaining across ranges is the CRC of the concatenated bytes. */
  lemma CrcChains(a: seq<Byte>, b: seq<Byte>, previous: nat)
    ensures Crc(b, Crc(a, previous)) == Crc(a + b, previous)
  {
    RunConcat(Flip(previous), a, b);
    XorTwice(Run(Flip(previous), a), 0xFFFF_FFFF);
  }

  /** With nothing to read the checksum is unchanged. */
  lemma CrcEmpty(previous: nat)
    ensures Crc([], previous) == previous
  {
    XorTwice(previous, 0xFFFF_FFFF);
  }

  lemma {:induction false} RunInjective(c: nat, d: nat, data: seq<Byte>)
    requires c < WORD && d < WORD && Run(c, data) == Run(d, data)
    ensures c == d
    decreases |data|
  {
    if data != [] {
      ByteStepBijective(c, data[0]);
      ByteStepBijective(d, data[0]);
      RunInjective(ByteStep(c, data[0]), ByteStep(d, data[0]), data[1..]);
    }
  }

  // ---- Bytes that arrive later act as if they had been there from the start ----

  /** The step is linear: a bit that will be shifted down to `y` can be added before or after. */
  lemma BitShift(x: nat, y: nat)
    ensures BitStep(Xor(x, 2 * y)) == Xor(BitStep(x), y)
  {
    XorDouble(x, y);
    if x % 2 == 1 {
      XorSwaps(x / 2, y, POLYNOMIAL);
    }
  }

  lemma {:induction false} BitsShift(x: nat, y: nat, n: nat)
    ensures Bits(Xor(x, Pow2(n) * y), n) == Xor(Bits(x, n), y)
    decreases n
  {
    if n > 0 {
      var z := Pow2(n - 1) * y;
      assert Pow2(n) * y == 2 * z;
      BitShift(x, z);
      BitsShift(BitStep(x), y, n - 1);
    }
  }

  /** Bytes as one little-endian word. */
  function Word(data: seq<Byte>): nat
    decreases |data|
  {
    if data == [] then 0 else data[0] + 0x100 * Word(data[1..])
  }

  lemma {:induction false} WordBelow(data: seq<Byte>)
    requires |data| <= 4
    ensures Word(data) < WORD
    ensures |data| <= 3 ==> Word(data) < 0x100_0000
    ensures |data| <= 2 ==> Word(data) < 0x1_0000
    ensures |data| <= 1 ==> Word(data) < 0x100
    decreases |data|
  {
    if data != [] {
      WordBelow(data[1..]);
    }
  }

  lemma {:induction false} WordInjective(v: seq<Byte>, w: seq<Byte>)
    requires |v| == |w| && Word(v) == Word(w)
    ensures v == w
    decreases |v|
  {
    if v != [] {
      assert v[0] == w[0] && Word(v[1..]) == Word(w[1..]);
      WordInjective(v[1..], w[1..]);
      assert v == [v[0]] + v[1..] && w == [w[0]] + w[1..];
    }
  }

  /** The first byte of a word meets only its low bits. */
  lemma WordHead(s: nat, b: Byte, y: nat)
    ensures Xor(s, b + 0x100 * y) == Xor(Xor(s, b), 0x100 * y)
  {
    Pow2Values();
    XorDisjoint(b, y, 8);
    XorAssociates(s, b, 0x100 * y);
  }

  lemma ByteShift(x: nat, y: nat)
    ensures Bits(Xor(x, 0x100 * y), BYTE_BITS) == Xor(Bits(x, BYTE_BITS), y)
  {
    Pow2Values();
    BitsShift(x, y, BYTE_BITS);
  }

  lemma WordStep(s: nat, b: Byte, y: nat, rest: nat)
    ensures Bits(Xor(ByteStep(s, b), y), rest) == Bits(Xor(s, b + 0x100 * y), BYTE_BITS + rest)
  {
    WordHead(s, b, y);
    ByteShift(Xor(s, b), y);
    BitsJoin(Xor(s, b + 0x100 * y), BYTE_BITS, rest);
  }

  /** A run over bytes is one addition of their word and then all the bit steps. */
  lemma {:induction false} RunOfWord(s: nat, data: seq<Byte>, bits: nat)
    requires bits == 8 * |data|
    ensures Run(s, data) == Bits(Xor(s, Word(data)), bits)
    decreases |data|
  {
    if data == [] {
      XorZero(s);
    } else {
      var b, tail, rest := data[0], data[1..], bits - BYTE_BITS;
      RunOfWord(ByteStep(s, b), tail, rest);
      WordStep(s, b, Word(tail), rest);
    }
  }

  lemma ShortInjective(s: nat, v: seq<Byte>, w: seq<Byte>)
    requires s < WORD && |v| == |w| <= 4 && Run(s, v) == Run(s, w)
    ensures v == w
  {
    RunOfWord(s, v, BYTE_BITS * |v|);
    RunOfWord(s, w, BYTE_BITS * |w|);
    WordBelow(v);
    WordBelow(w);
    Pow2Values();
    XorBelow(s, Word(v), 32);
    XorBelow(s, Word(w), 32);
    BitsInvert(Xor(s, Word(v)), BYTE_BITS * |v|);
    BitsInvert(Xor(s, Word(w)), BYTE_BITS * |w|);
    XorCancels(s, Word(v), Word(w));
    WordInjective(v, w);
  }

  lemma SplitDiffer(c: nat, p: seq<Byte>, v: seq<Byte>, w: seq<Byte>, q: seq<Byte>)
    requires c < WORD && |v| == |w| <= 4 && Run(c, p + v + q) == Run(c, p + w + q)
    ensures v == w
  {
    RunConcat(c, p + v, q);
    RunConcat(c, p, v);
    RunConcat(c, p + w, q);
    RunConcat(c, p, w);
    RunBelow(c, p);
    RunBelow(Run(c, p), v);
    RunBelow(Run(c, p), w);
    RunInjective(Run(Run(c, p), v), Run(Run(c, p), w), q);
    ShortInjective(Run(c, p), v, w);
  }

  /** Two inputs of one length that differ only inside a window of four bytes have different CRCs. */
  lemma WindowIsDetected(x: seq<Byte>, y: seq<Byte>, from: nat, previous: nat)
    requires |x| == |y| && x != y && previous < WORD
    requires forall i :: 0 <= i < |x| && !(from <= i < from + 4) ==> x[i] == y[i]
    ensures Crc(x, previous) != Crc(y, previous)
  {
    var lo := if from <= |x| then from else |x|;
    var hi := if from + 4 <= |x| then from + 4 else |x|;
    assert x == x[..lo] + x[lo..hi] + x[hi..];
    assert y == x[..lo] + y[lo..hi] + x[hi..];
    var s := Flip(previous);
    FlipBelow(previous);
    if Crc(x, previous) == Crc(y, previous) {
      XorTwice(Run(s, x), 0xFFFF_FFFF);
      XorTwice(Run(s, y), 0xFFFF_FFFF);
      SplitDiffer(s, x[..lo], x[lo..hi], y[lo..hi], x[hi..]);
    }
  }

  // ---- The standard's table-driven form ----------------------------------

  /** `make_crc_table`: eight bit steps of the index. */
  function TableEntry(n: Byte): nat {
    Bits(n, BYTE_BITS)
  }

  /** `crc_table[(c ^ b) & 0xff] ^ (c >> 8)` */
  function TableStep(c: nat, b: Byte): nat {
    Xor(TableEntry(Xor(c, b) % 0x100), c / 0x100)
  }

  function TableRun(c: nat, data: seq<Byte>): nat
    decreases |data|
  {
    if data == [] then c else TableRun(TableStep(c, data[0]), data[1..])
  }

  lemma LowHigh(lo: nat, hi: nat)
    requires lo < 0x100
    ensures (lo + 0x100 * hi) % 0x100 == lo && (lo + 0x100 * hi) / 0x100 == hi
  {
  }

  lemma LowByteMeets(lo: Byte, hi: nat, b: Byte)
    ensures Xor(lo, b) < 0x100
    ensures Xor(lo + 0x100 * hi, b) == Xor(lo, b) + 0x100 * hi == Xor(Xor(lo, b), 0x100 * hi)
  {
    Pow2Values();
    XorBelow(lo, b, 8);
    XorDisjoint(lo, hi, 8);
    XorSwaps(lo, 0x100 * hi, b);
    XorDisjoint(Xor(lo, b), hi, 8);
  }

  /** Only the low byte of the state meets the input byte. */
  lemma SplitByte(c: nat, b: Byte)
    ensures Xor(c, b) == Xor(Xor(c, b) % 0x100, 0x100 * (c / 0x100))
  {
    var lo, hi := c % 0x100, c / 0x100;
    LowByteMeets(lo, hi, b);
    LowHigh(Xor(lo, b), hi);
  }

  lemma BitLoopIsTableStep(c: nat, b: Byte)
    ensures ByteStep(c, b) == TableStep(c, b)
  {
    SplitByte(c, b);
    ByteShift(Xor(c, b) % 0x100, c / 0x100);
  }

  /** The bit loop computes what section 8 of RFC 1952 computes with its table. */
  lemma {:induction false} BitLoopIsStandard(c: nat, data: seq<Byte>)
    ensures Run(c, data) == TableRun(c, data)
    decreases |data|
  {
    if data != [] {
      BitLoopIsTableStep(c, data[0]);
      BitLoopIsStandard(ByteStep(c, data[0]), data[1..]);
    }
  }

  // ---- The standard's polynomial -----------------------------------------

  /** The generator of ITU-T V.42, section 8.1.1.6.2, which section 8 of RFC 1952 refers to. */
  const GENERATOR := WithExponents([32, 26, 23, 22, 16, 12, 11, 10, 8, 7, 5, 4, 2, 1, 0])

  lemma PowersOfTwo()
    ensures Pow2(0) == 1 && Pow2(1) == 2 && Pow2(2) == 4 && Pow2(4) == 0x10 && Pow2(5) == 0x20 && Pow2(7) == 0x80
    ensures Pow2(8) == 0x100 && Pow2(10) == 0x400 && Pow2(11) == 0x800 && Pow2(12) == 0x1000 && Pow2(16) == 0x1_0000
    ensures Pow2(22) == 0x40_0000 && Pow2(23) == 0x80_0000 && Pow2(26) == 0x400_0000 && Pow2(32) == 0x1_0000_0000
  {
    Pow2Values();
  }

  lemma GeneratorValue()
    ensures GENERATOR == 0x1_04C1_1DB7
  {
    PowersOfTwo();
    assert WithExponents([8, 7, 5, 4, 2, 1, 0]) == 0x1B7;
    assert WithExponents([22, 16, 12, 11, 10, 8, 7, 5, 4, 2, 1, 0]) == 0x41_1DB7;
  }

  lemma UpperMirrored()
    ensures Mirror(0xEDB8, 16) == 0x1DB7
  {
    Pow2Values();
    assert Mirror(0xED, 8) == 0xB7;
  }

  /** The constant of the loop is the generator below its leading term, mirrored. */
  lemma PolynomialMirrored()
    ensures Mirror(POLYNOMIAL, 32) == 0x04C1_1DB7
  {
    Pow2Values();
    UpperMirrored();
    assert Mirror(0xED_B883, 24) == 0xC1_1DB7;
  }

  /** A bit step multiplies by x and divides by the generator. */
  lemma StepDivides(p: nat, c: nat, g: nat)
    requires g == 0x1_04C1_1DB7 && c < WORD && Congruent(p, Mirror(c, 32), g)
    ensures Congruent(2 * p, Mirror(BitStep(c), 32), g)
  {
    Pow2Values();
    PolynomialMirrored();
    StepMirrored(c, POLYNOMIAL, 31);
    CongruentDouble(p, Mirror(c, 32), g);
  }

  lemma {:induction false} StepsDivide(p: nat, c: nat, n: nat, g: nat)
    requires g == 0x1_04C1_1DB7 && c < WORD && Congruent(p, Mirror(c, 32), g)
    ensures Congruent(Shift(p, n), Mirror(Bits(c, n), 32), g)
    decreases n
  {
    if n > 0 {
      StepDivides(p, c, g);
      BitStepInverts(c);
      StepsDivide(2 * p, BitStep(c), n - 1, g);
      ShiftTwice(p, 1, n - 1);
      assert Shift(p, 1) == 2 * p;
    }
  }

  /** The bytes as a polynomial: every byte's lowest bit first. */
  function Text(data: seq<Byte>): nat {
    if data == [] then 0 else Xor(Shift(Text(data[..|data|-1]), 8), Mirror(data[|data|-1], 8))
  }

  /** What is divided: the text and 32 zeros behind it, and in front the mirrored register to begin with. */
  function Dividend(c: nat, data: seq<Byte>): nat { Xor(Shift(Mirror(c, 32), 8 * |data|), Shift(Text(data), 32)) }

  lemma ByteDivides(p: nat, c: nat, b: Byte, g: nat)
    requires g == 0x1_04C1_1DB7 && c < WORD && Congruent(p, Mirror(c, 32), g)
    ensures Congruent(Xor(Shift(p, 8), Shift(Mirror(b, 8), 32)), Mirror(ByteStep(c, b), 32), g)
  {
    Pow2Values();
    XorBelow(c, b, 32);
    MirrorPlus(c, b, 32);
    CongruentPlus(p, Mirror(c, 32), g, Mirror(b, 32));
    StepsDivide(Xor(p, Mirror(b, 32)), Xor(c, b), BYTE_BITS, g);
    MirrorShifts(b, 8, 24);
    ShiftPlus(p, Mirror(b, 32), 8);
    ShiftTwice(Mirror(b, 8), 24, 8);
  }

  lemma DividendSnoc(c: nat, data: seq<Byte>, b: Byte)
    ensures Dividend(c, data + [b]) == Xor(Shift(Dividend(c, data), 8), Shift(Mirror(b, 8), 32))
  {
    var front, text, bits := Shift(Mirror(c, 32), 8 * |data|), Text(data), Mirror(b, 8);
    assert (data + [b])[..|data|] == data;
    ShiftTwice(Mirror(c, 32), 8 * |data|, 8);
    ShiftPlus(front, Shift(text, 32), 8);
    ShiftTwice(text, 32, 8);
    ShiftTwice(text, 8, 32);
    ShiftPlus(Shift(text, 8), bits, 32);
    XorAssociates(Shift(front, 8), Shift(text, 40), Shift(bits, 32));
  }

  /** The loop divides by the generator: its register is the remainder, mirrored. */
  lemma {:induction false} RunIsRemainder(c: nat, data: seq<Byte>, g: nat)
    requires g == 0x1_04C1_1DB7 && c < WORD
    ensures IsRemainder(Dividend(c, data), g, 32, Mirror(Run(c, data), 32))
    decreases |data|
  {
    MirrorBelow(Run(c, data), 32);
    if data == [] {
      NoText(c);
      CongruentSelf(Mirror(c, 32), g);
    } else {
      var init, b := data[..|data|-1], data[|data|-1];
      assert data == init + [b];
      RunIsRemainder(c, init, g);
      RunBelow(c, init);
      ByteDivides(Dividend(c, init), Run(c, init), b, g);
      DividendSnoc(c, init, b);
      RunSnoc(c, init, b);
    }
  }

  lemma NoText(c: nat)
    ensures Dividend(c, []) == Mirror(c, 32)
  {
    ShiftTwice(0, 0, 32);
    ShiftPlus(0, 0, 32);
    XorSelf(Shift(0, 32));
    XorZero(0);
    XorZero(Mirror(c, 32));
  }

  /** The checksum is determined: complemented and mirrored it is the one remainder of the complemented start and the text. */
  ghost predicate IsChecksum(data: seq<Byte>, previous: nat, r: nat) {
    r < 0x1_0000_0000 && IsRemainder(Dividend(Xor(previous, 0xFFFF_FFFF), data), GENERATOR, 32, Mirror(Xor(r, 0xFFFF_FFFF), 32))
  }

  lemma CrcIsChecksum(data: seq<Byte>, previous: nat)
    requires previous < WORD
    ensures IsChecksum(data, previous, Crc(data, previous))
  {
    FlipBelow(previous);
    CrcBelow(data, previous);
    GeneratorValue();
    RunIsRemainder(Flip(previous), data, GENERATOR);
    XorTwice(Run(Flip(previous), data), 0xFFFF_FFFF);
  }

  lemma ChecksumIsUnique(data: seq<Byte>, previous: nat, r: nat, s: nat)
    requires IsChecksum(data, previous, r) && IsChecksum(data, previous, s)
    ensures r == s
  {
    GeneratorValue();
    Pow2Values();
    RemainderIsUnique(Dividend(Flip(previous), data), GENERATOR, 32, Mirror(Flip(r), 32), Mirror(Flip(s), 32));
    SameMirror(r, s);
  }

  lemma SameMirror(r: nat, s: nat)
    requires r < WORD && s < WORD && Mirror(Flip(r), 32) == Mirror(Flip(s), 32)
    ensures r == s
  {
    Pow2Values();
    FlipBelow(r);
    FlipBelow(s);
    MirrorTwice(Flip(r), 32);
    MirrorTwice(Flip(s), 32);
    XorTwice(r, 0xFFFF_FFFF);
    XorTwice(s, 0xFFFF_FFFF);
  }

  /** The inner loop of host_crc32. */
  method EightSteps(start: nat) returns (crc: nat)
    ensures crc == Bits(start, BYTE_BITS)
  {
    crc := start;
    var j := 0;
    while j < BYTE_BITS
      invariant 0 <= j <= BYTE_BITS
      invariant Bits(crc, BYTE_BITS - j) == Bits(start, BYTE_BITS)
    {
      XorZero(crc / 2);
      crc := Xor(crc / 2, if crc % 2 == 1 then POLYNOMIAL else 0);
      j := j + 1;
    }
  }

  lemma AllOnes()
    ensures Flip(0) == 0xFFFF_FFFF
  {
    XorCommutes(0, 0xFFFF_FFFF);
    XorZero(0xFFFF_FFFF);
  }

  lemma ChecksumOf(data: seq<Byte>)
    ensures Crc(data, 0) == Flip(Run(0xFFFF_FFFF, data)) == Xor(TableRun(0xFFFF_FFFF, data), 0xFFFF_FFFF) < WORD
    ensures IsChecksum(data, 0, Crc(data, 0))
  {
    AllOnes();
    BitLoopIsStandard(0xFFFF_FFFF, data);
    CrcBelow(data, 0);
    CrcIsChecksum(data, 0);
  }

  /** host_crc32 */
  method HostCrc32(data: array<Byte>) returns (r: nat)
    ensures r == Crc(data[..], 0) < WORD
    ensures r == Xor(TableRun(0xFFFF_FFFF, data[..]), 0xFFFF_FFFF)
    ensures IsChecksum(data[..], 0, r)
  {
    ghost var start: nat := 0xFFFF_FFFF;
    var crc: nat := 0xFFFF_FFFF;
    var i := 0;
    while i < data.Length
      invariant 0 <= i <= data.Length
      invariant crc == Run(start, data[..i])
    {
      RunSnoc(start, data[..i], data[i]);
      assert data[..i+1] == data[..i] + [data[i]];
      crc := EightSteps(Xor(crc, data[i]));
      i := i + 1;
    }
    assert data[..i] == data[..];
    ChecksumOf(data[..]);
    r := Flip(crc);
  }
}
