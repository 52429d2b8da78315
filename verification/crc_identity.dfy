/**
 Which CRC-32 it is: the standard check value, the residue and the generator polynomial in
 numbers (section 8 of RFC 1952).  Registers are computed on four bytes of bits, which are
 first shown to move as the registers do.
 */
module CrcIdentity {
  import opened Bits
  import opened ByteVectors
  import opened Crc32
  import opened CrcMultiples

  /* ---------- a register as four bytes ---------- */

  // The bytes of a register, low one first.
  datatype Reg = Reg(x0: bv8, x1: bv8, x2: bv8, x3: bv8)

  function Value(r: Reg): u32 {
    Above(Num(r.x0), Above(Num(r.x1), Above(Num(r.x2), Num(r.x3))))
  }

  function XorReg(a: Reg, b: Reg): Reg {
    Reg(a.x0 ^ b.x0, a.x1 ^ b.x1, a.x2 ^ b.x2, a.x3 ^ b.x3)
  }

  lemma XorOfValues(a: Reg, b: Reg)
    ensures Xor(Value(a), Value(b)) == Value(XorReg(a, b))
  {
    XorOfBytes(a.x3, b.x3);
    var a3, b3 := Num(a.x3), Num(b.x3);
    JoinByte(a.x2, b.x2, a3, b3);
    var a2, b2 := Above(Num(a.x2), a3), Above(Num(b.x2), b3);
    JoinByte(a.x1, b.x1, a2, b2);
    JoinByte(a.x0, b.x0, Above(Num(a.x1), a2), Above(Num(b.x1), b2));
  }

  /* ---------- the step ---------- */

  function Half(r: Reg): Reg {
    Reg((r.x0 >> 1) | (r.x1 << 7), (r.x1 >> 1) | (r.x2 << 7), (r.x2 >> 1) | (r.x3 << 7), r.x3 >> 1)
  }

  // Halving moves each byte's low bit into the byte below.
  lemma HalfOfByte(x: bv8, y: bv8)
    ensures Num((x >> 1) | (y << 7)) == Num(x) / 2 + 0x80 * (Num(y) % 2)
  {
    ByteHalves(x);
    ByteHalves(y);
    if y & 1 == 1 {
      assert y << 7 == 0x80;
      TopBit(x);
    } else {
      assert y << 7 == 0 && y & 1 == 0;
    }
  }

  lemma TopBit(x: bv8)
    ensures Num((x >> 1) | 0x80) == Num(x >> 1) + 0x80
  {
  }

  lemma HalfOfSum(x: nat, w: nat)
    ensures (x + 0x100 * w) % 2 == x % 2
    ensures (x + 0x100 * w) / 2 == x / 2 + 0x80 * (w % 2) + 0x100 * (w / 2)
  {
  }

  lemma HalfAbove(x: u8, h: u8, w: nat)
    requires h == x / 2 + 0x80 * (w % 2)
    ensures Above(x, w) % 2 == x % 2 && Above(x, w) / 2 == Above(h, w / 2)
  {
    HalfOfSum(x, w);
  }

  lemma HalfOfBytes(x0: u8, x1: u8, x2: u8, x3: u8, h0: u8, h1: u8, h2: u8)
    requires h0 == x0 / 2 + 0x80 * (x1 % 2) && h1 == x1 / 2 + 0x80 * (x2 % 2) && h2 == x2 / 2 + 0x80 * (x3 % 2)
    ensures var w := Above(x0, Above(x1, Above(x2, x3)));
            w % 2 == x0 % 2 && w / 2 == Above(h0, Above(h1, Above(h2, x3 / 2)))
  {
    HalfAbove(x2, h2, x3);
    HalfAbove(x1, h1, Above(x2, x3));
    HalfAbove(x0, h0, Above(x1, Above(x2, x3)));
  }

  lemma HalfOfReg(r: Reg)
    ensures var h := Half(r);
            && Num(h.x0) == Num(r.x0) / 2 + 0x80 * (Num(r.x1) % 2)
            && Num(h.x1) == Num(r.x1) / 2 + 0x80 * (Num(r.x2) % 2)
            && Num(h.x2) == Num(r.x2) / 2 + 0x80 * (Num(r.x3) % 2)
            && Num(h.x3) == Num(r.x3) / 2
  {
    HalfOfByte(r.x0, r.x1);
    HalfOfByte(r.x1, r.x2);
    HalfOfByte(r.x2, r.x3);
    ByteHalves(r.x3);
  }

  lemma HalfOfValue(r: Reg)
    ensures Value(Half(r)) == Value(r) / 2
    ensures Num(r.x0 & 1) == Value(r) % 2
  {
    var h := Half(r);
    HalfOfReg(r);
    ByteHalves(r.x0);
    HalfOfBytes(Num(r.x0), Num(r.x1), Num(r.x2), Num(r.x3), Num(h.x0), Num(h.x1), Num(h.x2));
  }

  // The polynomial, byte by byte.
  const POLY_BYTES := Reg(0x20, 0x83, 0xB8, 0xED)

  function NextReg(r: Reg): Reg {
    if r.x0 & 1 == 1 then XorReg(Half(r), POLY_BYTES) else Half(r)
  }

  lemma NextIsStep(r: Reg)
    ensures Step(Value(r)) == Value(NextReg(r))
  {
    HalfOfValue(r);
    XorOfValues(Half(r), POLY_BYTES);
    PolyValue();
    OddByte(r.x0);
  }

  lemma PolyValue()
    ensures Value(POLY_BYTES) == POLY
  {
  }

  lemma OddByte(x: bv8)
    ensures Num(x & 1) == 1 <==> x & 1 == 1
  {
  }

  function EightOn(r: Reg): Reg {
    NextReg(NextReg(NextReg(NextReg(NextReg(NextReg(NextReg(NextReg(r))))))))
  }

  lemma {:induction false} StepsAdd(m: nat, n: nat, crc: u32)
    ensures Steps(m + n, crc) == Steps(n, Steps(m, crc))
    decreases m
  {
    if m == 0 {
    } else {
      StepsAdd(m - 1, n, Step(crc));
    }
  }

  lemma TwoSteps(r: Reg)
    ensures Steps(2, Value(r)) == Value(NextReg(NextReg(r)))
  {
    NextIsStep(r);
    NextIsStep(NextReg(r));
    assert Steps(1, Step(Value(r))) == Step(Step(Value(r)));
  }

  lemma EightSteps(r: Reg)
    ensures Steps(8, Value(r)) == Value(EightOn(r))
  {
    var r2 := NextReg(NextReg(r));
    var r4 := NextReg(NextReg(r2));
    var r6 := NextReg(NextReg(r4));
    TwoSteps(r);
    TwoSteps(r2);
    TwoSteps(r4);
    TwoSteps(r6);
    StepsAdd(2, 6, Value(r));
    StepsAdd(2, 4, Value(r2));
    StepsAdd(2, 2, Value(r4));
  }

  lemma XorOfByte(r: Reg, b: bv8)
    ensures XorWord(Value(r), Num(b)) == Value(r.(x0 := r.x0 ^ b))
  {
    var rest := Above(Num(r.x1), Above(Num(r.x2), Num(r.x3)));
    JoinByte(r.x0, b, rest, 0);
    XorCommutes(rest, 0);
  }

  lemma Updated(r: Reg, b: bv8, next: Reg)
    requires next == EightOn(r.(x0 := r.x0 ^ b))
    ensures Update(Value(r), Num(b)) == Value(next)
  {
    XorOfByte(r, b);
    EightSteps(r.(x0 := r.x0 ^ b));
  }

  /* ---------- the check value ---------- */

  lemma FeedOne(crc: u32, s: seq<u8>)
    requires |s| == 1
    ensures Feed(crc, s) == Update(crc, s[0])
  {
  }

  // One lemma to a digit, the last one first: the register before it, and what the rest leaves.
  lemma FromNine(crc: u32, s: seq<u8>)
    requires crc == 0x651F_2550 && s == [0x39]
    ensures Feed(crc, s) == 0x340B_C6D9
  {
    Updated(Reg(0x50, 0x25, 0x1F, 0x65), 0x39, Reg(0xD9, 0xC6, 0x0B, 0x34));
    FeedOne(crc, s);
  }

  lemma FromEight(crc: u32, s: seq<u8>)
    requires crc == 0xAFFC_9660 && s == [0x38, 0x39]
    ensures Feed(crc, s) == 0x340B_C6D9
  {
    Updated(Reg(0x60, 0x96, 0xFC, 0xAF), 0x38, Reg(0x50, 0x25, 0x1F, 0x65));
    FromNine(Update(crc, s[0]), s[1..]);
  }

  lemma FromSeven(crc: u32, s: seq<u8>)
    requires crc == 0xF68D_2C9E && s == [0x37, 0x38, 0x39]
    ensures Feed(crc, s) == 0x340B_C6D9
  {
    Updated(Reg(0x9E, 0x2C, 0x8D, 0xF6), 0x37, Reg(0x60, 0x96, 0xFC, 0xAF));
    FromEight(Update(crc, s[0]), s[1..]);
  }

  lemma FromSix(crc: u32, s: seq<u8>)
    requires crc == 0x340A_C5E3 && s == [0x36, 0x37, 0x38, 0x39]
    ensures Feed(crc, s) == 0x340B_C6D9
  {
    Updated(Reg(0xE3, 0xC5, 0x0A, 0x34), 0x36, Reg(0x9E, 0x2C, 0x8D, 0xF6));
    FromSeven(Update(crc, s[0]), s[1..]);
  }

  lemma FromFive(crc: u32, s: seq<u8>)
    requires crc == 0x641C_1F5C && s == [0x35, 0x36, 0x37, 0x38, 0x39]
    ensures Feed(crc, s) == 0x340B_C6D9
  {
    Updated(Reg(0x5C, 0x1F, 0x1C, 0x64), 0x35, Reg(0xE3, 0xC5, 0x0A, 0x34));
    FromSix(Update(crc, s[0]), s[1..]);
  }

  lemma FromFour(crc: u32, s: seq<u8>)
    requires crc == 0x77B7_9C2D && s == [0x34, 0x35, 0x36, 0x37, 0x38, 0x39]
    ensures Feed(crc, s) == 0x340B_C6D9
  {
    Updated(Reg(0x2D, 0x9C, 0xB7, 0x77), 0x34, Reg(0x5C, 0x1F, 0x1C, 0x64));
    FromFive(Update(crc, s[0]), s[1..]);
  }

  lemma FromThree(crc: u32, s: seq<u8>)
    requires crc == 0xB0AC_BB32 && s == [0x33, 0x34, 0x35, 0x36, 0x37, 0x38, 0x39]
    ensures Feed(crc, s) == 0x340B_C6D9
  {
    Updated(Reg(0x32, 0xBB, 0xAC, 0xB0), 0x33, Reg(0x2D, 0x9C, 0xB7, 0x77));
    FromFour(Update(crc, s[0]), s[1..]);
  }

  lemma FromTwo(crc: u32, s: seq<u8>)
    requires crc == 0x7C23_1048 && s == [0x32, 0x33, 0x34, 0x35, 0x36, 0x37, 0x38, 0x39]
    ensures Feed(crc, s) == 0x340B_C6D9
  {
    Updated(Reg(0x48, 0x10, 0x23, 0x7C), 0x32, Reg(0x32, 0xBB, 0xAC, 0xB0));
    FromThree(Update(crc, s[0]), s[1..]);
  }

  // The published check value: the checksum of the digits 1 to 9 is 0xCBF43926.
  lemma CheckValue(seed: u8, payload: seq<u8>)
    requires seed == 0x31 && payload == [0x32, 0x33, 0x34, 0x35, 0x36, 0x37, 0x38, 0x39]
    ensures Checksum(seed, payload) == 0xCBF4_3926
  {
    Updated(Reg(0xFF, 0xFF, 0xFF, 0xFF), 0x31, Reg(0x48, 0x10, 0x23, 0x7C));
    FromTwo(Update(INIT, seed), payload);
  }

  lemma SixteenSteps(r: Reg, middle: Reg, last: Reg)
    requires middle == EightOn(r) && last == EightOn(middle)
    ensures Steps(16, Value(r)) == Value(last)
  {
    EightSteps(r);
    EightSteps(middle);
    StepsAdd(8, 8, Value(r));
  }

  lemma ThirtyTwoSteps(r: Reg, middle: Reg, last: Reg)
    requires Steps(16, Value(r)) == Value(middle) && Steps(16, Value(middle)) == Value(last)
    ensures Steps(32, Value(r)) == Value(last)
  {
    StepsAdd(16, 16, Value(r));
  }

  // And the register over a whole valid frame ends in 0xDEBB20E3.
  lemma ResidueValue()
    ensures RESIDUE == 0xDEBB_20E3
  {
    var first, middle := Reg(0xFF, 0xFF, 0xFF, 0xFF), Reg(0x00, 0xED, 0x26, 0xBE);
    var last := Reg(0xE3, 0x20, 0xBB, 0xDE);
    SixteenSteps(first, Reg(0x72, 0x10, 0xFD, 0x2D), middle);
    SixteenSteps(middle, Reg(0xED, 0x26, 0xBE, 0x00), last);
    ThirtyTwoSteps(first, middle, last);
  }

  /* ---------- the generator ---------- */

  function ByteBits(x: bv8): (bits: seq<bool>)
    ensures |bits| == 8
  {
    [x & 0x01 == 0x01, x & 0x02 == 0x02, x & 0x04 == 0x04, x & 0x08 == 0x08,
     x & 0x10 == 0x10, x & 0x20 == 0x20, x & 0x40 == 0x40, x & 0x80 == 0x80]
  }

  lemma FourHalves(n: nat, v0: nat, v1: nat, v2: nat, v3: nat, v4: nat)
    requires n >= 4 && v1 == v0 / 2 && v2 == v1 / 2 && v3 == v2 / 2 && v4 == v3 / 2
    ensures BitsOf(n, v0) == [v0 % 2 == 1, v1 % 2 == 1, v2 % 2 == 1, v3 % 2 == 1] + BitsOf(n - 4, v4)
  {
    assert BitsOf(n, v0) == [v0 % 2 == 1] + BitsOf(n - 1, v1);
    assert BitsOf(n - 1, v1) == [v1 % 2 == 1] + BitsOf(n - 2, v2);
    assert BitsOf(n - 2, v2) == [v2 % 2 == 1] + BitsOf(n - 3, v3);
    assert BitsOf(n - 3, v3) == [v3 % 2 == 1] + BitsOf(n - 4, v4);
  }

  lemma HalfAndBit(x: bv8, half: bv8, bit: bool)
    requires half == x >> 1 && bit == (x & 1 == 1)
    ensures Num(half) == Num(x) / 2 && bit == (Num(x) % 2 == 1)
  {
    ByteHalves(x);
    OddByte(x);
  }

  lemma LowHalves(x: bv8)
    ensures Num(x >> 1) == Num(x) / 2 && (x & 0x01 == 0x01) == (Num(x) % 2 == 1)
    ensures Num(x >> 2) == Num(x >> 1) / 2 && (x & 0x02 == 0x02) == (Num(x >> 1) % 2 == 1)
    ensures Num(x >> 3) == Num(x >> 2) / 2 && (x & 0x04 == 0x04) == (Num(x >> 2) % 2 == 1)
    ensures Num(x >> 4) == Num(x >> 3) / 2 && (x & 0x08 == 0x08) == (Num(x >> 3) % 2 == 1)
  {
    HalfAndBit(x, x >> 1, x & 0x01 == 0x01);
    HalfAndBit(x >> 1, x >> 2, x & 0x02 == 0x02);
    HalfAndBit(x >> 2, x >> 3, x & 0x04 == 0x04);
    HalfAndBit(x >> 3, x >> 4, x & 0x08 == 0x08);
  }

  lemma LowFour(x: bv8)
    ensures BitsOf(8, Num(x)) == [x & 0x01 == 0x01, x & 0x02 == 0x02, x & 0x04 == 0x04, x & 0x08 == 0x08]
                                 + BitsOf(4, Num(x >> 4))
  {
    LowHalves(x);
    FourHalves(8, Num(x), Num(x >> 1), Num(x >> 2), Num(x >> 3), Num(x >> 4));
  }

  lemma HighFour(x: bv8)
    ensures BitsOf(4, Num(x >> 4)) == [x & 0x10 == 0x10, x & 0x20 == 0x20, x & 0x40 == 0x40, x & 0x80 == 0x80]
  {
    HalfAndBit(x >> 4, x >> 5, x & 0x10 == 0x10);
    HalfAndBit(x >> 5, x >> 6, x & 0x20 == 0x20);
    HalfAndBit(x >> 6, x >> 7, x & 0x40 == 0x40);
    HalfAndBit(x >> 7, 0, x & 0x80 == 0x80);
    FourHalves(4, Num(x >> 4), Num(x >> 5), Num(x >> 6), Num(x >> 7), 0);
  }

  lemma BitsOfByte(x: bv8)
    ensures BitsOf(8, Num(x)) == ByteBits(x)
  {
    LowFour(x);
    HighFour(x);
  }

  lemma {:induction false} BitsJoin(m: nat, n: nat, x: nat, w: nat)
    requires x < Pow2(m)
    ensures BitsOf(m + n, x + Lifted(m, w)) == BitsOf(m, x) + BitsOf(n, w)
    decreases m
  {
    if m == 0 {
    } else {
      JoinHalves(x, Lifted(m - 1, w));
      BitsJoin(m - 1, n, x / 2, w);
    }
  }

  lemma BitsAbove(n: nat, x: bv8, w: nat)
    ensures BitsOf(8 + n, Above(Num(x), w)) == ByteBits(x) + BitsOf(n, w)
  {
    Pow2Values();
    LiftedEight(w);
    BitsJoin(8, n, Num(x), w);
    BitsOfByte(x);
  }

  lemma BitsOfBytes(x0: bv8, x1: bv8, x2: bv8, x3: bv8, w1: nat, w2: nat)
    requires w2 == Above(Num(x2), Num(x3)) && w1 == Above(Num(x1), w2)
    ensures BitsOf(32, Above(Num(x0), w1)) == ByteBits(x0) + (ByteBits(x1) + (ByteBits(x2) + ByteBits(x3)))
  {
    BitsAbove(24, x0, w1);
    BitsAbove(16, x1, w2);
    BitsAbove(8, x2, Num(x3));
    BitsOfByte(x3);
  }

  const EXPONENTS := {32, 26, 23, 22, 16, 12, 11, 10, 8, 7, 5, 4, 2, 1, 0}

  lemma ByteExponents(j: nat)
    requires j < 8
    ensures ByteBits(0x20)[j] <==> 31 - j in EXPONENTS
    ensures ByteBits(0x83)[j] <==> 23 - j in EXPONENTS
    ensures ByteBits(0xB8)[j] <==> 15 - j in EXPONENTS
    ensures ByteBits(0xED)[j] <==> 7 - j in EXPONENTS
  {
  }

  lemma PolyBits()
    ensures BitsOf(32, POLY) == ByteBits(0x20) + (ByteBits(0x83) + (ByteBits(0xB8) + ByteBits(0xED)))
  {
    PolyValue();
    var x2: bv8, x3: bv8 := 0xB8, 0xED;
    var w2 := Above(Num(x2), Num(x3));
    BitsOfBytes(0x20, 0x83, x2, x3, Above(Num(0x83), w2), w2);
  }

  // The exponents of the generator, x^32 + x^26 + ... + x + 1.
  lemma GeneratorExponents(e: nat)
    requires e <= 32
    ensures Generator()[32 - e] <==> e in {32, 26, 23, 22, 16, 12, 11, 10, 8, 7, 5, 4, 2, 1, 0}
  {
    if e == 32 {
    } else {
      PolyBits();
      ByteExponents((31 - e) % 8);
      assert Generator()[1 + (31 - e)] == BitsOf(32, POLY)[31 - e];
    }
  }
}
