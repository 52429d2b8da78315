/**
 Bytes of bits: their numbers halve and combine as the naturals do, so that exclusive-or of
 literal words can be computed on bits.
 */
module ByteVectors {
  import opened Bits

  function Num(x: bv8): (n: u8) {
    x as nat
  }

  // A byte with a number above it.
  function Above(x: u8, rest: nat): nat {
    x + 0x100 * rest
  }

  lemma ByteHalves(x: bv8)
    ensures Num(x >> 1) == Num(x) / 2 && Num(x & 1) == Num(x) % 2
  {
  }

  lemma XorByHalves(a: nat, b: nat, d: nat)
    requires d % 2 == (a % 2 + b % 2) % 2 && d / 2 == Xor(a / 2, b / 2)
    ensures Xor(a, b) == d
  {
    XorHalves(a, b);
    SameHalves(Xor(a, b), d);
  }

  lemma LowBits(x: bv8, y: bv8)
    ensures Num((x ^ y) & 1) == (Num(x & 1) + Num(y & 1)) % 2
  {
  }

  lemma ShiftedXor(x: bv8, y: bv8)
    ensures (x ^ y) >> 1 == (x >> 1) ^ (y >> 1)
  {
  }

  lemma HalvesOfXorByte(x: bv8, y: bv8)
    ensures Num(x ^ y) % 2 == (Num(x) % 2 + Num(y) % 2) % 2
    ensures Num(x ^ y) / 2 == Num((x >> 1) ^ (y >> 1))
  {
    ByteHalves(x);
    ByteHalves(y);
    ByteHalves(x ^ y);
    LowBits(x, y);
    ShiftedXor(x, y);
  }

  lemma XorByte(x: bv8, y: bv8)
    requires Xor(Num(x >> 1), Num(y >> 1)) == Num((x >> 1) ^ (y >> 1))
    ensures Xor(Num(x), Num(y)) == Num(x ^ y)
  {
    ByteHalves(x);
    ByteHalves(y);
    HalvesOfXorByte(x, y);
    XorByHalves(Num(x), Num(y), Num(x ^ y));
  }

  lemma ZeroByte(y: bv8)
    ensures Num(0) == 0 && 0 ^ y == y
  {
  }

  lemma SmallerByte(x: bv8)
    requires x != 0
    ensures Num(x >> 1) < Num(x)
  {
    ByteHalves(x);
    assert Num(x) != 0;
  }

  lemma {:induction false} XorOfBytes(x: bv8, y: bv8)
    ensures Xor(Num(x), Num(y)) == Num(x ^ y)
    decreases Num(x)
  {
    if x == 0 {
      ZeroByte(y);
    } else {
      SmallerByte(x);
      XorOfBytes(x >> 1, y >> 1);
      XorByte(x, y);
    }
  }

  lemma JoinHalves(x: nat, a: nat)
    ensures (x + 2 * a) % 2 == x % 2 && (x + 2 * a) / 2 == x / 2 + a
  {
  }

  lemma JoinStep(x: nat, y: nat, a: nat, b: nat, d: nat)
    requires Xor(x / 2 + a, y / 2 + b) == Xor(x / 2, y / 2) + d
    ensures Xor(x + 2 * a, y + 2 * b) == Xor(x, y) + 2 * d
  {
    JoinHalves(x, a);
    JoinHalves(y, b);
    JoinHalves(Xor(x, y), d);
    XorHalves(x, y);
    XorByHalves(x + 2 * a, y + 2 * b, Xor(x, y) + 2 * d);
  }

  // Doubled n times.
  function Lifted(n: nat, a: nat): nat {
    if n == 0 then a else 2 * Lifted(n - 1, a)
  }

  lemma LiftedEight(a: nat)
    ensures Lifted(8, a) == 0x100 * a
  {
    assert Lifted(1, a) == 2 * a;
    assert Lifted(2, a) == 4 * a;
    assert Lifted(3, a) == 8 * a;
    assert Lifted(4, a) == 16 * a;
    assert Lifted(5, a) == 32 * a;
    assert Lifted(6, a) == 64 * a;
    assert Lifted(7, a) == 128 * a;
  }

  lemma {:induction false} XorJoin(n: nat, x: nat, y: nat, a: nat, b: nat)
    requires x < Pow2(n) && y < Pow2(n)
    ensures Xor(x + Lifted(n, a), y + Lifted(n, b)) == Xor(x, y) + Lifted(n, Xor(a, b))
  {
    if n == 0 {
    } else {
      XorJoin(n - 1, x / 2, y / 2, a, b);
      JoinLifted(n, x, y, a, b);
    }
  }

  lemma JoinLifted(n: nat, x: nat, y: nat, a: nat, b: nat)
    requires n != 0
    requires Xor(x / 2 + Lifted(n - 1, a), y / 2 + Lifted(n - 1, b)) == Xor(x / 2, y / 2) + Lifted(n - 1, Xor(a, b))
    ensures Xor(x + Lifted(n, a), y + Lifted(n, b)) == Xor(x, y) + Lifted(n, Xor(a, b))
  {
    JoinStep(x, y, Lifted(n - 1, a), Lifted(n - 1, b), Lifted(n - 1, Xor(a, b)));
  }

  lemma JoinEight(x: u8, y: u8, a: nat, b: nat)
    ensures Xor(x + 0x100 * a, y + 0x100 * b) == Xor(x, y) + 0x100 * Xor(a, b)
  {
    Pow2Values();
    XorJoin(8, x, y, a, b);
    LiftedEight(a);
    LiftedEight(b);
    LiftedEight(Xor(a, b));
  }

  lemma JoinAbove(x: u8, y: u8, d: u8, a: nat, b: nat)
    requires Xor(x, y) == d
    ensures Xor(Above(x, a), Above(y, b)) == Above(d, Xor(a, b))
  {
    JoinEight(x, y, a, b);
  }

  lemma JoinByte(x: bv8, y: bv8, a: nat, b: nat)
    ensures Xor(Above(Num(x), a), Above(Num(y), b)) == Above(Num(x ^ y), Xor(a, b))
  {
    XorOfBytes(x, y);
    JoinAbove(Num(x), Num(y), Num(x ^ y), a, b);
  }
}
