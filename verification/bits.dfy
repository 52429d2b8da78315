/**
 Fixed-width unsigned words as naturals: bytes, exclusive-or, little-endian
 encodings and the bits of a word in least-significant-first order.
 */
module Bits {

  type u8 = x: nat | x < 0x100
  type u16 = x: nat | x < 0x1_0000
  type u32 = x: nat | x < 0x1_0000_0000
  type u64 = x: nat | x < 0x1_0000_0000_0000_0000

  function Pow2(n: nat): (p: nat)
    ensures p > 0
  {
    if n == 0 then 1 else 2 * Pow2(n - 1)
  }

  lemma Pow2Values()
    ensures Pow2(8) == 0x100 && Pow2(16) == 0x1_0000 && Pow2(24) == 0x100_0000
    ensures Pow2(31) == 0x8000_0000 && Pow2(32) == 0x1_0000_0000 && Pow2(40) == 0x100_0000_0000
    ensures Pow2(64) == 0x1_0000_0000_0000_0000
  {
    assert Pow2(8) == 0x100;
    assert Pow2(16) == 0x1_0000 by { Pow2Add(8, 8); }
    assert Pow2(24) == 0x100_0000 by { Pow2Add(16, 8); }
    assert Pow2(31) == 0x8000_0000 by { Pow2Add(24, 7); }
    assert Pow2(32) == 0x1_0000_0000 by { Pow2Add(16, 16); }
    assert Pow2(40) == 0x100_0000_0000 by { Pow2Add(32, 8); }
    assert Pow2(64) == 0x1_0000_0000_0000_0000 by { Pow2Add(32, 32); }
  }

  lemma {:induction false} Pow2Add(m: nat, n: nat)
    ensures Pow2(m + n) == Pow2(m) * Pow2(n)
  {
    if m == 0 {
    } else {
      Pow2Add(m - 1, n);
    }
  }

  lemma Pow2Monotone(m: nat, n: nat)
    requires m <= n
    ensures Pow2(m) <= Pow2(n)
  {
    Pow2Add(m, n - m);
    assert Pow2(m) * Pow2(n - m) >= Pow2(m);
  }

  lemma ByteFits(k: nat)
    requires 8 <= k
    ensures Pow2(k) >= 0x100
  {
    Pow2Monotone(8, k);
    assert Pow2(8) == 0x100;
  }

  /* ---------- exclusive-or ---------- */

  function Xor(a: nat, b: nat): nat
    decreases a + b
  {
    if a == 0 then b
    else if b == 0 then a
    else (a % 2 + b % 2) % 2 + 2 * Xor(a / 2, b / 2)
  }

  lemma XorHalves(a: nat, b: nat)
    ensures Xor(a, b) % 2 == (a % 2 + b % 2) % 2
    ensures Xor(a, b) / 2 == Xor(a / 2, b / 2)
  {
    if a != 0 && b != 0 {
      var low, high := (a % 2 + b % 2) % 2, Xor(a / 2, b / 2);
      assert Xor(a, b) == low + 2 * high;
      LowAndRest(low, high);
    } else if a == 0 {
      assert Xor(a, b) == b && Xor(a / 2, b / 2) == b / 2;
    } else {
      assert Xor(a, b) == a && Xor(a / 2, b / 2) == a / 2;
    }
  }

  lemma LowAndRest(low: nat, high: nat)
    requires low < 2
    ensures (low + 2 * high) % 2 == low && (low + 2 * high) / 2 == high
  {
  }

  lemma {:induction false} XorCommutes(a: nat, b: nat)
    ensures Xor(a, b) == Xor(b, a)
    decreases a + b
  {
    if a == 0 || b == 0 {
    } else {
      XorCommutes(a / 2, b / 2);
    }
  }

  lemma SameHalves(x: nat, y: nat)
    requires x % 2 == y % 2 && x / 2 == y / 2
    ensures x == y
  {
  }

  // The halves of an exclusive-or with one of its operands given by its own halves.
  lemma HalvesOfXor(x: nat, c: nat, low: nat, high: nat)
    requires x % 2 == low && x / 2 == high
    ensures Xor(x, c) % 2 == (low + c % 2) % 2
    ensures Xor(x, c) / 2 == Xor(high, c / 2)
    ensures Xor(c, x) % 2 == (c % 2 + low) % 2
    ensures Xor(c, x) / 2 == Xor(c / 2, high)
  {
    XorHalves(x, c);
    XorHalves(c, x);
  }

  lemma {:induction false} XorAssociates(a: nat, b: nat, c: nat)
    ensures Xor(Xor(a, b), c) == Xor(a, Xor(b, c))
    decreases a + b + c
  {
    if a == 0 || b == 0 || c == 0 {
    } else {
      XorAssociates(a / 2, b / 2, c / 2);
      XorHalves(a, b);
      XorHalves(b, c);
      HalvesOfXor(Xor(a, b), c, (a % 2 + b % 2) % 2, Xor(a / 2, b / 2));
      HalvesOfXor(Xor(b, c), a, (b % 2 + c % 2) % 2, Xor(b / 2, c / 2));
      ParityAssociates(a, b, c);
      SameHalves(Xor(Xor(a, b), c), Xor(a, Xor(b, c)));
    }
  }

  lemma ParityAssociates(a: nat, b: nat, c: nat)
    ensures ((a % 2 + b % 2) % 2 + c % 2) % 2 == (a % 2 + (b % 2 + c % 2) % 2) % 2
  {
  }

  lemma {:induction false} XorSelf(a: nat)
    ensures Xor(a, a) == 0
  {
    if a == 0 {
    } else {
      XorSelf(a / 2);
    }
  }

  lemma {:induction false} XorZero(a: nat, b: nat)
    ensures Xor(a, b) == 0 <==> a == b
    decreases a + b
  {
    if a == 0 || b == 0 {
    } else {
      XorZero(a / 2, b / 2);
    }
  }

  lemma XorCancel(a: nat, b: nat, c: nat)
    ensures Xor(a, b) == Xor(a, c) <==> b == c
    ensures Xor(a, Xor(a, b)) == b
  {
    XorAssociates(a, a, b);
    XorAssociates(a, a, c);
    XorSelf(a);
  }

  lemma XorFour(a: nat, p: nat, b: nat, q: nat)
    ensures Xor(Xor(a, p), Xor(b, q)) == Xor(Xor(a, b), Xor(p, q))
  {
    XorAssociates(a, p, Xor(b, q));
    XorAssociates(p, b, q);
    XorCommutes(p, b);
    XorAssociates(b, p, q);
    XorAssociates(a, b, Xor(p, q));
  }

  lemma {:induction false} XorBound(n: nat, a: nat, b: nat)
    requires a < Pow2(n) && b < Pow2(n)
    ensures Xor(a, b) < Pow2(n)
  {
    if n == 0 {
    } else {
      XorBound(n - 1, a / 2, b / 2);
      XorHalves(a, b);
    }
  }

  // The low n bits of an exclusive-or depend on the low n bits of its operands only.
  lemma {:induction false} XorLow(n: nat, a: nat, b: nat)
    ensures Xor(a, b) % Pow2(n) == Xor(a % Pow2(n), b % Pow2(n))
  {
    if n == 0 {
    } else {
      HalfMod(n, a);
      HalfMod(n, b);
      HalfMod(n, Xor(a, b));
      XorHalves(a, b);
      XorHalves(a % Pow2(n), b % Pow2(n));
      XorLow(n - 1, a / 2, b / 2);
    }
  }

  lemma HalfMod(n: nat, a: nat)
    requires n != 0
    ensures a % Pow2(n) % 2 == a % 2
    ensures a % Pow2(n) / 2 == a / 2 % Pow2(n - 1)
  {
    var p, q, r := Pow2(n - 1), a / 2 / Pow2(n - 1), a / 2 % Pow2(n - 1);
    assert a / 2 == q * p + r;
    assert a == q * (2 * p) + (2 * r + a % 2) by {
      assert q * (2 * p) == 2 * (q * p);
    }
    DivModUnique(a, 2 * p, q, 2 * r + a % 2);
  }

  lemma DivModUnique(a: nat, d: nat, q: nat, r: nat)
    requires d > 0 && r < d && a == q * d + r
    ensures a / d == q && a % d == r
  {
    var k := q - a / d;
    assert k * d == a % d - r by {
      assert k * d == q * d - a / d * d;
    }
    SmallMultiple(k, d);
  }

  lemma SmallMultiple(k: int, d: nat)
    requires -(d as int) < k * d < d
    ensures k == 0
  {
  }

  // A difference of counters survives reduction of both.
  lemma WrappedDifference(a: nat, b: nat, m: nat)
    requires m > 0
    ensures (b % m - a % m) % m == (b - a) % m
  {
    var q := b / m - a / m;
    assert b - a == q * m + (b % m - a % m) by {
      assert q * m == b / m * m - a / m * m;
    }
    ShiftByMultiple(b % m - a % m, q, m);
  }

  lemma ShiftByMultiple(x: int, q: int, m: nat)
    requires m > 0
    ensures (q * m + x) % m == x % m
  {
    var y := q * m + x;
    var k := y / m - q - x / m;
    assert k * m == x % m - y % m by {
      assert k * m == y / m * m - q * m - x / m * m;
    }
    SmallMultiple(k, m);
  }

  lemma FromComplement(a: nat, rest: nat, x: nat)
    requires x % 2 == (a % 2 + 1) % 2 && x / 2 == rest - a / 2
    ensures x == 1 + 2 * rest - a
  {
  }

  lemma OddHalves(a: nat, rest: nat)
    ensures Xor(a, 1 + 2 * rest) % 2 == (a % 2 + 1) % 2
    ensures Xor(a, 1 + 2 * rest) / 2 == Xor(a / 2, rest)
  {
    LowAndRest(1, rest);
    XorHalves(a, 1 + 2 * rest);
  }

  // The complement of a word is its exclusive-or with all ones.
  lemma {:induction false} XorOnes(n: nat, a: nat)
    requires a < Pow2(n)
    ensures Xor(a, Pow2(n) - 1) == Pow2(n) - 1 - a
  {
    if n == 0 {
    } else {
      var rest := Pow2(n - 1) - 1;
      OddHalves(a, rest);
      XorOnes(n - 1, a / 2);
      FromComplement(a, rest, Xor(a, 1 + 2 * rest));
    }
  }

  /* ---------- bits of a word ---------- */

  function BitsOf(n: nat, w: nat): (bits: seq<bool>)
    ensures |bits| == n
  {
    if n == 0 then [] else [w % 2 == 1] + BitsOf(n - 1, w / 2)
  }

  function Bit(b: bool): nat {
    if b then 1 else 0
  }

  function Word(bits: seq<bool>): nat {
    if bits == [] then 0 else Bit(bits[0]) + 2 * Word(bits[1..])
  }

  lemma {:induction false} WordBound(bits: seq<bool>)
    ensures Word(bits) < Pow2(|bits|)
  {
    if bits == [] {
    } else {
      WordBound(bits[1..]);
    }
  }

  lemma {:induction false} WordOfBits(n: nat, w: nat)
    requires w < Pow2(n)
    ensures Word(BitsOf(n, w)) == w
  {
    if n == 0 {
    } else {
      WordOfBits(n - 1, w / 2);
    }
  }

  /* ---------- little-endian byte strings ---------- */

  function EncodeLE(n: nat, w: nat): (s: seq<u8>)
    ensures |s| == n
  {
    if n == 0 then [] else [w % 256] + EncodeLE(n - 1, w / 256)
  }

  function DecodeLE(s: seq<u8>): nat {
    if s == [] then 0 else s[0] + 256 * DecodeLE(s[1..])
  }

  function Pow256(n: nat): (p: nat)
    ensures p > 0
  {
    if n == 0 then 1 else 256 * Pow256(n - 1)
  }

  lemma Pow256Values()
    ensures Pow256(2) == 0x1_0000 && Pow256(4) == 0x1_0000_0000 && Pow256(8) == 0x1_0000_0000_0000_0000
  {
    assert Pow256(2) == 0x1_0000;
    assert Pow256(4) == 0x1_0000_0000;
    assert Pow256(6) == 0x1_0000_0000_0000;
  }

  lemma {:induction false} DecodeBound(s: seq<u8>)
    ensures DecodeLE(s) < Pow256(|s|)
  {
    if s == [] {
    } else {
      DecodeBound(s[1..]);
    }
  }

  lemma {:induction false} DecodeEncode(n: nat, w: nat)
    requires w < Pow256(n)
    ensures DecodeLE(EncodeLE(n, w)) == w
  {
    if n == 0 {
    } else {
      DecodeEncode(n - 1, w / 256);
    }
  }

  lemma {:induction false} EncodeDecode(s: seq<u8>)
    ensures EncodeLE(|s|, DecodeLE(s)) == s
  {
    if s == [] {
    } else {
      var rest := DecodeLE(s[1..]);
      DivModUnique(DecodeLE(s), 256, rest, s[0]);
      EncodeDecode(s[1..]);
      assert s == [s[0]] + s[1..];
    }
  }

  // A word from its bytes, low byte first, written out.
  function Word16(a: nat, b: nat): nat {
    a + 0x100 * b
  }

  function Word32(a: nat, b: nat, c: nat, d: nat): nat {
    a + 0x100 * b + 0x1_0000 * c + 0x100_0000 * d
  }

  lemma DigitAndRest(s: seq<u8>, i: nat)
    requires i < |s|
    ensures DecodeLE(s[i..]) == s[i] + 0x100 * DecodeLE(s[i + 1..])
  {
    assert s[i..][1..] == s[i + 1..];
  }

  lemma TwoDigits(s: seq<u8>)
    requires |s| == 2
    ensures DecodeLE(s) == Word16(s[0], s[1])
  {
    DigitAndRest(s, 0);
    DigitAndRest(s, 1);
  }

  lemma FourDigits(s: seq<u8>)
    requires |s| == 4
    ensures DecodeLE(s) == Word32(s[0], s[1], s[2], s[3])
  {
    DigitAndRest(s, 0);
    DigitAndRest(s, 1);
    DigitAndRest(s, 2);
    DigitAndRest(s, 3);
  }

  lemma EightDigits(s: seq<u8>)
    requires |s| == 8
    ensures DecodeLE(s) == Word32(s[0], s[1], s[2], s[3]) + 0x1_0000_0000 * Word32(s[4], s[5], s[6], s[7])
  {
    DigitAndRest(s, 0);
    DigitAndRest(s, 1);
    DigitAndRest(s, 2);
    DigitAndRest(s, 3);
    var high := s[4..];
    FourDigits(high);
  }

  lemma SliceOfSlice(p: seq<u8>, at: nat, n: nat, i: nat, j: nat)
    requires i <= j <= n && at + n <= |p|
    ensures p[at..at + n][i..j] == p[at + i..at + j]
  {
    var x, y := p[at..at + n][i..j], p[at + i..at + j];
    assert forall k :: 0 <= k < j - i ==> x[k] == y[k];
  }

  /* ---------- signed 16-bit words ---------- */

  type i16 = x: int | -0x8000 <= x < 0x8000

  function ReadI16(s: seq<u8>, at: nat): i16
    requires at + 1 < |s|
  {
    var w := (s[at] as nat) + 256 * (s[at + 1] as nat);
    if w < 0x8000 then w else w - 0x1_0000
  }

  function WriteI16(x: i16): (s: seq<u8>)
    ensures |s| == 2
  {
    var w: nat := if x < 0 then x + 0x1_0000 else x;
    [w % 256, w / 256]
  }

  lemma I16RoundTrip(s: seq<u8>, at: nat, x: i16)
    requires at + 1 < |s| && s[at] == WriteI16(x)[0] && s[at + 1] == WriteI16(x)[1]
    ensures ReadI16(s, at) == x
  {
  }
}
