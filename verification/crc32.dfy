/**
 The reflected CRC-32 that closes every DualSense / DualShock 4 Bluetooth output
 report (section 8 of RFC 1952).  The register is shifted right one bit at a time;
 that bit step is linear over exclusive-or and injective, and both facts carry to
 messages of any length.
 */
module Crc32 {
  import opened Bits

  const POLY: u32 := 0xEDB8_8320
  const INIT: u32 := 0xFFFF_FFFF

  /* ---------- the register ---------- */

  function Step(crc: u32): u32 {
    Pow2Values();
    XorBound(32, crc / 2, POLY);
    if crc % 2 == 1 then Xor(crc / 2, POLY) else crc / 2
  }

  function Steps(n: nat, crc: u32): u32 {
    if n == 0 then crc else Steps(n - 1, Step(crc))
  }

  function XorWord(a: u32, b: u32): u32 {
    Pow2Values();
    XorBound(32, a, b);
    Xor(a, b)
  }

  function Update(crc: u32, b: u8): u32 {
    Steps(8, XorWord(crc, b))
  }

  function Feed(crc: u32, s: seq<u8>): u32
    decreases |s|
  {
    if s == [] then crc else Feed(Update(crc, s[0]), s[1..])
  }

  function Complement(w: u32): u32 {
    0xFFFF_FFFF - w
  }

  function Checksum(seed: u8, payload: seq<u8>): u32 {
    Complement(Feed(Update(INIT, seed), payload))
  }

  method UpdateRegister(start: u32, b: u8) returns (crc: u32)
    ensures crc == Update(start, b)
  {
    crc := XorWord(start, b);
    for i := 0 to 8
      invariant Steps(8 - i, crc) == Update(start, b)
    {
      var mask := if crc % 2 == 1 then POLY else 0;
      XorCommutes(crc / 2, 0);
      crc := XorWord(crc / 2, mask);
    }
  }

  method WithSeed(seed: u8, payload: seq<u8>) returns (sum: u32)
    ensures sum == Checksum(seed, payload)
  {
    var crc := UpdateRegister(INIT, seed);
    for i := 0 to |payload|
      invariant Feed(crc, payload[i..]) == Feed(Update(INIT, seed), payload)
    {
      assert payload[i..][1..] == payload[i + 1..];
      crc := UpdateRegister(crc, payload[i]);
    }
    assert payload[|payload|..] == [];
    sum := Complement(crc);
  }

  /* ---------- linearity and injectivity of the step ---------- */

  lemma MaskLinear(p: nat, q: nat, m: nat, s: bool, t: bool)
    ensures Xor(if s then Xor(p, m) else p, if t then Xor(q, m) else q)
         == if s != t then Xor(Xor(p, q), m) else Xor(p, q)
  {
    if s && t {
      XorFour(p, m, q, m);
      XorSelf(m);
      XorCommutes(Xor(p, q), 0);
    } else if s {
      XorCommutes(q, m);
      XorAssociates(p, m, q);
      XorAssociates(p, q, m);
    } else if t {
      XorAssociates(p, q, m);
    }
  }

  lemma OddSum(p: nat, q: nat)
    requires p < 2 && q < 2
    ensures (p + q) % 2 == 1 <==> (p == 1) != (q == 1)
  {
  }

  lemma OddXor(a: nat, b: nat)
    ensures Xor(a, b) % 2 == 1 <==> (a % 2 == 1) != (b % 2 == 1)
    ensures Xor(a, b) / 2 == Xor(a / 2, b / 2)
  {
    XorHalves(a, b);
    OddSum(a % 2, b % 2);
  }

  lemma StepIs(crc: u32)
    ensures Step(crc) == if crc % 2 == 1 then Xor(crc / 2, POLY) else crc / 2
  {
  }

  lemma StepOfXor(a: u32, b: u32)
    ensures Step(XorWord(a, b)) ==
            if (a % 2 == 1) != (b % 2 == 1) then Xor(Xor(a / 2, b / 2), POLY) else Xor(a / 2, b / 2)
  {
    OddXor(a, b);
    StepIs(XorWord(a, b));
  }

  lemma StepLinear(a: u32, b: u32)
    ensures Step(XorWord(a, b)) == XorWord(Step(a), Step(b))
  {
    StepOfXor(a, b);
    MaskLinear(a / 2, b / 2, POLY, a % 2 == 1, b % 2 == 1);
  }

  lemma {:induction false} StepsLinear(n: nat, a: u32, b: u32)
    ensures Steps(n, XorWord(a, b)) == XorWord(Steps(n, a), Steps(n, b))
  {
    if n == 0 {
    } else {
      StepLinear(a, b);
      StepsLinear(n - 1, Step(a), Step(b));
    }
  }

  // The generator has a constant term, so no nonzero register steps to zero.
  lemma StepZero(a: u32)
    ensures Step(a) == 0 <==> a == 0
  {
    XorZero(a / 2, POLY);
  }

  lemma {:induction false} StepsZero(n: nat, a: u32)
    ensures Steps(n, a) == 0 <==> a == 0
  {
    if n == 0 {
    } else {
      StepZero(a);
      StepsZero(n - 1, Step(a));
    }
  }

  lemma StepsInjective(n: nat, a: u32, b: u32)
    ensures Steps(n, a) == Steps(n, b) <==> a == b
  {
    StepsLinear(n, a, b);
    StepsZero(n, XorWord(a, b));
    XorZero(a, b);
    XorZero(Steps(n, a), Steps(n, b));
  }

  lemma {:induction false} FeedConcat(crc: u32, s: seq<u8>, t: seq<u8>)
    ensures Feed(crc, s + t) == Feed(Feed(crc, s), t)
    decreases |s|
  {
    if s == [] {
      assert s + t == t;
    } else {
      assert (s + t)[1..] == s[1..] + t;
      FeedConcat(Update(crc, s[0]), s[1..], t);
    }
  }

  /* ---------- the register bit by bit ---------- */

  function FeedBits(crc: u32, bits: seq<bool>): u32
    decreases |bits|
  {
    if bits == [] then crc else FeedBits(Step(XorWord(crc, Bit(bits[0]))), bits[1..])
  }

  // The bits of a byte string in the order the register consumes them.
  function PayloadBits(s: seq<u8>): (bits: seq<bool>)
    ensures |bits| == 8 * |s|
  {
    if s == [] then [] else BitsOf(8, s[0]) + PayloadBits(s[1..])
  }

  // Up to 32 bits fed one at a time are the same as xoring the packed word in first.
  lemma {:induction false} FeedBitsIsWord(crc: u32, bits: seq<bool>)
    requires |bits| <= 32
    ensures Word(bits) <= 0xFFFF_FFFF
    ensures FeedBits(crc, bits) == Steps(|bits|, XorWord(crc, Word(bits)))
    decreases |bits|
  {
    WordFits(bits);
    if bits == [] {
      XorCommutes(crc, 0);
    } else {
      var b, w := Bit(bits[0]), Word(bits[1..]);
      WordBound(bits[1..]);
      Pow2Monotone(|bits| - 1, 31);
      Pow2Values();
      BitAndRest(b, w);
      XorAssociates(crc, b, 2 * w);
      StepLinear(XorWord(crc, b), 2 * w);
      FeedBitsIsWord(Step(XorWord(crc, b)), bits[1..]);
    }
  }

  lemma WordFits(bits: seq<bool>)
    requires |bits| <= 32
    ensures Word(bits) <= 0xFFFF_FFFF
  {
    WordBound(bits);
    Pow2Monotone(|bits|, 32);
    Pow2Values();
  }

  lemma BitAndRest(b: nat, w: nat)
    requires b <= 1
    ensures b + 2 * w == Xor(b, 2 * w)
  {
    XorHalves(b, 2 * w);
  }

  lemma {:induction false} FeedBitsConcat(crc: u32, x: seq<bool>, y: seq<bool>)
    ensures FeedBits(crc, x + y) == FeedBits(FeedBits(crc, x), y)
    decreases |x|
  {
    if x == [] {
      assert x + y == y;
    } else {
      assert (x + y)[1..] == x[1..] + y;
      FeedBitsConcat(Step(XorWord(crc, Bit(x[0]))), x[1..], y);
    }
  }

  // The byte register is the bit register run over the payload's bits.
  lemma {:induction false} FeedIsFeedBits(crc: u32, s: seq<u8>)
    ensures Feed(crc, s) == FeedBits(crc, PayloadBits(s))
    decreases |s|
  {
    if s == [] {
    } else {
      FeedBitsIsWord(crc, BitsOf(8, s[0]));
      Pow2Values();
      WordOfBits(8, s[0]);
      FeedBitsConcat(crc, BitsOf(8, s[0]), PayloadBits(s[1..]));
      FeedIsFeedBits(Update(crc, s[0]), s[1..]);
    }
  }

  /* ---------- which errors the checksum detects ---------- */

  function XorBits(x: seq<bool>, y: seq<bool>): (d: seq<bool>)
    requires |x| == |y|
    ensures |d| == |x| && forall i :: 0 <= i < |d| ==> (d[i] <==> x[i] != y[i])
  {
    seq(|x|, i requires 0 <= i < |x| => x[i] != y[i])
  }

  lemma {:induction false} FeedBitsLinear(a: u32, b: u32, x: seq<bool>, y: seq<bool>)
    requires |x| == |y|
    ensures XorWord(FeedBits(a, x), FeedBits(b, y)) == FeedBits(XorWord(a, b), XorBits(x, y))
    decreases |x|
  {
    var d := XorBits(x, y);
    if x != [] {
      assert d[1..] == XorBits(x[1..], y[1..]);
      var p, q := Bit(x[0]), Bit(y[0]);
      XorFour(a, p, b, q);
      assert Bit(d[0]) == Xor(p, q);
      StepLinear(XorWord(a, p), XorWord(b, q));
      FeedBitsLinear(Step(XorWord(a, p)), Step(XorWord(b, q)), x[1..], y[1..]);
    } else {
      assert d == [];
    }
  }

  predicate AllZero(bits: seq<bool>) {
    forall i :: 0 <= i < |bits| ==> !bits[i]
  }

  lemma {:induction false} FeedZeros(crc: u32, bits: seq<bool>)
    requires AllZero(bits)
    ensures FeedBits(crc, bits) == Steps(|bits|, crc)
    decreases |bits|
  {
    if bits == [] {
    } else {
      XorCommutes(crc, 0);
      FeedZeros(Step(crc), bits[1..]);
    }
  }

  lemma {:induction false} WordZero(bits: seq<bool>)
    ensures Word(bits) == 0 <==> AllZero(bits)
  {
    if bits == [] {
    } else {
      WordZero(bits[1..]);
      AllZeroSplit(bits);
    }
  }

  lemma AllZeroSplit(bits: seq<bool>)
    requires bits != []
    ensures AllZero(bits) <==> !bits[0] && AllZero(bits[1..])
  {
    assert forall i :: 0 < i < |bits| ==> bits[i] == bits[1..][i - 1];
  }

  // The 33-bit difference that is the generator polynomial itself.
  predicate IsGenerator(d: seq<bool>) {
    |d| == 33 && d[0] && Word(d[1..]) == POLY
  }

  // Within 33 consecutive bits only the generator returns the register to zero.
  lemma ShortDifference(d: seq<bool>)
    requires |d| <= 33
    ensures FeedBits(0, d) == 0 <==> AllZero(d) || IsGenerator(d)
  {
    if d != [] {
      var w := d[1..];
      var first := Step(Bit(d[0]));
      assert first == if d[0] then POLY else 0;
      FeedBitsIsWord(first, w);
      StepsZero(|w|, XorWord(first, Word(w)));
      XorZero(first, Word(w));
      WordZero(w);
      AllZeroSplit(d);
      if |w| <= 31 {
        WordBound(w);
        Pow2Monotone(|w|, 31);
        Pow2Values();
      }
    }
  }

  predicate DifferOnlyIn(x: seq<bool>, y: seq<bool>, lo: nat, hi: nat)
    requires |x| == |y|
  {
    forall k :: 0 <= k < |x| && !(lo <= k < hi) ==> x[k] == y[k]
  }

  // The register of an all-zero prefix, a window and an all-zero suffix.
  lemma WindowDifference(d: seq<bool>, lo: nat, hi: nat)
    requires lo <= hi <= |d| && hi - lo <= 33
    requires AllZero(d[..lo]) && AllZero(d[hi..])
    ensures FeedBits(0, d) == 0 <==> AllZero(d[lo..hi]) || IsGenerator(d[lo..hi])
  {
    var before, window, after := d[..lo], d[lo..hi], d[hi..];
    assert d == before + (window + after);
    FeedBitsConcat(0, before, window + after);
    FeedZeros(0, before);
    StepsZero(lo, 0);
    FeedBitsConcat(0, window, after);
    FeedZeros(FeedBits(0, window), after);
    StepsZero(|after|, FeedBits(0, window));
    ShortDifference(window);
  }

  lemma EqualChecksums(seed: u8, x: seq<u8>, y: seq<u8>)
    requires |x| == |y|
    ensures Checksum(seed, x) == Checksum(seed, y) <==> FeedBits(0, XorBits(PayloadBits(x), PayloadBits(y))) == 0
  {
    var start := Update(INIT, seed);
    FeedIsFeedBits(start, x);
    FeedIsFeedBits(start, y);
    FeedBitsLinear(start, start, PayloadBits(x), PayloadBits(y));
    XorSelf(start);
    XorZero(Feed(start, x), Feed(start, y));
  }

  // Two equal-length payloads whose bits differ only inside a run of at most 33 bits
  // collide exactly when they are equal or their difference is the generator.
  lemma BurstCollision(seed: u8, x: seq<u8>, y: seq<u8>, lo: nat, hi: nat)
    requires |x| == |y| && lo <= hi <= 8 * |x| && hi - lo <= 33
    requires DifferOnlyIn(PayloadBits(x), PayloadBits(y), lo, hi)
    ensures Checksum(seed, x) == Checksum(seed, y) <==>
            x == y || IsGenerator(XorBits(PayloadBits(x), PayloadBits(y))[lo..hi])
  {
    var p, q := PayloadBits(x), PayloadBits(y);
    EqualChecksums(seed, x, y);
    WindowDifference(XorBits(p, q), lo, hi);
    SameOutsideWindow(p, q, lo, hi);
    PayloadBitsInjective(x, y);
  }

  lemma SameOutsideWindow(p: seq<bool>, q: seq<bool>, lo: nat, hi: nat)
    requires |p| == |q| && lo <= hi <= |p| && DifferOnlyIn(p, q, lo, hi)
    ensures p == q <==> AllZero(XorBits(p, q)[lo..hi])
  {
    var d := XorBits(p, q);
    var window := d[lo..hi];
    if AllZero(window) {
      forall k | 0 <= k < |p| ensures p[k] == q[k] {
        if lo <= k < hi {
          assert window[k - lo] == d[k];
        }
      }
    } else {
      var k :| 0 <= k < |window| && window[k];
      assert d[lo + k];
    }
  }

  lemma {:induction false} PayloadBitsAt(s: seq<u8>, j: nat, t: nat)
    requires j < |s| && t < 8
    ensures PayloadBits(s)[8 * j + t] == BitsOf(8, s[j])[t]
  {
    if j == 0 {
    } else {
      PayloadBitsAt(s[1..], j - 1, t);
      assert PayloadBits(s)[8 * j + t] == PayloadBits(s[1..])[8 * (j - 1) + t];
    }
  }

  lemma ByteBitsInjective(a: u8, b: u8)
    ensures BitsOf(8, a) == BitsOf(8, b) <==> a == b
  {
    Pow2Values();
    WordOfBits(8, a);
    WordOfBits(8, b);
  }

  lemma {:induction false} PayloadBitsInjective(x: seq<u8>, y: seq<u8>)
    requires |x| == |y|
    ensures PayloadBits(x) == PayloadBits(y) <==> x == y
  {
    if x == [] {
    } else {
      PayloadBitsInjective(x[1..], y[1..]);
      var p, q := PayloadBits(x), PayloadBits(y);
      assert p[..8] == BitsOf(8, x[0]) && p[8..] == PayloadBits(x[1..]);
      assert q[..8] == BitsOf(8, y[0]) && q[8..] == PayloadBits(y[1..]);
      ByteBitsInjective(x[0], y[0]);
      assert x == [x[0]] + x[1..] && y == [y[0]] + y[1..];
    }
  }

  // Corrupting any four consecutive bytes is always detected.
  lemma FourByteWindowDetected(seed: u8, x: seq<u8>, y: seq<u8>, at: nat)
    requires |x| == |y| && x != y
    requires forall j :: 0 <= j < |x| && !(at <= j < at + 4) ==> x[j] == y[j]
    ensures Checksum(seed, x) != Checksum(seed, y)
  {
    var p, q := PayloadBits(x), PayloadBits(y);
    var lo := if at <= |x| then 8 * at else 8 * |x|;
    var hi := if at + 4 <= |x| then 8 * (at + 4) else 8 * |x|;
    forall k | 0 <= k < |p| && !(lo <= k < hi) ensures p[k] == q[k] {
      PayloadBitsAt(x, k / 8, k % 8);
      PayloadBitsAt(y, k / 8, k % 8);
    }
    PayloadBitsInjective(x, y);
    BurstCollision(seed, x, y, lo, hi);
  }

  /* ---------- five bytes are one too many ---------- */

  lemma {:induction false} WordOfPayload(s: seq<u8>)
    ensures Word(PayloadBits(s)) == DecodeLE(s)
  {
    if s == [] {
    } else {
      WordOfPayload(s[1..]);
      WordConcat(BitsOf(8, s[0]), PayloadBits(s[1..]));
      Pow2Values();
      WordOfBits(8, s[0]);
    }
  }

  lemma {:induction false} WordConcat(x: seq<bool>, y: seq<bool>)
    ensures Word(x + y) == Word(x) + Pow2(|x|) * Word(y)
  {
    if x == [] {
      assert x + y == y;
    } else {
      assert (x + y)[1..] == x[1..] + y;
      WordConcat(x[1..], y);
    }
  }

  lemma GeneratorInFortyBits(d: seq<bool>)
    requires |d| == 40 && Word(d) == 1 + 2 * POLY
    ensures IsGenerator(d[0..33]) && AllZero(d[33..])
  {
    var window, rest := d[1..33], d[33..];
    assert d[1..] == window + rest;
    WordConcat(window, rest);
    Pow2Values();
    WordBound(window);
    WordZero(rest);
    assert d[0..33][1..] == window;
  }

  // The generator fits in five bytes, so a five-byte window can collide.
  lemma FiveByteWindowCollides(seed: u8)
    ensures var x, y := EncodeLE(5, 0), EncodeLE(5, 1 + 2 * POLY);
            x != y && Checksum(seed, x) == Checksum(seed, y)
  {
    var x, y := EncodeLE(5, 0), EncodeLE(5, 1 + 2 * POLY);
    Pow256Values();
    assert Pow256(5) == 256 * Pow256(4);
    DecodeEncode(5, 0);
    DecodeEncode(5, 1 + 2 * POLY);
    WordOfPayload(x);
    WordOfPayload(y);
    WordZero(PayloadBits(x));
    var d := XorBits(PayloadBits(x), PayloadBits(y));
    assert d == PayloadBits(y);
    GeneratorInFortyBits(d);
    EqualChecksums(seed, x, y);
    assert d[..0] == [];
    WindowDifference(d, 0, 33);
  }

  /* ---------- the residue of a message followed by its own checksum ---------- */

  lemma FourBytesAreOneWord(crc: u32, t: seq<u8>)
    requires |t| == 4
    ensures DecodeLE(t) <= 0xFFFF_FFFF
    ensures Feed(crc, t) == Steps(32, XorWord(crc, DecodeLE(t)))
  {
    FeedIsFeedBits(crc, t);
    FeedBitsIsWord(crc, PayloadBits(t));
    WordOfPayload(t);
  }

  // What 32 steps make of an all-ones register: the one residue of every valid frame.
  const RESIDUE: u32 := Steps(32, 0xFFFF_FFFF)

  lemma XorMeets(a: nat, b: nat, c: nat)
    ensures Xor(a, b) == c <==> b == Xor(a, c)
  {
    XorCancel(a, b, Xor(a, c));
    XorCancel(a, c, 0);
  }

  lemma AllOnesIff(r: u32, w: u32)
    ensures XorWord(r, w) == 0xFFFF_FFFF <==> w == Complement(r)
  {
    Pow2Values();
    XorOnes(32, r);
    XorMeets(r, w, Pow2(32) - 1);
  }

  lemma WordIs(t: seq<u8>, w: u32)
    requires |t| == 4
    ensures DecodeLE(t) == w <==> t == EncodeLE(4, w)
  {
    Pow256Values();
    EncodeDecode(t);
    DecodeEncode(4, w);
  }

  // A body followed by four bytes leaves the fixed residue exactly when those
  // bytes are the little-endian checksum of the body.
  lemma ResidueIffChecksum(seed: u8, body: seq<u8>, trailer: seq<u8>)
    requires |trailer| == 4
    ensures Feed(Update(INIT, seed), body + trailer) == RESIDUE <==>
            trailer == EncodeLE(4, Checksum(seed, body))
  {
    var r := Feed(Update(INIT, seed), body);
    var w := DecodeLE(trailer);
    FeedConcat(Update(INIT, seed), body, trailer);
    FourBytesAreOneWord(r, trailer);
    StepsInjective(32, XorWord(r, w), 0xFFFF_FFFF);
    AllOnesIff(r, w);
    WordIs(trailer, Complement(r));
  }
}
