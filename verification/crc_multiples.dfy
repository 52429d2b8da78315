/**
 Which errors of any length the checksum misses: the carry-less multiples of its generator.
 */
module CrcMultiples {
  import opened Bits
  import opened Crc32

  // The 33 coefficients of the generator, highest degree first, as the register meets them.
  function Generator(): (g: seq<bool>)
    ensures |g| == 33
  {
    [true] + BitsOf(32, POLY)
  }

  function Zeros(n: nat): (z: seq<bool>)
    ensures |z| == n
  {
    seq(n, i => false)
  }

  // The first bit of a quotient: the generator, or nothing, shifted to the front.
  function Leading(b: bool, rest: nat): (s: seq<bool>)
    ensures |s| == rest + 33
  {
    if b then Generator() + Zeros(rest) else Zeros(rest + 33)
  }

  // The carry-less product of a bit string and the generator.
  function Product(q: seq<bool>): (d: seq<bool>)
    ensures |d| == |q| + 32
  {
    if q == [] then Zeros(32) else XorBits(Leading(q[0], |q| - 1), [false] + Product(q[1..]))
  }

  lemma GeneratorVanishes()
    ensures IsGenerator(Generator()) && FeedBits(0, Generator()) == 0
  {
    var g := Generator();
    Pow2Values();
    WordOfBits(32, POLY);
    assert g[1..] == BitsOf(32, POLY);
    ShortDifference(g);
  }

  lemma ZerosVanish(n: nat)
    ensures FeedBits(0, Zeros(n)) == 0
  {
    FeedZeros(0, Zeros(n));
    StepsZero(n, 0);
  }

  lemma LeadingVanishes(b: bool, rest: nat)
    ensures FeedBits(0, Leading(b, rest)) == 0
  {
    if b {
      GeneratorVanishes();
      FeedBitsConcat(0, Generator(), Zeros(rest));
      ZerosVanish(rest);
    } else {
      ZerosVanish(rest + 33);
    }
  }

  lemma LeadingZero(d: seq<bool>)
    ensures FeedBits(0, [false] + d) == FeedBits(0, d)
  {
    var all := [false] + d;
    assert all[1..] == d && Bit(all[0]) == 0;
    XorSelf(0);
  }

  // Two strings of which one vanishes leave the register as their difference does.
  lemma VanishingDifference(x: seq<bool>, y: seq<bool>)
    requires |x| == |y| && FeedBits(0, x) == 0
    ensures FeedBits(0, XorBits(x, y)) == FeedBits(0, y)
  {
    FeedBitsLinear(0, 0, x, y);
    XorSelf(0);
  }

  lemma {:induction false} ProductVanishes(q: seq<bool>)
    ensures FeedBits(0, Product(q)) == 0
  {
    if q == [] {
      ZerosVanish(32);
    } else {
      var tail := Product(q[1..]);
      ProductVanishes(q[1..]);
      LeadingVanishes(q[0], |q| - 1);
      LeadingZero(tail);
      VanishingDifference(Leading(q[0], |q| - 1), [false] + tail);
    }
  }

  lemma XorBitsCancel(x: seq<bool>, y: seq<bool>)
    requires |x| == |y|
    ensures XorBits(x, XorBits(x, y)) == y
  {
  }

  lemma ProductCons(b: bool, tail: seq<bool>)
    ensures Product([b] + tail) == XorBits(Leading(b, |tail|), [false] + Product(tail))
  {
    assert ([b] + tail)[1..] == tail;
  }

  lemma VanishingRest(lead: seq<bool>, d: seq<bool>, rest: seq<bool>)
    requires |lead| == |d| && XorBits(lead, d) == [false] + rest
    requires FeedBits(0, lead) == 0 && FeedBits(0, d) == 0
    ensures FeedBits(0, rest) == 0
  {
    VanishingDifference(lead, d);
    LeadingZero(rest);
  }

  // One step of long division: what is left of a string after its first bit.
  lemma Divide(d: seq<bool>) returns (rest: seq<bool>)
    requires |d| >= 33
    ensures XorBits(Leading(d[0], |d| - 33), d) == [false] + rest
  {
    var lead := Leading(d[0], |d| - 33);
    assert lead[0] == d[0] by {
      assert Generator()[0] && !Zeros(|d|)[0];
    }
    var r := XorBits(lead, d);
    assert r == [r[0]] + r[1..];
    rest := r[1..];
  }

  // Long division: a string that leaves the register at zero is a product.
  lemma {:induction false} VanishingIsProduct(d: seq<bool>) returns (q: seq<bool>)
    requires |d| >= 32 && FeedBits(0, d) == 0
    ensures |q| == |d| - 32 && Product(q) == d
    decreases |d|
  {
    if |d| == 32 {
      ShortDifference(d);
      q := [];
      assert d == Zeros(32);
    } else {
      var lead := Leading(d[0], |d| - 33);
      var rest := Divide(d);
      LeadingVanishes(d[0], |d| - 33);
      VanishingRest(lead, d, rest);
      var tail := VanishingIsProduct(rest);
      q := [d[0]] + tail;
      ProductCons(d[0], tail);
      XorBitsCancel(lead, d);
    }
  }

  ghost predicate IsMultiple(d: seq<bool>) {
    if |d| < 32 then AllZero(d) else exists q :: |q| == |d| - 32 && Product(q) == d
  }

  lemma VanishesIffMultiple(d: seq<bool>)
    ensures FeedBits(0, d) == 0 <==> IsMultiple(d)
  {
    if |d| < 32 {
      ShortDifference(d);
    } else {
      if FeedBits(0, d) == 0 {
        var q := VanishingIsProduct(d);
      }
      if IsMultiple(d) {
        var q :| |q| == |d| - 32 && Product(q) == d;
        ProductVanishes(q);
      }
    }
  }

  // Two payloads of the same length, whatever it is, have the same checksum if and only if
  // their bit difference is a carry-less multiple of the generator.
  lemma CollisionIffMultiple(seed: u8, x: seq<u8>, y: seq<u8>)
    requires |x| == |y|
    ensures Checksum(seed, x) == Checksum(seed, y) <==> IsMultiple(XorBits(PayloadBits(x), PayloadBits(y)))
  {
    EqualChecksums(seed, x, y);
    VanishesIffMultiple(XorBits(PayloadBits(x), PayloadBits(y)));
  }
}
