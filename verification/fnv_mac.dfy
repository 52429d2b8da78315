/**
 The locally-administered MAC a controller gets from its serial: the low bytes of
 the 64-bit FNV-1a hash (section 2 of draft-eastlake-fnv).  The low k bits of that
 hash evolve on their own, and each byte permutes them, because the prime is odd.
 */
module FnvMac {
  import opened Bits
  import opened ByteVectors

  const FNV_OFFSET: u64 := 0xcbf29ce484222325
  const FNV_PRIME: u64 := 0x00000100000001b3

  function Absorb(hash: u64, b: u8): u64 {
    Xor(hash, b) * FNV_PRIME % 0x1_0000_0000_0000_0000
  }

  function Hash(hash: u64, bytes: seq<u8>): u64
    decreases |bytes|
  {
    if bytes == [] then hash else Hash(Absorb(hash, bytes[0]), bytes[1..])
  }

  method Fnv1a64(bytes: seq<u8>) returns (hash: u64)
    ensures hash == Hash(FNV_OFFSET, bytes)
  {
    hash := FNV_OFFSET;
    for i := 0 to |bytes|
      invariant Hash(hash, bytes[i..]) == Hash(FNV_OFFSET, bytes)
    {
      assert bytes[i..][1..] == bytes[i + 1..];
      Pow2Values();
      ByteFits(64);
      XorBound(64, hash, bytes[i]);
      hash := Xor(hash, bytes[i]);
      hash := hash * FNV_PRIME % 0x1_0000_0000_0000_0000;
    }
    assert bytes[|bytes|..] == [];
  }

  // DualSense: five bytes of the hash behind the locally-administered prefix.
  function DualSenseMac(serial: seq<u8>): (mac: seq<u8>)
    ensures |mac| == 6
  {
    [0x02] + EncodeLE(8, Hash(FNV_OFFSET, serial))[..5]
  }

  // Steam Deck: three bytes of the hash behind the Valve marker.
  function SteamDeckMac(serial: seq<u8>): (mac: seq<u8>)
    ensures |mac| == 6
  {
    [0x02, 0x28, 0xDE] + EncodeLE(8, Hash(FNV_OFFSET, serial))[..3]
  }

  /* ---------- multiplication by an odd number permutes the residues of 2^k ---------- */

  lemma HalveOddProduct(p: nat, d: int, x: int)
    requires p % 2 == 1 && p * d == 2 * x
    ensures d % 2 == 0 && p * (d / 2) == x
  {
    var h := p / 2;
    assert p * d == 2 * (h * d) + d by {
      assert p == 2 * h + 1;
    }
    var e := d / 2;
    assert 2 * (p * e) == p * d by {
      assert d == 2 * e;
    }
  }

  lemma DoubleMultiple(e: int, m: nat)
    requires m > 0 && e % m == 0
    ensures 2 * e % (2 * m) == 0
  {
    var r := e / m;
    assert 2 * e == r * (2 * m) by {
      assert e == r * m;
    }
    MultipleOf(2 * e, r, 2 * m);
  }

  lemma {:induction false} OddMultiple(k: nat, p: nat, d: int, q: int)
    requires p % 2 == 1 && p * d == q * Pow2(k)
    ensures d % Pow2(k) == 0
  {
    if k == 0 {
    } else {
      var half := Pow2(k - 1);
      assert q * Pow2(k) == 2 * (q * half);
      HalveOddProduct(p, d, q * half);
      OddMultiple(k - 1, p, d / 2, q);
      DoubleMultiple(d / 2, half);
    }
  }

  lemma MultipleOf(x: int, q: int, m: nat)
    requires m > 0 && x == q * m
    ensures x % m == 0
  {
    var k := q - x / m;
    assert k * m == x % m by {
      assert k * m == q * m - x / m * m;
    }
    SmallMultiple(k, m);
  }

  lemma CongruentIff(x: int, y: int, m: nat)
    requires m > 0
    ensures x % m == y % m <==> (x - y) % m == 0
  {
    var q := x / m - y / m;
    assert x - y == q * m + (x % m - y % m) by {
      assert q * m == x / m * m - y / m * m;
    }
    if x % m == y % m {
      MultipleOf(x - y, q, m);
    }
    if (x - y) % m == 0 {
      var k := (x - y) / m - q;
      assert k * m == x % m - y % m by {
        assert k * m == (x - y) / m * m - q * m;
      }
      SmallMultiple(k, m);
    }
  }

  lemma OddTimesVanishes(k: nat, p: nat, d: int)
    requires p % 2 == 1
    ensures p * d % Pow2(k) == 0 <==> d % Pow2(k) == 0
  {
    var m := Pow2(k);
    if p * d % m == 0 {
      OddMultiple(k, p, d, p * d / m);
    }
    if d % m == 0 {
      var q := d / m;
      Regroup(p, q, m);
      MultipleOf(p * d, p * q, m);
    }
  }

  lemma Regroup(p: int, q: int, m: int)
    ensures p * (q * m) == (p * q) * m
  {
  }

  lemma OddTimesInjective(k: nat, p: nat, a: nat, b: nat)
    requires p % 2 == 1
    ensures p * a % Pow2(k) == p * b % Pow2(k) <==> a % Pow2(k) == b % Pow2(k)
  {
    CongruentIff(a, b, Pow2(k));
    CongruentIff(p * a, p * b, Pow2(k));
    assert p * a - p * b == p * (a - b);
    OddTimesVanishes(k, p, a - b);
  }

  /* ---------- the low k bits of the hash ---------- */

  lemma ModOfMod(x: nat, m: nat, n: nat)
    requires m > 0 && n > 0
    ensures m * n > 0 && x % (m * n) % m == x % m
  {
    var big := m * n;
    assert big > 0;
    var q, r := x / big, x % big;
    assert x - r == (q * n) * m by {
      assert x == q * big + r;
      assert q * (m * n) == (q * n) * m;
    }
    MultipleOf(x - r, q * n, m);
    CongruentIff(x, r, m);
  }

  lemma ModMod(k: nat, x: nat)
    requires k <= 64
    ensures x % 0x1_0000_0000_0000_0000 % Pow2(k) == x % Pow2(k)
  {
    Pow2Values();
    Pow2Add(k, 64 - k);
    ModOfMod(x, Pow2(k), Pow2(64 - k));
  }

  lemma AbsorbLow(k: nat, g: u64, h: u64, b: u8, c: u8)
    requires 8 <= k <= 64
    ensures Absorb(g, b) % Pow2(k) == Absorb(h, c) % Pow2(k) <==>
            Xor(g % Pow2(k), b) == Xor(h % Pow2(k), c)
  {
    var x, y := Xor(g, b), Xor(h, c);
    ModMod(k, x * FNV_PRIME);
    ModMod(k, y * FNV_PRIME);
    OddTimesInjective(k, FNV_PRIME, x, y);
    LowOperand(k, g, b);
    LowOperand(k, h, c);
  }

  lemma LowOperand(k: nat, h: nat, b: u8)
    requires 8 <= k
    ensures Xor(h, b) % Pow2(k) == Xor(h % Pow2(k), b)
  {
    ByteFits(k);
    SmallMod(b, Pow2(k));
    XorLow(k, h, b);
    XorBound(k, h % Pow2(k), b);
    SmallMod(Xor(h % Pow2(k), b), Pow2(k));
  }

  lemma SmallMod(x: nat, m: nat)
    requires x < m
    ensures x % m == x
  {
  }

  // A common suffix neither makes nor breaks a collision of the low k bits.
  lemma {:induction false} CommonSuffix(k: nat, g: u64, h: u64, s: seq<u8>)
    requires 8 <= k <= 64
    ensures Hash(g, s) % Pow2(k) == Hash(h, s) % Pow2(k) <==> g % Pow2(k) == h % Pow2(k)
    decreases |s|
  {
    if s == [] {
    } else {
      CommonSuffix(k, Absorb(g, s[0]), Absorb(h, s[0]), s[1..]);
      AbsorbLow(k, g, h, s[0], s[0]);
      XorCommutes(g % Pow2(k), s[0]);
      XorCommutes(h % Pow2(k), s[0]);
      XorCancel(s[0], g % Pow2(k), h % Pow2(k));
    }
  }

  lemma {:induction false} HashConcat(h: u64, s: seq<u8>, t: seq<u8>)
    ensures Hash(h, s + t) == Hash(Hash(h, s), t)
    decreases |s|
  {
    if s == [] {
      assert s + t == t;
    } else {
      assert (s + t)[1..] == s[1..] + t;
      HashConcat(Absorb(h, s[0]), s[1..], t);
    }
  }

  lemma OneByteChangesLowBits(k: nat, x: seq<u8>, y: seq<u8>, at: nat)
    requires 8 <= k <= 64
    requires |x| == |y| && at < |x| && x[at] != y[at]
    requires forall j :: 0 <= j < |x| && j != at ==> x[j] == y[j]
    ensures Hash(FNV_OFFSET, x) % Pow2(k) != Hash(FNV_OFFSET, y) % Pow2(k)
  {
    var h := Hash(FNV_OFFSET, x[..at]);
    var tail := x[at + 1..];
    assert x == x[..at] + ([x[at]] + tail) && y == x[..at] + ([y[at]] + tail);
    HashConcat(FNV_OFFSET, x[..at], [x[at]] + tail);
    HashConcat(FNV_OFFSET, x[..at], [y[at]] + tail);
    CommonSuffix(k, Absorb(h, x[at]), Absorb(h, y[at]), tail);
    AbsorbLow(k, h, h, x[at], y[at]);
    XorCancel(h % Pow2(k), x[at], y[at]);
  }

  /* ---------- the MAC is exactly the low bits ---------- */

  lemma {:induction false} EncodePrefix(m: nat, n: nat, w: nat)
    requires m <= n
    ensures EncodeLE(n, w)[..m] == EncodeLE(m, w)
  {
    if m == 0 {
    } else {
      EncodePrefix(m - 1, n - 1, w / 256);
    }
  }

  lemma {:induction false} EncodeLowBits(m: nat, v: nat, w: nat)
    ensures EncodeLE(m, v) == EncodeLE(m, w) <==> v % Pow2(8 * m) == w % Pow2(8 * m)
  {
    if m == 0 {
    } else {
      var x, y := EncodeLE(m, v), EncodeLE(m, w);
      assert x[1..] == EncodeLE(m - 1, v / 256) && y[1..] == EncodeLE(m - 1, w / 256);
      assert x == [x[0]] + x[1..] && y == [y[0]] + y[1..];
      EncodeLowBits(m - 1, v / 256, w / 256);
      ByteAndRest(m, v);
      ByteAndRest(m, w);
    }
  }

  lemma ByteAndRest(m: nat, v: nat)
    requires m != 0
    ensures v % Pow2(8 * m) == v % 256 + 256 * (v / 256 % Pow2(8 * m - 8))
  {
    var p := Pow2(8 * m - 8);
    Pow2Add(8, 8 * m - 8);
    assert Pow2(8) == 256;
    ScaledMod(v, p);
  }

  lemma ScaledMod(v: nat, p: nat)
    requires p > 0
    ensures v % (256 * p) == v % 256 + 256 * (v / 256 % p)
  {
    var q, r := v / 256 / p, v / 256 % p;
    assert v / 256 == q * p + r;
    assert q * (256 * p) == 256 * (q * p);
    DivModUnique(v, 256 * p, q, v % 256 + 256 * r);
  }

  lemma MacIffLowBits(x: seq<u8>, y: seq<u8>)
    ensures DualSenseMac(x) == DualSenseMac(y) <==>
            Hash(FNV_OFFSET, x) % Pow2(40) == Hash(FNV_OFFSET, y) % Pow2(40)
    ensures SteamDeckMac(x) == SteamDeckMac(y) <==>
            Hash(FNV_OFFSET, x) % Pow2(24) == Hash(FNV_OFFSET, y) % Pow2(24)
  {
    var g, h := Hash(FNV_OFFSET, x), Hash(FNV_OFFSET, y);
    EncodePrefix(5, 8, g);
    EncodePrefix(5, 8, h);
    EncodePrefix(3, 8, g);
    EncodePrefix(3, 8, h);
    EncodeLowBits(5, g, h);
    EncodeLowBits(3, g, h);
    assert DualSenseMac(x)[1..] == EncodeLE(5, g) && DualSenseMac(y)[1..] == EncodeLE(5, h);
    assert SteamDeckMac(x)[3..] == EncodeLE(3, g) && SteamDeckMac(y)[3..] == EncodeLE(3, h);
  }

  lemma {:induction false} DecodeLow(m: nat, w: nat)
    ensures DecodeLE(EncodeLE(m, w)) == w % Pow2(8 * m)
  {
    if m == 0 {
    } else {
      DecodeLow(m - 1, w / 256);
      ByteAndRest(m, w);
    }
  }

  // Behind their prefixes the bytes of a MAC read back to the hash modulo 2^40 and 2^24, low byte first.
  lemma MacReadsBack(serial: seq<u8>)
    ensures var hash, mac := Hash(FNV_OFFSET, serial), DualSenseMac(serial);
            mac[0] == 0x02 && DecodeLE(mac[1..]) == hash % 1_099_511_627_776
    ensures var hash, mac := Hash(FNV_OFFSET, serial), SteamDeckMac(serial);
            mac[..3] == [0x02, 0x28, 0xDE] && DecodeLE(mac[3..]) == hash % 16_777_216
  {
    var hash := Hash(FNV_OFFSET, serial);
    Pow2Values();
    EncodePrefix(5, 8, hash);
    EncodePrefix(3, 8, hash);
    DecodeLow(5, hash);
    DecodeLow(3, hash);
    assert DualSenseMac(serial)[1..] == EncodeLE(5, hash) && SteamDeckMac(serial)[3..] == EncodeLE(3, hash);
  }

  // Equal-length serials that differ in one byte never share a MAC, on either factory.
  lemma OneByteChangesMac(x: seq<u8>, y: seq<u8>, at: nat)
    requires |x| == |y| && at < |x| && x[at] != y[at]
    requires forall j :: 0 <= j < |x| && j != at ==> x[j] == y[j]
    ensures DualSenseMac(x) != DualSenseMac(y)
    ensures SteamDeckMac(x) != SteamDeckMac(y)
  {
    MacIffLowBits(x, y);
    OneByteChangesLowBits(40, x, y, at);
    OneByteChangesLowBits(24, x, y, at);
  }

  // Appending the same bytes to two serials neither makes nor breaks a MAC collision.
  lemma SuffixKeepsMacCollisions(x: seq<u8>, y: seq<u8>, s: seq<u8>)
    ensures DualSenseMac(x + s) == DualSenseMac(y + s) <==> DualSenseMac(x) == DualSenseMac(y)
    ensures SteamDeckMac(x + s) == SteamDeckMac(y + s) <==> SteamDeckMac(x) == SteamDeckMac(y)
  {
    MacIffLowBits(x, y);
    MacIffLowBits(x + s, y + s);
    HashConcat(FNV_OFFSET, x, s);
    HashConcat(FNV_OFFSET, y, s);
    CommonSuffix(40, Hash(FNV_OFFSET, x), Hash(FNV_OFFSET, y), s);
    CommonSuffix(24, Hash(FNV_OFFSET, x), Hash(FNV_OFFSET, y), s);
  }

  /* ---------- the published values ---------- */

  lemma XorLowByte(low: bv8, rest: nat, b: bv8)
    ensures Xor(Above(Num(low), rest), Num(b)) == Above(Num(low ^ b), rest)
  {
    JoinByte(low, b, rest, 0);
    XorCommutes(rest, 0);
  }

  // One byte absorbed, the prime written out.
  lemma Absorbed(hash: u64, low: bv8, rest: nat, b: bv8, next: u64)
    requires hash == Above(Num(low), rest)
    requires next == Above(Num(low ^ b), rest) * 1_099_511_628_211 % 18_446_744_073_709_551_616
    ensures Absorb(hash, Num(b)) == next
  {
    XorLowByte(low, rest, b);
  }

  lemma FromSixth(hash: u64, s: seq<u8>)
    requires hash == 0xCAC1_65AF_A2FE_F40A && s == [0x72]
    ensures Hash(hash, s) == 0x8594_4171_F739_67E8
  {
    Absorbed(hash, 0x0A, 0xCAC165AFA2FEF4, 0x72, 0x8594_4171_F739_67E8);
    assert Hash(Absorb(hash, s[0]), s[1..]) == Absorb(hash, s[0]);
  }

  lemma FromFifth(hash: u64, s: seq<u8>)
    requires hash == 0xDD12_0E79_0C25_12AF && s == [0x61, 0x72]
    ensures Hash(hash, s) == 0x8594_4171_F739_67E8
  {
    Absorbed(hash, 0xAF, 0xDD120E790C2512, 0x61, 0xCAC1_65AF_A2FE_F40A);
    FromSixth(Absorb(hash, s[0]), s[1..]);
  }

  lemma FromFourth(hash: u64, s: seq<u8>)
    requires hash == 0xDCB2_7518_FED9_D577 && s == [0x62, 0x61, 0x72]
    ensures Hash(hash, s) == 0x8594_4171_F739_67E8
  {
    Absorbed(hash, 0x77, 0xDCB27518FED9D5, 0x62, 0xDD12_0E79_0C25_12AF);
    FromFifth(Absorb(hash, s[0]), s[1..]);
  }

  lemma FromThird(hash: u64, s: seq<u8>)
    requires hash == 0x0898_5907_B541_D342 && s == [0x6F, 0x62, 0x61, 0x72]
    ensures Hash(hash, s) == 0x8594_4171_F739_67E8
  {
    Absorbed(hash, 0x42, 0x08985907B541D3, 0x6F, 0xDCB2_7518_FED9_D577);
    FromFourth(Absorb(hash, s[0]), s[1..]);
  }

  lemma FromSecond(hash: u64, s: seq<u8>)
    requires hash == 0xAF63_DB4C_8601_EAD9 && s == [0x6F, 0x6F, 0x62, 0x61, 0x72]
    ensures Hash(hash, s) == 0x8594_4171_F739_67E8
  {
    Absorbed(hash, 0xD9, 0xAF63DB4C8601EA, 0x6F, 0x0898_5907_B541_D342);
    FromThird(Absorb(hash, s[0]), s[1..]);
  }

  lemma FromFirst(hash: u64, s: seq<u8>)
    requires hash == 0xCBF2_9CE4_8422_2325 && s == [0x66, 0x6F, 0x6F, 0x62, 0x61, 0x72]
    ensures Hash(hash, s) == 0x8594_4171_F739_67E8
  {
    Absorbed(hash, 0x25, 0xCBF29CE4842223, 0x66, 0xAF63_DB4C_8601_EAD9);
    FromSecond(Absorb(hash, s[0]), s[1..]);
  }

  // The hash of no bytes and of "foobar" are the published ones.
  lemma PublishedValues(bytes: seq<u8>)
    ensures Hash(FNV_OFFSET, []) == 0xCBF2_9CE4_8422_2325
    ensures bytes == [0x66, 0x6F, 0x6F, 0x62, 0x61, 0x72] ==> Hash(FNV_OFFSET, bytes) == 0x8594_4171_F739_67E8
  {
    if bytes == [0x66, 0x6F, 0x6F, 0x62, 0x61, 0x72] {
      FromFirst(FNV_OFFSET, bytes);
    }
  }
}
