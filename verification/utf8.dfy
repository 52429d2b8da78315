/**
 Which byte strings are UTF-8: exactly the encodings of Unicode scalar values (section 3 of
 RFC 3629).
 */
module Utf8 {
  import opened Bits

  predicate Continuation(b: u8) {
    0x80 <= b < 0xC0
  }

  // Well-formed UTF-8: shortest forms, no surrogates, at most U+10FFFF (section 4 of RFC 3629).
  predicate ValidUtf8(s: seq<u8>) {
    if s == [] then true
    else if s[0] < 0x80 then ValidUtf8(s[1..])
    else if 0xC2 <= s[0] < 0xE0 then |s| >= 2 && Continuation(s[1]) && ValidUtf8(s[2..])
    else if 0xE0 <= s[0] < 0xF0 then
      |s| >= 3 && Continuation(s[1]) && Continuation(s[2]) &&
      (s[0] == 0xE0 ==> s[1] >= 0xA0) && (s[0] == 0xED ==> s[1] < 0xA0) && ValidUtf8(s[3..])
    else if 0xF0 <= s[0] < 0xF5 then
      |s| >= 4 && Continuation(s[1]) && Continuation(s[2]) && Continuation(s[3]) &&
      (s[0] == 0xF0 ==> s[1] >= 0x90) && (s[0] == 0xF4 ==> s[1] < 0x90) && ValidUtf8(s[4..])
    else false
  }

  /* ---------- the encodings of scalar values, and nothing else ---------- */

  predicate Scalar(c: nat) {
    c < 0xD800 || 0xE000 <= c < 0x11_0000
  }

  function EncodeScalar(c: nat): (s: seq<u8>)
    requires Scalar(c)
    ensures s != []
  {
    if c < 0x80 then [c]
    else if c < 0x800 then [0xC0 + c / 0x40, 0x80 + c % 0x40]
    else if c < 0x1_0000 then [0xE0 + c / 0x1000, 0x80 + c / 0x40 % 0x40, 0x80 + c % 0x40]
    else [0xF0 + c / 0x4_0000, 0x80 + c / 0x1000 % 0x40, 0x80 + c / 0x40 % 0x40, 0x80 + c % 0x40]
  }

  predicate Text(cs: seq<nat>) {
    forall c :: c in cs ==> Scalar(c)
  }

  function EncodeText(cs: seq<nat>): seq<u8>
    requires Text(cs)
  {
    if cs == [] then [] else EncodeScalar(cs[0]) + EncodeText(cs[1..])
  }

  lemma Narrow(c: nat, rest: seq<u8>)
    requires Scalar(c) && c < 0x800
    ensures ValidUtf8(EncodeScalar(c) + rest) <==> ValidUtf8(rest)
  {
    var e := EncodeScalar(c);
    assert (e + rest)[|e|..] == rest;
  }

  lemma ThreeBytes(c: nat, rest: seq<u8>)
    requires Scalar(c) && 0x800 <= c < 0x1_0000
    ensures ValidUtf8(EncodeScalar(c) + rest) <==> ValidUtf8(rest)
  {
    var e := EncodeScalar(c);
    assert (e + rest)[3..] == rest;
    Digits(c);
  }

  lemma FourBytes(c: nat, rest: seq<u8>)
    requires Scalar(c) && 0x1_0000 <= c
    ensures ValidUtf8(EncodeScalar(c) + rest) <==> ValidUtf8(rest)
  {
    var e := EncodeScalar(c);
    assert (e + rest)[4..] == rest;
    Digits(c / 0x40);
  }

  // The digits of a number to the base 64.
  lemma Digits(c: nat)
    ensures c / 0x1000 == c / 0x40 / 0x40 && c == 0x1000 * (c / 0x1000) + 0x40 * (c / 0x40 % 0x40) + c % 0x40
  {
  }

  lemma ScalarInFront(c: nat, rest: seq<u8>)
    requires Scalar(c)
    ensures ValidUtf8(EncodeScalar(c) + rest) <==> ValidUtf8(rest)
  {
    if c < 0x800 {
      Narrow(c, rest);
    } else if c < 0x1_0000 {
      ThreeBytes(c, rest);
    } else {
      FourBytes(c, rest);
    }
  }

  lemma {:induction false} EncodedIsValid(cs: seq<nat>)
    requires Text(cs)
    ensures ValidUtf8(EncodeText(cs))
  {
    if cs == [] {
    } else {
      EncodedIsValid(cs[1..]);
      ScalarInFront(cs[0], EncodeText(cs[1..]));
    }
  }

  lemma Joined(high: nat, low: nat)
    requires low < 0x40
    ensures (0x40 * high + low) / 0x40 == high && (0x40 * high + low) % 0x40 == low
  {
  }

  lemma TwoIs(a: nat, b: nat, c: nat)
    requires 0xC2 <= a < 0xE0 && 0x80 <= b < 0xC0 && c == 0x40 * (a - 0xC0) + (b - 0x80)
    ensures Scalar(c) && EncodeScalar(c) == [a, b]
  {
    Joined(a - 0xC0, b - 0x80);
  }

  lemma ThreeIs(a: nat, b: nat, d: nat, c: nat)
    requires 0xE0 <= a < 0xF0 && 0x80 <= b < 0xC0 && 0x80 <= d < 0xC0
    requires (a == 0xE0 ==> b >= 0xA0) && (a == 0xED ==> b < 0xA0)
    requires c == 0x40 * (0x40 * (a - 0xE0) + (b - 0x80)) + (d - 0x80)
    ensures Scalar(c) && EncodeScalar(c) == [a, b, d]
  {
    Joined(a - 0xE0, b - 0x80);
    Joined(0x40 * (a - 0xE0) + (b - 0x80), d - 0x80);
    Digits(c);
  }

  lemma FourIs(a: nat, b: nat, d: nat, e: nat, c: nat)
    requires 0xF0 <= a < 0xF5 && 0x80 <= b < 0xC0 && 0x80 <= d < 0xC0 && 0x80 <= e < 0xC0
    requires (a == 0xF0 ==> b >= 0x90) && (a == 0xF4 ==> b < 0x90)
    requires c == 0x40 * (0x40 * (0x40 * (a - 0xF0) + (b - 0x80)) + (d - 0x80)) + (e - 0x80)
    ensures Scalar(c) && EncodeScalar(c) == [a, b, d, e]
  {
    var top := 0x40 * (a - 0xF0) + (b - 0x80);
    Joined(a - 0xF0, b - 0x80);
    Joined(top, d - 0x80);
    Joined(0x40 * top + (d - 0x80), e - 0x80);
    FourthDigit(c);
  }

  lemma FourthDigit(c: nat)
    ensures c / 0x1000 == c / 0x40 / 0x40 && c / 0x4_0000 == c / 0x40 / 0x40 / 0x40
  {
  }

  lemma DecodeFirst(s: seq<u8>) returns (c: nat, n: nat)
    requires s != [] && ValidUtf8(s)
    ensures 0 < n <= |s| && Scalar(c) && EncodeScalar(c) == s[..n] && ValidUtf8(s[n..])
  {
    var a: nat := s[0];
    if a < 0x80 {
      c, n := a, 1;
    } else if a < 0xE0 {
      var b: nat := s[1];
      c, n := 0x40 * (a - 0xC0) + (b - 0x80), 2;
      TwoIs(a, b, c);
    } else if a < 0xF0 {
      var b: nat, d: nat := s[1], s[2];
      c, n := 0x40 * (0x40 * (a - 0xE0) + (b - 0x80)) + (d - 0x80), 3;
      ThreeIs(a, b, d, c);
    } else {
      var b: nat, d: nat, e: nat := s[1], s[2], s[3];
      c, n := 0x40 * (0x40 * (0x40 * (a - 0xF0) + (b - 0x80)) + (d - 0x80)) + (e - 0x80), 4;
      FourIs(a, b, d, e, c);
    }
  }

  lemma {:induction false} ValidIsEncoded(s: seq<u8>) returns (cs: seq<nat>)
    requires ValidUtf8(s)
    ensures Text(cs) && EncodeText(cs) == s
    decreases |s|
  {
    if s == [] {
      cs := [];
    } else {
      var c, n := DecodeFirst(s);
      var rest := ValidIsEncoded(s[n..]);
      cs := [c] + rest;
      assert s == s[..n] + s[n..];
    }
  }

  // A byte string is accepted if and only if it encodes some text.
  lemma ValidIffText(s: seq<u8>)
    ensures ValidUtf8(s) <==> exists cs: seq<nat> :: Text(cs) && EncodeText(cs) == s
  {
    if ValidUtf8(s) {
      var cs := ValidIsEncoded(s);
    }
    if cs: seq<nat> :| Text(cs) && EncodeText(cs) == s {
      EncodedIsValid(cs);
    }
  }
}
