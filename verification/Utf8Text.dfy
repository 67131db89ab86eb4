/** The UTF-8 check against the encoding of code points (table 3-6 of the Unicode standard). */
module Utf8Text {
  import opened Bytes
  import opened Values

  /** Code points other than surrogates. */
  predicate Scalar(c: nat) {
    c < 0xD800 || 0xE000 <= c < 0x11_0000
  }

  function EncodePoint(c: nat): (s: seq<Byte>)
    requires Scalar(c)
    ensures 1 <= |s| <= 4
  {
    if c < 0x80 then [c]
    else if c < 0x800 then [0xC0 + c / 0x40, 0x80 + c % 0x40]
    else if c < 0x1_0000 then [0xE0 + c / 0x1000, 0x80 + c / 0x40 % 0x40, 0x80 + c % 0x40]
    else [0xF0 + c / 0x4_0000, 0x80 + c / 0x1000 % 0x40, 0x80 + c / 0x40 % 0x40, 0x80 + c % 0x40]
  }

  predicate Scalars(cs: seq<nat>) {
    forall i :: 0 <= i < |cs| ==> Scalar(cs[i])
  }

  function EncodePoints(cs: seq<nat>): seq<Byte>
    requires Scalars(cs)
  {
    if cs == [] then [] else EncodePoint(cs[0]) + EncodePoints(cs[1..])
  }

  lemma TwoBytes(c: nat)
    requires 0x80 <= c < 0x800
    ensures 2 <= c / 0x40 < 0x20
  {}

  lemma ThreeBytes(c: nat)
    requires 0x800 <= c < 0x1_0000 && Scalar(c)
    ensures c / 0x1000 < 0x10 && (c / 0x1000 == 0 ==> c / 0x40 % 0x40 >= 0x20)
    ensures c / 0x1000 == 0xD ==> c / 0x40 % 0x40 < 0x20
  {
    var q := c / 0x40;
    assert c / 0x1000 == q / 0x40;
  }

  lemma FourBytes(c: nat)
    requires 0x1_0000 <= c < 0x11_0000
    ensures c / 0x4_0000 < 5 && (c / 0x4_0000 == 0 ==> c / 0x1000 % 0x40 >= 0x10)
    ensures c / 0x4_0000 == 4 ==> c / 0x1000 % 0x40 < 0x10
  {
    var q := c / 0x1000;
    assert c / 0x4_0000 == q / 0x40;
  }

  lemma PointAccepted(c: nat, x: seq<Byte>)
    requires Scalar(c)
    ensures CodePoint(EncodePoint(c) + x) == |EncodePoint(c)|
  {
    if 0x80 <= c < 0x800 { TwoBytes(c); }
    if 0x800 <= c < 0x1_0000 { ThreeBytes(c); }
    if 0x1_0000 <= c { FourBytes(c); }
    var e := EncodePoint(c);
    assert forall i :: 0 <= i < |e| ==> (e + x)[i] == e[i];
  }

  lemma ReadTwo(a: nat, b: nat) returns (c: nat)
    requires 0xC2 <= a < 0xE0 && 0x80 <= b < 0xC0
    ensures Scalar(c) && EncodePoint(c) == [a, b]
  {
    c := (a - 0xC0) * 0x40 + (b - 0x80);
  }

  lemma ReadThree(a: nat, b: nat, d: nat) returns (c: nat)
    requires 0xE0 <= a < 0xF0 && 0x80 <= b < 0xC0 && 0x80 <= d < 0xC0
    requires (a == 0xE0 ==> b >= 0xA0) && (a == 0xED ==> b < 0xA0)
    ensures Scalar(c) && EncodePoint(c) == [a, b, d]
  {
    c := (a - 0xE0) * 0x1000 + (b - 0x80) * 0x40 + (d - 0x80);
    assert c / 0x40 == (a - 0xE0) * 0x40 + (b - 0x80);
  }

  lemma SixBits(n: nat, k: nat)
    requires k < 0x40
    ensures (n * 0x40 + k) / 0x40 == n && (n * 0x40 + k) % 0x40 == k
  {}

  lemma Nested(c: nat)
    ensures c / 0x1000 == c / 0x40 / 0x40 && c / 0x4_0000 == c / 0x40 / 0x40 / 0x40
  {}

  lemma ReadFour(a: nat, b: nat, d: nat, e: nat) returns (c: nat)
    requires 0xF0 <= a < 0xF5 && 0x80 <= b < 0xC0 && 0x80 <= d < 0xC0 && 0x80 <= e < 0xC0
    requires (a == 0xF0 ==> b >= 0x90) && (a == 0xF4 ==> b < 0x90)
    ensures Scalar(c) && EncodePoint(c) == [a, b, d, e]
  {
    var three := (a - 0xF0) * 0x1000 + (b - 0x80) * 0x40 + (d - 0x80);
    var two := (a - 0xF0) * 0x40 + (b - 0x80);
    c := three * 0x40 + (e - 0x80);
    SixBits(three, e - 0x80);
    SixBits(two, d - 0x80);
    SixBits(a - 0xF0, b - 0x80);
    Nested(c);
  }

  /** The code point that accepted bytes start with. */
  lemma PointRead(s: seq<Byte>) returns (c: nat)
    requires s != [] && CodePoint(s) > 0
    ensures Scalar(c) && EncodePoint(c) == s[..CodePoint(s)]
  {
    hide EncodePoint, Scalar;
    var n := CodePoint(s);
    if n == 1 {
      c := s[0];
      OneByte(c);
    } else if n == 2 {
      c := ReadTwo(s[0], s[1]);
    } else if n == 3 {
      c := ReadThree(s[0], s[1], s[2]);
    } else {
      c := ReadFour(s[0], s[1], s[2], s[3]);
    }
  }

  lemma OneByte(c: nat)
    requires c < 0x80
    ensures Scalar(c) && EncodePoint(c) == [c]
  {}

  lemma {:induction false} EncodedAccepted(cs: seq<nat>)
    requires Scalars(cs)
    ensures Utf8(EncodePoints(cs))
    decreases |cs|
  {
    hide CodePoint, EncodePoint;
    if cs != [] {
      var head, tail := EncodePoint(cs[0]), EncodePoints(cs[1..]);
      PointAccepted(cs[0], tail);
      EncodedAccepted(cs[1..]);
      assert (head + tail)[|head|..] == tail;
    }
  }

  lemma {:induction false} AcceptedEncoded(s: seq<Byte>) returns (cs: seq<nat>)
    requires Utf8(s)
    ensures Scalars(cs) && EncodePoints(cs) == s
    decreases |s|
  {
    hide CodePoint, EncodePoint, Scalar;
    if s == [] {
      cs := [];
    } else {
      var n := CodePoint(s);
      var c := PointRead(s);
      var rest := AcceptedEncoded(s[n..]);
      cs := [c] + rest;
      assert cs[1..] == rest && s == s[..n] + s[n..];
    }
  }

  /** A byte string is accepted exactly when it is the encoding of some code points. */
  lemma Utf8Exact(s: seq<Byte>)
    ensures Utf8(s) <==> exists cs :: Scalars(cs) && EncodePoints(cs) == s
  {
    if Utf8(s) { var cs := AcceptedEncoded(s); }
    if exists cs :: Scalars(cs) && EncodePoints(cs) == s {
      var cs :| Scalars(cs) && EncodePoints(cs) == s;
      EncodedAccepted(cs);
    }
  }
}
