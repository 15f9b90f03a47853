/**
  The check that a parsed string passes, against the encoding it is a check for: a byte string is
  accepted if and only if it is the UTF-8 encoding of a sequence of Unicode scalar values, as section 3
  of RFC 3629 writes them.
 */
module Utf8 {
  import opened Wire
  import opened Scalars

  predicate IsScalar(c: int) {
    0 <= c < 0xD800 || 0xE000 <= c < 0x11_0000
  }

  predicate AllScalars(cs: seq<int>) {
    forall c | c in cs :: IsScalar(c)
  }

  function EncodeScalar(c: int): (s: bytes)
    requires IsScalar(c)
    ensures s != []
  {
    if c < 0x80 then [c]
    else if c < 0x800 then [0xC0 + c / 0x40, 0x80 + c % 0x40]
    else if c < 0x1_0000 then [0xE0 + c / 0x1000, 0x80 + c / 0x40 % 0x40, 0x80 + c % 0x40]
    else [0xF0 + c / 0x4_0000, 0x80 + c / 0x1000 % 0x40, 0x80 + c / 0x40 % 0x40, 0x80 + c % 0x40]
  }

  /** One character of each length, and the ends of the range. */
  lemma ScalarSamples(c: int)
    ensures IsScalar(0x24) && EncodeScalar(0x24) == [0x24]
    ensures IsScalar(0xA2) && EncodeScalar(0xA2) == [0xC2, 0xA2]
    ensures IsScalar(0x20AC) && EncodeScalar(0x20AC) == [0xE2, 0x82, 0xAC]
    ensures IsScalar(0x1_0348) && EncodeScalar(0x1_0348) == [0xF0, 0x90, 0x8D, 0x88]
    ensures IsScalar(c) <==> 0 <= c <= 0x10_FFFF && !(0xD800 <= c <= 0xDFFF)
  {
  }

  function EncodeText(cs: seq<int>): bytes
    requires AllScalars(cs)
  {
    if cs == [] then [] else EncodeScalar(cs[0]) + EncodeText(cs[1..])
  }

  /** A number with six more bits at its low end. */
  function Append6(high: int, low: int): int {
    0x40 * high + low
  }

  /** The scalar value at the front of a string. */
  function DecodeScalar(s: bytes): int
    requires Utf8Length(s) > 0
  {
    var b0: int := s[0];
    if b0 < 0x80 then b0
    else
      var b1: int := s[1];
      if b0 < 0xE0 then Append6(b0 - 0xC0, b1 - 0x80)
      else
        var b2: int := s[2];
        if b0 < 0xF0 then Append6(Append6(b0 - 0xE0, b1 - 0x80), b2 - 0x80)
        else
          var b3: int := s[3];
          Append6(Append6(Append6(b0 - 0xF0, b1 - 0x80), b2 - 0x80), b3 - 0x80)
  }

  lemma EncodedLength(c: int, t: bytes)
    requires IsScalar(c)
    ensures Utf8Length(EncodeScalar(c) + t) == |EncodeScalar(c)|
  {
    hide Utf8Length;
    var s := EncodeScalar(c);
    assert forall i | 0 <= i < |s| :: (s + t)[i] == s[i];
    if 0x800 <= c < 0x1_0000 {
      assert c / 0x1000 == 0xD ==> c / 0x40 % 0x40 < 0x20;
      assert c / 0x1000 == 0 ==> c / 0x40 % 0x40 >= 0x20;
    } else if c >= 0x1_0000 {
      assert c / 0x4_0000 == 0 ==> c / 0x1000 % 0x40 >= 0x10;
      assert c / 0x4_0000 == 4 ==> c / 0x1000 % 0x40 < 0x10;
    }
    LengthByBytes(s + t);
  }

  /** The ranges of the bytes of a character, by its first byte. */
  lemma LengthByBytes(s: bytes)
    requires s != []
    ensures s[0] < 0x80 ==> Utf8Length(s) == 1
    ensures |s| >= 2 && 0xC2 <= s[0] < 0xE0 && Continuation(s[1]) ==> Utf8Length(s) == 2
    ensures (&& |s| >= 3 && 0xE0 <= s[0] < 0xF0 && Continuation(s[1]) && Continuation(s[2])
             && (s[0] == 0xE0 ==> s[1] >= 0xA0) && (s[0] == 0xED ==> s[1] < 0xA0)) ==> Utf8Length(s) == 3
    ensures (&& |s| >= 4 && 0xF0 <= s[0] < 0xF5 && Continuation(s[1]) && Continuation(s[2]) && Continuation(s[3])
             && (s[0] == 0xF0 ==> s[1] >= 0x90) && (s[0] == 0xF4 ==> s[1] < 0x90)) ==> Utf8Length(s) == 4
  {
  }

  lemma Bits(a: int, b: int, c: int, d: int)
    requires 0 <= b < 0x40 && 0 <= c < 0x40 && 0 <= d < 0x40
    ensures var n := Append6(a, b);
            n / 0x40 == a && n % 0x40 == b
    ensures var n := Append6(Append6(a, b), c);
            n / 0x1000 == a && n / 0x40 % 0x40 == b && n % 0x40 == c
    ensures var n := Append6(Append6(Append6(a, b), c), d);
            n / 0x4_0000 == a && n / 0x1000 % 0x40 == b && n / 0x40 % 0x40 == c && n % 0x40 == d
  {
    var n1, n2 := Append6(a, b), Append6(Append6(a, b), c);
    var n3 := Append6(n2, d);
    assert n1 / 0x40 == a && n2 / 0x40 == n1 && n3 / 0x40 == n2;
    assert n2 / 0x1000 == a && n3 / 0x1000 == n1 && n3 / 0x4_0000 == a;
  }

  lemma DecodedScalar(s: bytes)
    requires Utf8Length(s) > 0
    ensures IsScalar(DecodeScalar(s))
    ensures EncodeScalar(DecodeScalar(s)) == s[..Utf8Length(s)]
  {
    match Utf8Length(s)
    case 1 =>
    case 2 => DecodedTwo(s);
    case 3 => DecodedThree(s);
    case _ => DecodedFour(s);
  }

  lemma DecodedTwo(s: bytes)
    requires Utf8Length(s) == 2
    ensures IsScalar(DecodeScalar(s)) && EncodeScalar(DecodeScalar(s)) == s[..2]
  {
    Bits(s[0] as int - 0xC0, s[1] as int - 0x80, 0, 0);
  }

  lemma DecodedThree(s: bytes)
    requires Utf8Length(s) == 3
    ensures IsScalar(DecodeScalar(s)) && EncodeScalar(DecodeScalar(s)) == s[..3]
  {
    Bits(s[0] as int - 0xE0, s[1] as int - 0x80, s[2] as int - 0x80, 0);
  }

  lemma DecodedFour(s: bytes)
    requires Utf8Length(s) == 4
    ensures IsScalar(DecodeScalar(s)) && EncodeScalar(DecodeScalar(s)) == s[..4]
  {
    Bits(s[0] as int - 0xF0, s[1] as int - 0x80, s[2] as int - 0x80, s[3] as int - 0x80);
  }

  lemma {:induction false} EncodedIsValid(cs: seq<int>)
    requires AllScalars(cs)
    ensures ValidUtf8(EncodeText(cs))
  {
    if cs != [] {
      var first, rest := EncodeScalar(cs[0]), EncodeText(cs[1..]);
      EncodedLength(cs[0], rest);
      EncodedIsValid(cs[1..]);
      assert (first + rest)[|first|..] == rest;
    }
  }

  lemma {:induction false} ValidIsEncoded(s: bytes) returns (cs: seq<int>)
    requires ValidUtf8(s)
    ensures AllScalars(cs) && EncodeText(cs) == s
  {
    if s == [] {
      cs := [];
    } else {
      var n := Utf8Length(s);
      DecodedScalar(s);
      var rest := ValidIsEncoded(s[n..]);
      cs := [DecodeScalar(s)] + rest;
      assert cs[1..] == rest;
      assert s == s[..n] + s[n..];
    }
  }

  /** What the parser accepts as a string is exactly the UTF-8 text. */
  lemma ValidIffEncoded(s: bytes)
    ensures ValidUtf8(s) <==> exists cs: seq<int> :: AllScalars(cs) && EncodeText(cs) == s
  {
    if ValidUtf8(s) { var cs := ValidIsEncoded(s); }
    forall cs: seq<int> | AllScalars(cs) && EncodeText(cs) == s ensures ValidUtf8(s) {
      EncodedIsValid(cs);
    }
  }
}
