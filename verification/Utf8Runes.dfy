/** The byte-level view of UTF-8 against Unicode scalar values: valid strings are exactly
    the encodings of sequences of them (section 3 of RFC 3629). */
module Utf8Runes {
  import opened Common
  import opened Utf8

  predicate Scalar(c: int) {
    0 <= c <= 0x10FFFF && !(0xD800 <= c <= 0xDFFF)
  }

  type Rune = c: int | 0 <= c <= 0x10FFFF && !(0xD800 <= c <= 0xDFFF)

  /** The values the bytes of a character stand for. */
  function Point2(a: int, b: int): int { (a - 0xC0) * 64 + (b - 0x80) }
  function Point3(a: int, b: int, d: int): int { (a - 0xE0) * 4096 + (b - 0x80) * 64 + (d - 0x80) }
  function Point4(a: int, b: int, d: int, e: int): int { (a - 0xF0) * 262144 + (b - 0x80) * 4096 + (d - 0x80) * 64 + (e - 0x80) }

  /** The encoding of one scalar value: six bits to a continuation byte. */
  function Encoded(c: Rune): Bytes {
    if c < 0x80 then [c]
    else if c < 0x800 then [0xC0 + c / 64, 0x80 + c % 64]
    else if c < 0x10000 then [0xE0 + c / 4096, 0x80 + c / 64 % 64, 0x80 + c % 64]
    else [0xF0 + c / 262144, 0x80 + c / 4096 % 64, 0x80 + c / 64 % 64, 0x80 + c % 64]
  }

  function EncodedAll(runes: seq<Rune>): Bytes {
    if runes == [] then [] else Encoded(runes[0]) + EncodedAll(runes[1..])
  }

  lemma TwoBytes(c: Rune)
    requires 0x80 <= c < 0x800
    ensures Width(Encoded(c)) == 2
  {
  }

  lemma ThreeBytes(c: Rune)
    requires 0x800 <= c < 0x10000
    ensures Width(Encoded(c)) == 3
  {
    var e := Encoded(c);
    assert 0xE0 <= e[0] <= 0xEF;
    assert e[0] == 0xE0 ==> c / 64 % 64 == c / 64 && e[1] >= 0xA0;
    assert e[0] == 0xED ==> e[1] <= 0x9F;
  }

  lemma FourBytes(c: Rune)
    requires 0x10000 <= c
    ensures Width(Encoded(c)) == 4
  {
    var e := Encoded(c);
    assert 0xF0 <= e[0] <= 0xF4;
    assert e[0] == 0xF0 ==> e[1] >= 0x90;
    assert e[0] == 0xF4 ==> e[1] <= 0x8F;
  }

  /** The encoding of a scalar value is one character. */
  lemma EncodedIsCharacter(c: Rune)
    ensures Width(Encoded(c)) == |Encoded(c)| > 0
  {
    if 0x80 <= c < 0x800 {
      TwoBytes(c);
    } else if 0x800 <= c < 0x10000 {
      ThreeBytes(c);
    } else if 0x10000 <= c {
      FourBytes(c);
    }
  }

  lemma FromTwo(a: Byte, b: Byte)
    requires Width([a, b]) == 2
    ensures var c := Point2(a, b); Scalar(c) && Encoded(c) == [a, b]
  {
  }

  lemma FromThree(a: Byte, b: Byte, d: Byte)
    requires Width([a, b, d]) == 3
    ensures var c := Point3(a, b, d); Scalar(c) && Encoded(c) == [a, b, d]
  {
    var s := [a, b, d];
    assert s[0] == a && s[1] == b && s[2] == d;
    var c := Point3(a, b, d);
    assert 0x800 <= c < 0x10000;
    assert c / 4096 == a - 0xE0 && c / 64 == (a - 0xE0) * 64 + (b - 0x80) && c % 64 == d - 0x80;
  }

  lemma FromFour(a: Byte, b: Byte, d: Byte, e: Byte)
    requires Width([a, b, d, e]) == 4
    ensures var c := Point4(a, b, d, e); Scalar(c) && Encoded(c) == [a, b, d, e]
  {
    var s := [a, b, d, e];
    assert s[0] == a && s[1] == b && s[2] == d && s[3] == e;
    var c := Point4(a, b, d, e);
    assert 0x10000 <= c <= 0x10FFFF;
    assert c / 262144 == a - 0xF0 && c / 4096 == (a - 0xF0) * 64 + (b - 0x80);
    assert c / 64 == (a - 0xF0) * 4096 + (b - 0x80) * 64 + (d - 0x80) && c % 64 == e - 0x80;
  }

  /** Every character is the encoding of a scalar value. */
  lemma CharacterIsEncoded(s: Bytes) returns (c: Rune)
    requires Width(s) > 0
    ensures Encoded(c) == s[..Width(s)]
  {
    var w := Width(s);
    WholeFirst(s, w);
    var e := s[..w];
    if w == 1 {
      c := e[0];
    } else if w == 2 {
      assert e == [e[0], e[1]];
      FromTwo(e[0], e[1]);
      c := Point2(e[0], e[1]);
    } else if w == 3 {
      assert e == [e[0], e[1], e[2]];
      FromThree(e[0], e[1], e[2]);
      c := Point3(e[0], e[1], e[2]);
    } else {
      assert e == [e[0], e[1], e[2], e[3]];
      FromFour(e[0], e[1], e[2], e[3]);
      c := Point4(e[0], e[1], e[2], e[3]);
    }
  }

  lemma {:induction false} EncodedAllIsValid(runes: seq<Rune>)
    ensures Valid(EncodedAll(runes))
  {
    if runes != [] {
      EncodedAllIsValid(runes[1..]);
      EncodedIsCharacter(runes[0]);
      ValidCons(Encoded(runes[0]), EncodedAll(runes[1..]));
    }
  }

  lemma {:induction false} ValidIsEncodedAll(s: Bytes) returns (runes: seq<Rune>)
    requires Valid(s)
    ensures EncodedAll(runes) == s
    decreases |s|
  {
    if s == [] {
      runes := [];
    } else {
      var c := CharacterIsEncoded(s);
      var rest := ValidIsEncodedAll(s[Width(s)..]);
      runes := [c] + rest;
      assert runes[1..] == rest;
      SplitAt(s, Width(s));
    }
  }

  /** Valid UTF-8 is exactly what encodes a sequence of scalar values. */
  lemma ValidIffEncoded(s: Bytes)
    ensures Valid(s) <==> exists runes :: EncodedAll(runes) == s
  {
    if Valid(s) {
      var runes := ValidIsEncodedAll(s);
    }
    if exists runes :: EncodedAll(runes) == s {
      var runes :| EncodedAll(runes) == s;
      EncodedAllIsValid(runes);
    }
  }

  /** The White_Space property of Unicode. */
  predicate WhiteSpace(c: Rune) {
    || 0x09 <= c <= 0x0D || c == 0x20 || c == 0x85 || c == 0xA0 || c == 0x1680
    || 0x2000 <= c <= 0x200A || c == 0x2028 || c == 0x2029 || c == 0x202F || c == 0x205F || c == 0x3000
  }

  /** The bytes trimmed are exactly the encodings of white-space characters. */
  lemma SpaceIsWhiteSpace(c: Rune)
    ensures Space(Encoded(c)) <==> WhiteSpace(c)
  {
  }
}
