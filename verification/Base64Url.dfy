/** Unpadded base64url (sections 3.5 and 5 of RFC 4648) as encoding/base64's
    RawURLEncoding implements it, with and without the strict trailing-bit check. */
module Base64Url {
  import opened Common

  type Sextet = x: int | 0 <= x < 64

  // ----- bytes and sextets -------------------------------------------------------

  function Sextet0(x: Byte): Sextet { x as int / 4 }
  function Sextet1(x: Byte, y: Byte): Sextet { x as int % 4 * 16 + y as int / 16 }
  function Sextet2(x: Byte, y: Byte): Sextet { x as int % 16 * 4 + y as int / 64 }
  function LastOfOne(x: Byte): Sextet { x as int % 4 * 16 }
  function LastOfTwo(x: Byte): Sextet { x as int % 16 * 4 }
  function Sextet3(x: Byte): Sextet { x as int % 64 }

  function Byte0(x: Sextet, y: Sextet): Byte { x as int * 4 + y as int / 16 }
  function Byte1(x: Sextet, y: Sextet): Byte { x as int % 16 * 16 + y as int / 4 }
  function Byte2(x: Sextet, y: Sextet): Byte { x as int % 4 * 64 + y as int }

  lemma GroupOfBytes(b0: Byte, b1: Byte, b2: Byte)
    ensures Byte0(Sextet0(b0), Sextet1(b0, b1)) == b0
    ensures Byte1(Sextet1(b0, b1), Sextet2(b1, b2)) == b1
    ensures Byte2(Sextet2(b1, b2), Sextet3(b2)) == b2
  {
  }

  lemma LastGroupOfBytes(b0: Byte, b1: Byte)
    ensures Byte0(Sextet0(b0), LastOfOne(b0)) == b0 && LastOfOne(b0) % 16 == 0
    ensures Byte0(Sextet0(b0), Sextet1(b0, b1)) == b0
    ensures Byte1(Sextet1(b0, b1), LastOfTwo(b1)) == b1 && LastOfTwo(b1) % 4 == 0
  {
  }

  lemma GroupOfSextets(s0: Sextet, s1: Sextet, s2: Sextet, s3: Sextet)
    ensures Sextet0(Byte0(s0, s1)) == s0
    ensures Sextet1(Byte0(s0, s1), Byte1(s1, s2)) == s1
    ensures Sextet2(Byte1(s1, s2), Byte2(s2, s3)) == s2
    ensures Sextet3(Byte2(s2, s3)) == s3
    ensures s1 % 16 == 0 ==> LastOfOne(Byte0(s0, s1)) == s1
    ensures s2 % 4 == 0 ==> LastOfTwo(Byte1(s1, s2)) == s2
  {
  }

  function ToSextets(b: seq<Byte>): seq<Sextet> {
    if |b| == 0 then []
    else if |b| == 1 then [Sextet0(b[0]), LastOfOne(b[0])]
    else if |b| == 2 then [Sextet0(b[0]), Sextet1(b[0], b[1]), LastOfTwo(b[1])]
    else [Sextet0(b[0]), Sextet1(b[0], b[1]), Sextet2(b[1], b[2]), Sextet3(b[2])] + ToSextets(b[3..])
  }

  function FromSextets(s: seq<Sextet>, strict: bool): Option<seq<Byte>> {
    if |s| == 0 then Some([])
    else if |s| == 1 then None
    else if |s| == 2 then
      if strict && s[1] % 16 != 0 then None else Some([Byte0(s[0], s[1])])
    else if |s| == 3 then
      if strict && s[2] % 4 != 0 then None else Some([Byte0(s[0], s[1]), Byte1(s[1], s[2])])
    else
      match FromSextets(s[4..], strict)
      case None => None
      case Some(rest) => Some([Byte0(s[0], s[1]), Byte1(s[1], s[2]), Byte2(s[2], s[3])] + rest)
  }

  lemma OneByteFrom(b0: Byte, s0: Sextet, s1: Sextet, strict: bool)
    requires Byte0(s0, s1) == b0 && s1 % 16 == 0
    ensures FromSextets([s0, s1], strict) == Some([b0])
  {
  }

  lemma TwoBytesFrom(b0: Byte, b1: Byte, s0: Sextet, s1: Sextet, s2: Sextet, strict: bool)
    requires Byte0(s0, s1) == b0 && Byte1(s1, s2) == b1 && s2 % 4 == 0
    ensures FromSextets([s0, s1, s2], strict) == Some([b0, b1])
  {
  }

  lemma ThreeBytes(b0: Byte, b1: Byte, b2: Byte, s: seq<Sextet>, b: seq<Byte>, strict: bool)
    requires FromSextets(s, strict) == Some(b)
    ensures FromSextets([Sextet0(b0), Sextet1(b0, b1), Sextet2(b1, b2), Sextet3(b2)] + s, strict) == Some([b0, b1, b2] + b)
  {
    GroupOfBytes(b0, b1, b2);
    var all := [Sextet0(b0), Sextet1(b0, b1), Sextet2(b1, b2), Sextet3(b2)] + s;
    assert all[4..] == s;
  }

  lemma {:induction false} SextetRoundTrip(b: seq<Byte>, strict: bool)
    ensures FromSextets(ToSextets(b), strict) == Some(b)
  {
    if |b| == 1 {
      LastGroupOfBytes(b[0], b[0]);
      OneByteFrom(b[0], Sextet0(b[0]), LastOfOne(b[0]), strict);
      assert b == [b[0]];
    } else if |b| == 2 {
      LastGroupOfBytes(b[0], b[1]);
      TwoBytesFrom(b[0], b[1], Sextet0(b[0]), Sextet1(b[0], b[1]), LastOfTwo(b[1]), strict);
      assert b == [b[0], b[1]];
    } else if |b| >= 3 {
      SextetRoundTrip(b[3..], strict);
      ThreeBytes(b[0], b[1], b[2], ToSextets(b[3..]), b[3..], strict);
      assert b == [b[0], b[1], b[2]] + b[3..];
    }
  }

  lemma FourSextets(s: seq<Sextet>, rest: seq<Byte>)
    requires |s| >= 4 && ToSextets(rest) == s[4..]
    ensures ToSextets([Byte0(s[0], s[1]), Byte1(s[1], s[2]), Byte2(s[2], s[3])] + rest) == s
  {
    var all := [Byte0(s[0], s[1]), Byte1(s[1], s[2]), Byte2(s[2], s[3])] + rest;
    GroupOfSextets(s[0], s[1], s[2], s[3]);
    assert all[3..] == rest;
    assert s == [s[0], s[1], s[2], s[3]] + s[4..];
  }

  lemma TwoSextets(x: Sextet, y: Sextet)
    requires y % 16 == 0
    ensures ToSextets([Byte0(x, y)]) == [x, y]
  {
    GroupOfSextets(x, y, 0, 0);
  }

  lemma ThreeSextets(x: Sextet, y: Sextet, z: Sextet)
    requires z % 4 == 0
    ensures ToSextets([Byte0(x, y), Byte1(y, z)]) == [x, y, z]
  {
    GroupOfSextets(x, y, z, 0);
  }

  /** Strictly decoded sextets are the encoding of what they decode to. */
  lemma {:induction false} StrictSextetsCanonical(s: seq<Sextet>)
    requires FromSextets(s, true).Some?
    ensures ToSextets(FromSextets(s, true).value) == s
  {
    if |s| == 2 {
      TwoSextets(s[0], s[1]);
      assert s == [s[0], s[1]];
    } else if |s| == 3 {
      ThreeSextets(s[0], s[1], s[2]);
      assert s == [s[0], s[1], s[2]];
    } else if |s| >= 4 {
      StrictSextetsCanonical(s[4..]);
      FourSextets(s, FromSextets(s[4..], true).value);
    }
  }

  function EncodedLength(n: nat): nat {
    n / 3 * 4 + if n % 3 == 0 then 0 else n % 3 + 1
  }

  lemma {:induction false} SextetLengths(b: seq<Byte>)
    ensures |ToSextets(b)| == EncodedLength(|b|)
  {
    if |b| >= 3 {
      SextetLengths(b[3..]);
      assert |b| / 3 == (|b| - 3) / 3 + 1;
    }
  }

  lemma {:induction false} DecodedLength(s: seq<Sextet>)
    requires FromSextets(s, true).Some?
    ensures |s| == EncodedLength(|FromSextets(s, true).value|)
  {
    StrictSextetsCanonical(s);
    SextetLengths(FromSextets(s, true).value);
  }

  // ----- characters ----------------------------------------------------------------

  function CharOf(x: Sextet): char {
    if x < 26 then 'A' + x as char
    else if x < 52 then 'a' + (x - 26) as char
    else if x < 62 then '0' + (x - 52) as char
    else if x == 62 then '-'
    else '_'
  }

  predicate InAlphabet(c: char) {
    'A' <= c <= 'Z' || 'a' <= c <= 'z' || '0' <= c <= '9' || c == '-' || c == '_'
  }

  function ValueOf(c: char): Sextet
    requires InAlphabet(c)
  {
    if 'A' <= c <= 'Z' then (c - 'A') as int
    else if 'a' <= c <= 'z' then (c - 'a') as int + 26
    else if '0' <= c <= '9' then (c - '0') as int + 52
    else if c == '-' then 62
    else 63
  }

  lemma CharRoundTrip(x: Sextet)
    ensures InAlphabet(CharOf(x)) && ValueOf(CharOf(x)) == x
  {
  }

  lemma ValueRoundTrip(c: char)
    requires InAlphabet(c)
    ensures CharOf(ValueOf(c)) == c
  {
  }

  function Chars(s: seq<Sextet>): (r: string)
    ensures |r| == |s|
  {
    seq(|s|, i requires 0 <= i < |s| => CharOf(s[i]))
  }

  predicate AllInAlphabet(s: string) {
    forall i | 0 <= i < |s| :: InAlphabet(s[i])
  }

  function Values(s: string): (r: seq<Sextet>)
    requires AllInAlphabet(s)
    ensures |r| == |s|
  {
    seq(|s|, i requires 0 <= i < |s| => ValueOf(s[i]))
  }

  /** The decoder skips carriage returns and line feeds anywhere in its input. */
  function SkipNewlines(s: string): string {
    if s == "" then ""
    else if s[0] == '\r' || s[0] == '\n' then SkipNewlines(s[1..])
    else [s[0]] + SkipNewlines(s[1..])
  }

  lemma {:induction false} NothingToSkip(s: string)
    requires AllInAlphabet(s)
    ensures SkipNewlines(s) == s
  {
    if s != "" {
      NothingToSkip(s[1..]);
    }
  }

  function Encode(b: seq<Byte>): string {
    Chars(ToSextets(b))
  }

  function Decode(s: string, strict: bool): Option<seq<Byte>> {
    var kept := SkipNewlines(s);
    if AllInAlphabet(kept) then FromSextets(Values(kept), strict) else None
  }

  /** Every byte string is recovered from its encoding, strictly or not. */
  lemma DecodeEncode(b: seq<Byte>, strict: bool)
    ensures AllInAlphabet(Encode(b)) && |Encode(b)| == EncodedLength(|b|)
    ensures Decode(Encode(b), strict) == Some(b)
  {
    var s := ToSextets(b);
    forall i | 0 <= i < |s| ensures InAlphabet(Encode(b)[i]) && ValueOf(Encode(b)[i]) == s[i] {
      CharRoundTrip(s[i]);
    }
    assert Values(Encode(b)) == s;
    NothingToSkip(Encode(b));
    SextetRoundTrip(b, strict);
    SextetLengths(b);
  }

  /** A strictly decodable string over the alphabet is the encoding of its value, so
      no byte string has two such spellings. */
  lemma EncodeDecode(s: string)
    requires AllInAlphabet(s) && Decode(s, true).Some?
    ensures Encode(Decode(s, true).value) == s
    ensures |s| == EncodedLength(|Decode(s, true).value|)
  {
    NothingToSkip(s);
    StrictSextetsCanonical(Values(s));
    DecodedLength(Values(s));
    forall i | 0 <= i < |s| ensures Chars(Values(s))[i] == s[i] {
      ValueRoundTrip(s[i]);
    }
    assert Chars(Values(s)) == s;
  }

  // ----- against the RFC -----------------------------------------------------------------

  const UPPER := "ABCDEFGHIJKLMNOPQRSTUVWXYZ"

  lemma UpperLetter(i: nat)
    requires i < 26
    ensures |UPPER| == 26 && UPPER[i] == 'A' + i as char
  {
  }

  /** Table 2 of RFC 4648. */
  lemma AlphabetIsTable2(v: Sextet)
    ensures |UPPER + LOWER + DIGITS + "-_"| == 64 && CharOf(v) == (UPPER + LOWER + DIGITS + "-_")[v]
  {
    UpperLetter(if v < 26 then v else 0);
    LowerLetter(if 26 <= v < 52 then v - 26 else 0);
  }

  /** The number that base-256 digits continue `acc` to, most significant first. */
  function Number256(acc: int, b: seq<Byte>): int
    decreases |b|
  {
    if b == [] then acc else Number256(acc * 256 + b[0], b[1..])
  }

  function Number64(acc: int, s: seq<Sextet>): int
    decreases |s|
  {
    if s == [] then acc else Number64(acc * 64 + s[0], s[1..])
  }

  /** Three bytes, or four sextets, as one number. */
  function Word3(b0: int, b1: int, b2: int): int { b0 * 65536 + b1 * 256 + b2 }
  function Word4(s0: int, s1: int, s2: int, s3: int): int { s0 * 262144 + s1 * 4096 + s2 * 64 + s3 }

  lemma Digit64(acc: int, x: Sextet, rest: seq<Sextet>)
    ensures Number64(acc, [x] + rest) == Number64(acc * 64 + x, rest)
  {
    assert ([x] + rest)[1..] == rest;
  }

  lemma Digit256(acc: int, x: Byte, rest: seq<Byte>)
    ensures Number256(acc, [x] + rest) == Number256(acc * 256 + x, rest)
  {
    assert ([x] + rest)[1..] == rest;
  }

  lemma TwoDigits(acc: int, x: Sextet, y: Sextet, rest: seq<Sextet>)
    ensures Number64(acc, [x, y] + rest) == Number64(acc * 4096 + x * 64 + y, rest)
  {
    assert [x, y] + rest == [x] + ([y] + rest);
    Digit64(acc, x, [y] + rest);
    Digit64(acc * 64 + x, y, rest);
  }

  lemma FourDigits(acc: int, s0: Sextet, s1: Sextet, s2: Sextet, s3: Sextet, rest: seq<Sextet>)
    ensures Number64(acc, [s0, s1, s2, s3] + rest) == Number64(acc * 16777216 + Word4(s0, s1, s2, s3), rest)
  {
    assert [s0, s1, s2, s3] + rest == [s0, s1] + ([s2, s3] + rest);
    TwoDigits(acc, s0, s1, [s2, s3] + rest);
    TwoDigits(acc * 4096 + s0 * 64 + s1, s2, s3, rest);
  }

  lemma ThreeDigits(acc: int, b0: Byte, b1: Byte, b2: Byte, rest: seq<Byte>)
    ensures Number256(acc, [b0, b1, b2] + rest) == Number256(acc * 16777216 + Word3(b0, b1, b2), rest)
  {
    var n1 := acc * 256 + b0;
    var n2 := n1 * 256 + b1;
    assert [b0, b1, b2] + rest == [b0] + ([b1] + ([b2] + rest));
    Digit256(acc, b0, [b1] + ([b2] + rest));
    Digit256(n1, b1, [b2] + rest);
    Digit256(n2, b2, rest);
  }

  lemma GroupIsOneNumber(b0: Byte, b1: Byte, b2: Byte)
    ensures Word4(Sextet0(b0), Sextet1(b0, b1), Sextet2(b1, b2), Sextet3(b2)) == Word3(b0, b1, b2)
    ensures Word4(Sextet0(b0), LastOfOne(b0), 0, 0) == Word3(b0, 0, 0)
    ensures Word4(Sextet0(b0), Sextet1(b0, b1), LastOfTwo(b1), 0) == Word3(b0, b1, 0)
  {
  }

  lemma LastByte(acc: int, b0: Byte)
    ensures Number64(acc, [Sextet0(b0), LastOfOne(b0)]) == Number256(acc, [b0]) * 16
  {
    var x, y := Sextet0(b0), LastOfOne(b0);
    assert [x, y] == [x] + [y] && [y] == [y] + [] && [b0] == [b0] + [];
    Digit64(acc, x, [y]);
    Digit64(acc * 64 + x, y, []);
    Digit256(acc, b0, []);
    GroupIsOneNumber(b0, 0, 0);
  }

  lemma LastTwoBytes(acc: int, b0: Byte, b1: Byte)
    ensures Number64(acc, [Sextet0(b0), Sextet1(b0, b1), LastOfTwo(b1)]) == Number256(acc, [b0, b1]) * 4
  {
    var x, y, z := Sextet0(b0), Sextet1(b0, b1), LastOfTwo(b1);
    assert [x, y, z] == [x] + ([y] + [z]) && [z] == [z] + [] && [b0, b1] == [b0] + [b1] && [b1] == [b1] + [];
    Digit64(acc, x, [y] + [z]);
    Digit64(acc * 64 + x, y, [z]);
    Digit64((acc * 64 + x) * 64 + y, z, []);
    Digit256(acc, b0, [b1]);
    Digit256(acc * 256 + b0, b1, []);
    GroupIsOneNumber(b0, b1, 0);
  }

  /** A number followed by the zero bits that fill up the last character of n bytes. */
  function Filled(number: int, n: nat): int {
    if n % 3 == 0 then number else if n % 3 == 1 then number * 16 else number * 4
  }

  lemma SameFilling(number: int, n: nat)
    requires n >= 3
    ensures Filled(number, n) == Filled(number, n - 3)
  {
  }

  /** What spelling the bytes makes of `acc`, in characters and in bytes. */
  function Spelled(acc: int, b: seq<Byte>): (int, int) {
    (Number64(acc, ToSextets(b)), Filled(Number256(acc, b), |b|))
  }

  lemma OneGroup(b: seq<Byte>, acc: int)
    requires |b| >= 3
    ensures Spelled(acc, b) == Spelled(acc * 16777216 + Word3(b[0], b[1], b[2]), b[3..])
  {
    GroupIsOneNumber(b[0], b[1], b[2]);
    assert b == [b[0], b[1], b[2]] + b[3..];
    ThreeDigits(acc, b[0], b[1], b[2], b[3..]);
    FourDigits(acc, Sextet0(b[0]), Sextet1(b[0], b[1]), Sextet2(b[1], b[2]), Sextet3(b[2]), ToSextets(b[3..]));
    SameFilling(Number256(acc, b), |b|);
  }

  lemma ShortEnd(b: seq<Byte>, acc: int)
    requires |b| < 3
    ensures Spelled(acc, b).0 == Spelled(acc, b).1
  {
    if |b| == 1 {
      assert b == [b[0]];
      LastByte(acc, b[0]);
    } else if |b| == 2 {
      assert b == [b[0], b[1]];
      LastTwoBytes(acc, b[0], b[1]);
    }
  }

  lemma {:induction false} SpelledAlike(b: seq<Byte>, acc: int)
    ensures Spelled(acc, b).0 == Spelled(acc, b).1
    decreases |b|
  {
    if |b| < 3 {
      ShortEnd(b, acc);
    } else {
      OneGroup(b, acc);
      SpelledAlike(b[3..], acc * 16777216 + Word3(b[0], b[1], b[2]));
    }
  }

  /** The characters spell the bits of the bytes in order, filled up with zero bits. */
  lemma EncodingKeepsBitOrder(b: seq<Byte>)
    ensures Number64(0, ToSextets(b)) == Filled(Number256(0, b), |b|)
  {
    SpelledAlike(b, 0);
  }
}
