/** UTF-8 as Go's unicode/utf8 and strings packages treat it: validity, removal of
    invalid bytes, white-space trimming and truncation. */
module Utf8 {
  import opened Common

  type Bytes = seq<Byte>

  predicate Continuation(b: Byte) { 0x80 <= b <= 0xBF }

  /** The bytes that may follow the lead byte; the first continuation is narrower after
      E0, ED, F0 and F4 (section 4 of RFC 3629). */
  predicate Second(lead: Byte, b: Byte) {
    && Continuation(b)
    && (lead == 0xE0 ==> b >= 0xA0) && (lead == 0xED ==> b <= 0x9F)
    && (lead == 0xF0 ==> b >= 0x90) && (lead == 0xF4 ==> b <= 0x8F)
  }

  function Length(lead: Byte): nat {
    if lead < 0x80 then 1
    else if 0xC2 <= lead <= 0xDF then 2
    else if 0xE0 <= lead <= 0xEF then 3
    else if 0xF0 <= lead <= 0xF4 then 4
    else 0
  }

  /** The number of bytes of the character at the front of s; 0 if there is none. */
  function Width(s: Bytes): (w: nat)
    ensures w <= 4 && w <= |s|
    ensures forall i | 1 <= i < w :: Continuation(s[i])
    ensures w > 0 ==> w == Length(s[0])
  {
    if s == [] then 0
    else
      var w := Length(s[0]);
      if |s| < w then 0
      else if w >= 2 && !Second(s[0], s[1]) then 0
      else if w >= 3 && !Continuation(s[2]) then 0
      else if w >= 4 && !Continuation(s[3]) then 0
      else w
  }

  /** utf8.ValidString. */
  predicate Valid(s: Bytes)
    decreases |s|
  {
    s == [] || (Width(s) > 0 && Valid(s[Width(s)..]))
  }

  lemma WidthExtends(a: Bytes, b: Bytes)
    ensures Width(a) > 0 ==> Width(a + b) == Width(a)
    ensures 0 < Width(a + b) <= |a| ==> Width(a) == Width(a + b)
  {
    if a != [] {
      assert (a + b)[0] == a[0];
    }
  }

  lemma Regroup(a: Bytes, w: nat, b: Bytes)
    requires w <= |a|
    ensures a[..w] + (a[w..] + b) == a + b && (a + b)[w..] == a[w..] + b
  {
  }

  lemma {:induction false} ValidConcat(a: Bytes, b: Bytes)
    requires Valid(a) && Valid(b)
    ensures Valid(a + b)
    decreases |a|
  {
    if a == [] {
      assert a + b == b;
    } else {
      var w := Width(a);
      ValidConcat(a[w..], b);
      WholeFirst(a, w);
      ValidCons(a[..w], a[w..] + b);
      Regroup(a, w, b);
    }
  }

  /** Characters are self-delimiting: a valid string splits before any byte that is not
      a continuation. */
  lemma {:induction false} ValidSplit(a: Bytes, b: Bytes)
    requires Valid(a + b) && (b == [] || !Continuation(b[0]))
    ensures Valid(a) && Valid(b)
    decreases |a|
  {
    if a == [] {
      assert a + b == b;
    } else if b == [] {
      assert a + b == a;
    } else {
      var w := Width(a + b);
      assert (a + b)[|a|] == b[0];
      assert w <= |a|;
      WidthExtends(a, b);
      Regroup(a, w, b);
      ValidSplit(a[w..], b);
    }
  }

  /** strings.ToValidUTF8(s, ""): each byte that starts no character is dropped. */
  function ToValid(s: Bytes): (r: Bytes)
    ensures Valid(r) && |r| <= |s|
    decreases |s|
  {
    if s == [] then []
    else if Width(s) == 0 then ToValid(s[1..])
    else
      var w := Width(s);
      var rest := ToValid(s[w..]);
      assert Width(s[..w] + rest) == w by { WholeFirst(s, w); WidthExtends(s[..w], rest); }
      assert (s[..w] + rest)[w..] == rest;
      s[..w] + rest
  }

  lemma WholeFirst(s: Bytes, w: nat)
    requires w == Width(s) > 0
    ensures Width(s[..w]) == w
  {
  }

  lemma {:induction false} ToValidKeepsValid(s: Bytes)
    requires Valid(s)
    ensures ToValid(s) == s
    decreases |s|
  {
    if s != [] { ToValidKeepsValid(s[Width(s)..]); }
  }

  /** Every character before and between invalid bytes survives, in place, and a byte that
      starts none is all that goes: with the empty string these equations say what remains
      of any string. */
  lemma {:induction false} ToValidKeepsCharacters(a: Bytes, s: Bytes)
    requires Valid(a)
    ensures ToValid(a + s) == a + ToValid(s)
    ensures s != [] && Width(s) == 0 ==> ToValid(a + s) == a + ToValid(s[1..])
    decreases |a|
  {
    if a == [] {
      assert a + s == s && a + ToValid(s) == ToValid(s);
    } else {
      var w := Width(a);
      WidthExtends(a, s);
      Regroup(a, w, s);
      ToValidKeepsCharacters(a[w..], s);
      assert (a + s)[..w] == a[..w];
      Regroup(a, w, ToValid(s));
    }
  }

  // ----- NUL bytes -------------------------------------------------------------------------

  /** strings.ReplaceAll(s, "\x00", ""). */
  function DropNul(s: Bytes): (r: Bytes)
    ensures |r| <= |s| && NoNul(r)
  {
    if s == [] then []
    else if s[0] == 0 then DropNul(s[1..])
    else [s[0]] + DropNul(s[1..])
  }

  predicate NoNul(s: Bytes) { forall i | 0 <= i < |s| :: s[i] != 0 }

  lemma {:induction false} DropNulSkips(s: Bytes, w: nat)
    requires w <= |s| && forall i | 0 <= i < w :: s[i] != 0
    ensures DropNul(s) == s[..w] + DropNul(s[w..])
    decreases w
  {
    if w == 0 {
      assert s[0..] == s;
    } else {
      DropNulSkips(s[1..], w - 1);
      assert s[1..][w - 1..] == s[w..];
      assert s[..w] == [s[0]] + s[1..][..w - 1];
    }
  }

  lemma ValidCons(first: Bytes, rest: Bytes)
    requires first != [] && Width(first) == |first| && Valid(rest)
    ensures Valid(first + rest)
  {
  }

  lemma {:induction false} DropNulKeepsValid(s: Bytes)
    requires Valid(s)
    ensures Valid(DropNul(s))
    decreases |s|
  {
    if s != [] {
      var w := Width(s);
      DropNulKeepsValid(s[w..]);
      if s[0] != 0 {
        DropNulSkips(s, w);
        WholeFirst(s, w);
        ValidCons(s[..w], DropNul(s[w..]));
      }
    }
  }

  // ----- white space -----------------------------------------------------------------------

  /** The encodings of the Unicode white-space characters. */
  predicate Space(e: Bytes) {
    || (|e| == 1 && (0x09 <= e[0] <= 0x0D || e[0] == 0x20))
    || (|e| == 2 && e[0] == 0xC2 && (e[1] == 0x85 || e[1] == 0xA0))
    || (|e| == 3 && e[0] == 0xE1 && e[1] == 0x9A && e[2] == 0x80)
    || (|e| == 3 && e[0] == 0xE2 && e[1] == 0x80 && (0x80 <= e[2] <= 0x8A || e[2] == 0xA8 || e[2] == 0xA9 || e[2] == 0xAF))
    || (|e| == 3 && e[0] == 0xE2 && e[1] == 0x81 && e[2] == 0x9F)
    || (|e| == 3 && e[0] == 0xE3 && e[1] == 0x80 && e[2] == 0x80)
  }

  /** The length of the white-space character at the front of s, or 0. */
  function LeadingSpace(s: Bytes): (w: nat)
    ensures w <= |s| && (w > 0 ==> Space(s[..w]))
  {
    if |s| >= 1 && Space(s[..1]) then 1
    else if |s| >= 2 && Space(s[..2]) then 2
    else if |s| >= 3 && Space(s[..3]) then 3
    else 0
  }

  /** The length of the white-space character at the end of s, or 0. */
  function TrailingSpace(s: Bytes): (w: nat)
    ensures w <= |s| && (w > 0 ==> Space(s[|s| - w..]))
  {
    if |s| >= 1 && Space(s[|s| - 1..]) then 1
    else if |s| >= 2 && Space(s[|s| - 2..]) then 2
    else if |s| >= 3 && Space(s[|s| - 3..]) then 3
    else 0
  }

  /** Without the white-space character at the front. */
  function ChopLeft(s: Bytes): (r: Bytes)
    ensures |r| <= |s| && r == s[|s| - |r|..] && (|r| == |s| <==> LeadingSpace(s) == 0)
  {
    s[LeadingSpace(s)..]
  }

  /** Without the white-space character at the end. */
  function ChopRight(s: Bytes): (r: Bytes)
    ensures |r| <= |s| && r == s[..|r|] && (|r| == |s| <==> TrailingSpace(s) == 0)
  {
    s[..|s| - TrailingSpace(s)]
  }

  function TrimLeft(s: Bytes): Bytes
    decreases |s|
  {
    if LeadingSpace(s) == 0 then s else TrimLeft(ChopLeft(s))
  }

  function TrimRight(s: Bytes): Bytes
    decreases |s|
  {
    if TrailingSpace(s) == 0 then s else TrimRight(ChopRight(s))
  }

  /** strings.TrimSpace, on valid strings. */
  function Trim(s: Bytes): Bytes { TrimRight(TrimLeft(s)) }

  lemma SpaceIsOneCharacter(e: Bytes)
    requires Space(e)
    ensures |e| >= 1 && !Continuation(e[0]) && Width(e) == |e|
  {
  }

  lemma DropFirst(s: Bytes)
    requires Valid(s) && LeadingSpace(s) > 0
    ensures Valid(ChopLeft(s))
  {
    var w := LeadingSpace(s);
    SpaceIsOneCharacter(s[..w]);
    SplitAt(s, w);
    WidthExtends(s[..w], s[w..]);
  }

  lemma DropSpace(a: Bytes, e: Bytes)
    requires Valid(a + e) && Space(e)
    ensures Valid(a)
  {
    SpaceIsOneCharacter(e);
    ValidSplit(a, e);
  }

  lemma SplitAt(s: Bytes, k: nat)
    requires k <= |s|
    ensures s == s[..k] + s[k..]
  {
  }

  lemma DropLast(s: Bytes)
    requires Valid(s) && TrailingSpace(s) > 0
    ensures Valid(ChopRight(s))
  {
    SplitAt(s, |s| - TrailingSpace(s));
    DropSpace(s[..|s| - TrailingSpace(s)], s[|s| - TrailingSpace(s)..]);
  }

  lemma {:induction false} TrimLeftKeepsValid(s: Bytes)
    requires Valid(s)
    ensures Valid(TrimLeft(s)) && LeadingSpace(TrimLeft(s)) == 0
    decreases |s|
  {
    if LeadingSpace(s) > 0 {
      DropFirst(s);
      TrimLeftKeepsValid(ChopLeft(s));
    }
  }

  lemma {:induction false} TrimRightKeepsValid(s: Bytes)
    requires Valid(s)
    ensures Valid(TrimRight(s)) && TrailingSpace(TrimRight(s)) == 0
    decreases |s|
  {
    if TrailingSpace(s) > 0 {
      DropLast(s);
      TrimRightKeepsValid(ChopRight(s));
    }
  }

  lemma SuffixOfSuffix(s: Bytes, n: nat, k: nat)
    requires k <= n <= |s|
    ensures s[|s| - n..][n - k..] == s[|s| - k..]
  {
  }

  lemma PrefixOfPrefix(s: Bytes, n: nat, k: nat)
    requires k <= n <= |s|
    ensures s[..n][..k] == s[..k]
  {
  }

  lemma {:induction false} TrimLeftIsSuffix(s: Bytes)
    ensures |TrimLeft(s)| <= |s| && TrimLeft(s) == s[|s| - |TrimLeft(s)|..]
    decreases |s|
  {
    if LeadingSpace(s) != 0 {
      TrimLeftIsSuffix(ChopLeft(s));
      SuffixOfSuffix(s, |ChopLeft(s)|, |TrimLeft(s)|);
    }
  }

  lemma {:induction false} TrimRightIsPrefix(s: Bytes)
    ensures |TrimRight(s)| <= |s| && TrimRight(s) == s[..|TrimRight(s)|]
    decreases |s|
  {
    if TrailingSpace(s) != 0 {
      TrimRightIsPrefix(ChopRight(s));
      PrefixOfPrefix(s, |ChopRight(s)|, |TrimRight(s)|);
    }
  }

  lemma PrefixHasNoLeadingSpace(s: Bytes, n: nat)
    requires n <= |s| && LeadingSpace(s) == 0
    ensures LeadingSpace(s[..n]) == 0
  {
    if n >= 1 { PrefixOfPrefix(s, n, 1); }
    if n >= 2 { PrefixOfPrefix(s, n, 2); }
    if n >= 3 { PrefixOfPrefix(s, n, 3); }
  }

  lemma PartHasNoNul(s: Bytes, a: nat, b: nat)
    requires a <= |s| && b <= |s| - a && NoNul(s)
    ensures NoNul(s[a..][..b])
  {
  }

  /** What is left by trimming is a stretch of the string. */
  lemma TrimIsPart(s: Bytes)
    ensures |Trim(s)| <= |TrimLeft(s)| <= |s|
    ensures Trim(s) == TrimLeft(s)[..|Trim(s)|] && TrimLeft(s) == s[|s| - |TrimLeft(s)|..]
  {
    TrimLeftIsSuffix(s);
    TrimRightIsPrefix(TrimLeft(s));
  }

  /** Trimming keeps a valid string valid and leaves white space at neither end. */
  lemma TrimKeepsValid(s: Bytes)
    requires Valid(s)
    ensures Valid(Trim(s)) && |Trim(s)| <= |s|
    ensures LeadingSpace(Trim(s)) == 0 && TrailingSpace(Trim(s)) == 0
    ensures NoNul(s) ==> NoNul(Trim(s))
  {
    TrimIsPart(s);
    TrimLeftKeepsValid(s);
    TrimRightKeepsValid(TrimLeft(s));
    PrefixHasNoLeadingSpace(TrimLeft(s), |Trim(s)|);
    if NoNul(s) { PartHasNoNul(s, |s| - |TrimLeft(s)|, |Trim(s)|); }
  }

  lemma {:induction false} TrimRightLeavesNone(s: Bytes)
    ensures TrailingSpace(TrimRight(s)) == 0
    decreases |s|
  {
    if TrailingSpace(s) > 0 { TrimRightLeavesNone(ChopRight(s)); }
  }

  lemma {:induction false} TrimLeftLeavesNone(s: Bytes)
    ensures LeadingSpace(TrimLeft(s)) == 0
    decreases |s|
  {
    if LeadingSpace(s) > 0 { TrimLeftLeavesNone(ChopLeft(s)); }
  }

  predicate AllSpace(es: seq<Bytes>) { forall i | 0 <= i < |es| :: Space(es[i]) }

  function Concat(es: seq<Bytes>): Bytes { if es == [] then [] else es[0] + Concat(es[1..]) }

  lemma Grouped(a: Bytes, b: Bytes, c: Bytes)
    ensures a + b + c == a + (b + c)
  {
  }

  lemma {:induction false} ConcatSnoc(es: seq<Bytes>, e: Bytes)
    ensures Concat(es + [e]) == Concat(es) + e
  {
    if es == [] {
      assert es + [e] == [e] && [e][1..] == [];
    } else {
      ConcatSnoc(es[1..], e);
      assert (es + [e])[1..] == es[1..] + [e];
      Grouped(es[0], Concat(es[1..]), e);
    }
  }

  lemma ConcatCons(e: Bytes, es: seq<Bytes>)
    ensures Concat([e] + es) == e + Concat(es)
  {
    assert ([e] + es)[1..] == es;
  }

  lemma {:induction false} TrimmedFront(s: Bytes) returns (es: seq<Bytes>)
    ensures AllSpace(es) && s == Concat(es) + TrimLeft(s)
    decreases |s|
  {
    es := [];
    if LeadingSpace(s) > 0 {
      var rest := TrimmedFront(ChopLeft(s));
      var e := s[..LeadingSpace(s)];
      es := [e] + rest;
      ConcatCons(e, rest);
      SplitAt(s, LeadingSpace(s));
      Grouped(e, Concat(rest), TrimLeft(s));
    }
  }

  lemma {:induction false} TrimmedBack(s: Bytes) returns (es: seq<Bytes>)
    ensures AllSpace(es) && s == TrimRight(s) + Concat(es)
    decreases |s|
  {
    es := [];
    if TrailingSpace(s) > 0 {
      var rest := TrimmedBack(ChopRight(s));
      var k := |s| - TrailingSpace(s);
      es := rest + [s[k..]];
      ConcatSnoc(rest, s[k..]);
      SplitAt(s, k);
      Grouped(TrimRight(s), Concat(rest), s[k..]);
    }
  }

  /** Trimming removes white-space characters, and only those, until neither the front nor
      the back is one. */
  lemma TrimRemovesExactlySpace(s: Bytes) returns (front: seq<Bytes>, back: seq<Bytes>)
    ensures AllSpace(front) && AllSpace(back) && s == Concat(front) + (Trim(s) + Concat(back))
    ensures forall k | 0 <= k <= |Trim(s)| :: !Space(Trim(s)[..k]) && !Space(Trim(s)[k..])
  {
    front := TrimmedFront(s);
    back := TrimmedBack(TrimLeft(s));
    TrimIsPart(s);
    TrimLeftLeavesNone(s);
    TrimRightLeavesNone(TrimLeft(s));
    PrefixHasNoLeadingSpace(TrimLeft(s), |Trim(s)|);
    NoSpaceAtEnds(Trim(s));
  }

  lemma NoSpaceAtEnds(s: Bytes)
    requires LeadingSpace(s) == 0 && TrailingSpace(s) == 0
    ensures forall k | 0 <= k <= |s| :: !Space(s[..k]) && !Space(s[k..])
  {
    forall k | 0 <= k <= |s| ensures !Space(s[..k]) && !Space(s[k..]) {
      assert |s| - k == 1 || |s| - k == 2 || |s| - k == 3 || !Space(s[k..]);
    }
  }

  // ----- truncation ------------------------------------------------------------------------

  function LongestValid(s: Bytes): (r: Bytes)
    ensures Valid(r) && |r| <= |s| && r == s[..|r|]
    ensures forall n | |r| < n <= |s| :: !Valid(s[..n])
    decreases |s|
  {
    if Valid(s) then s
    else
      var r := LongestValid(s[..|s| - 1]);
      assert forall n | |r| < n <= |s| - 1 :: s[..|s| - 1][..n] == s[..n];
      assert s[..|s|] == s;
      r
  }

  /** truncateUTF8's result: nothing is cut if it fits, otherwise the longest valid prefix within the limit. */
  function Truncated(value: Bytes, maxBytes: int): Bytes {
    if maxBytes <= 0 || |value| <= maxBytes then value else LongestValid(value[..maxBytes])
  }

  method TruncateUtf8(value: Bytes, maxBytes: int) returns (r: Bytes)
    ensures r == Truncated(value, maxBytes)
  {
    if maxBytes <= 0 || |value| <= maxBytes { return value; }
    r := value[..maxBytes];
    while !Valid(r)
      invariant |r| <= maxBytes && LongestValid(r) == LongestValid(value[..maxBytes])
      decreases |r|
    {
      r := r[..|r| - 1];
    }
  }

  /** Text is left alone exactly when there is no limit or it fits. */
  lemma TruncatesIffTooLong(value: Bytes, maxBytes: int)
    ensures Truncated(value, maxBytes) == value <==> maxBytes <= 0 || |value| <= maxBytes
    ensures maxBytes > 0 ==> |Truncated(value, maxBytes)| <= maxBytes && Truncated(value, maxBytes) <= value
  {
  }

  /** Within any prefix of a valid string, fewer than four bytes from its end, a character starts. */
  lemma {:induction false} BoundaryNear(s: Bytes, n: nat)
    requires Valid(s) && n <= |s|
    ensures exists k | 0 <= k <= n && n - k <= 3 :: Valid(s[..k])
    decreases |s|
  {
    if s == [] || n < Width(s) {
      assert s[..0] == [] && Valid(s[..0]);
    } else {
      var w := Width(s);
      BoundaryNear(s[w..], n - w);
      var k :| 0 <= k <= n - w && n - w - k <= 3 && Valid(s[w..][..k]);
      WholeFirst(s, w);
      ValidCons(s[..w], s[w..][..k]);
      assert s[..w] + s[w..][..k] == s[..w + k];
    }
  }

  /** Truncating valid text loses less than one character of the room there is. */
  lemma TruncationUsesTheRoom(value: Bytes, maxBytes: nat)
    requires Valid(value) && 0 < maxBytes < |value|
    ensures Valid(Truncated(value, maxBytes)) && maxBytes - 3 <= |Truncated(value, maxBytes)| <= maxBytes
  {
    BoundaryNear(value, maxBytes);
    var k :| 0 <= k <= maxBytes && maxBytes - k <= 3 && Valid(value[..k]);
    assert value[..maxBytes][..k] == value[..k];
  }
}
