/** The canonical V1 credential grammar: wisp_<type>_v1_<kid>_<secret>. */
module Token {
  import opened Common
  import opened Base64Url

  const PREFIX := "wisp_"
  const VERSION_PREFIX := "v1_"
  const KID_LENGTH := 24
  const SECRET_BYTES := 32
  const SECRET_LENGTH := 43

  datatype Token = Token(tokenType: string, kid: string, secret: seq<Byte>)

  predicate ValidType(t: string) {
    t == "pat" || t == "cap" || t == "ses" || t == "whsec"
  }

  predicate IsLowerHex(s: string) {
    |s| == KID_LENGTH && forall i | 0 <= i < |s| :: '0' <= s[i] <= '9' || 'a' <= s[i] <= 'f'
  }

  const HEX_DIGITS := "0123456789abcdef"

  /** A KID is 24 of the sixteen lower-case hexadecimal digits. */
  lemma KidsAreHexDigits(s: string)
    ensures IsLowerHex(s) <==> |s| == 24 && forall i | 0 <= i < |s| :: s[i] in HEX_DIGITS
  {
    forall c: char ensures c in HEX_DIGITS <==> '0' <= c <= '9' || 'a' <= c <= 'f' {
      HexDigit(c);
    }
  }

  lemma HexDigit(c: char)
    ensures c in HEX_DIGITS <==> '0' <= c <= '9' || 'a' <= c <= 'f'
  {
    if '0' <= c <= '9' { assert HEX_DIGITS[c as int - '0' as int] == c; }
    if 'a' <= c <= 'f' { assert HEX_DIGITS[10 + (c as int - 'a' as int)] == c; }
  }

  /** strings.IndexByte(s, '_'), or |s| when there is none. */
  function FindUnderscore(s: string): (n: nat)
    ensures n <= |s|
    ensures n < |s| ==> s[n] == '_'
    ensures forall i | 0 <= i < n :: s[i] != '_'
  {
    if s == "" || s[0] == '_' then 0 else 1 + FindUnderscore(s[1..])
  }

  function Parse(plaintext: string): Option<Token> {
    if !HasPrefix(plaintext, PREFIX) then None
    else
      var remainder := plaintext[|PREFIX|..];
      var typeEnd := FindUnderscore(remainder);
      if typeEnd == 0 || typeEnd == |remainder| then None
      else if !ValidType(remainder[..typeEnd]) then None
      else ParseBody(remainder[..typeEnd], remainder[typeEnd + 1..])
  }

  /** Everything after the type and its underscore. */
  function ParseBody(tokenType: string, s: string): Option<Token> {
    if !HasPrefix(s, VERSION_PREFIX) then None
    else
      var remainder := s[|VERSION_PREFIX|..];
      if |remainder| != KID_LENGTH + 1 + SECRET_LENGTH || remainder[KID_LENGTH] != '_' then None
      else
        var kid, encoded := remainder[..KID_LENGTH], remainder[KID_LENGTH + 1..];
        if !IsLowerHex(kid) || !AllInAlphabet(encoded) then None
        else
          match Decode(encoded, true)
          case None => None
          case Some(secret) => if |secret| != SECRET_BYTES then None else Some(Token(tokenType, kid, secret))
  }

  predicate Valid(t: Token) {
    ValidType(t.tokenType) && IsLowerHex(t.kid) && |t.secret| == SECRET_BYTES
  }

  /** Encode, for the fixed 32-byte secrets the type admits. */
  function Encode(t: Token): Option<string>
    requires |t.secret| == SECRET_BYTES
  {
    if !ValidType(t.tokenType) || !IsLowerHex(t.kid) then None
    else
      var encoded := Base64Url.Encode(t.secret);
      if |encoded| != SECRET_LENGTH then None
      else Some(PREFIX + (t.tokenType + "_" + (VERSION_PREFIX + (t.kid + "_" + encoded))))
  }

  /** The layout of a token, and the one length a type gives it. */
  lemma TokenLayout(t: Token)
    requires Valid(t)
    ensures Encode(t) == Some("wisp_" + t.tokenType + "_v1_" + t.kid + "_" + Base64Url.Encode(t.secret))
    ensures |Encode(t).value| == 77 + |t.tokenType|
  {
    DecodeEncode(t.secret, true);
    assert EncodedLength(32) == 43;
    var encoded := Base64Url.Encode(t.secret);
    assert PREFIX + (t.tokenType + "_" + (VERSION_PREFIX + (t.kid + "_" + encoded))) == "wisp_" + t.tokenType + "_v1_" + t.kid + "_" + encoded;
  }

  lemma TypesHaveNoUnderscore(t: string)
    requires ValidType(t)
    ensures t != "" && forall i | 0 <= i < |t| :: t[i] != '_'
  {
  }

  lemma {:induction false} FindAfter(t: string, rest: string)
    requires forall i | 0 <= i < |t| :: t[i] != '_'
    ensures FindUnderscore(t + "_" + rest) == |t|
  {
    var s := t + "_" + rest;
    if t != "" {
      FindAfter(t[1..], rest);
      assert s[1..] == t[1..] + "_" + rest;
    }
  }

  lemma BodyRoundTrip(t: Token)
    requires Valid(t)
    ensures ParseBody(t.tokenType, VERSION_PREFIX + (t.kid + "_" + Base64Url.Encode(t.secret))) == Some(t)
    ensures |Base64Url.Encode(t.secret)| == SECRET_LENGTH
  {
    var encoded := Base64Url.Encode(t.secret);
    var s := t.kid + "_" + encoded;
    DecodeEncode(t.secret, true);
    assert EncodedLength(32) == 43;
    assert (VERSION_PREFIX + s)[|VERSION_PREFIX|..] == s;
    assert s[..KID_LENGTH] == t.kid && s[KID_LENGTH + 1..] == encoded;
  }

  /** Encoding succeeds exactly on valid tokens, and parsing gives the token back. */
  lemma ParseEncode(t: Token)
    requires |t.secret| == SECRET_BYTES
    ensures Encode(t).Some? <==> Valid(t)
    ensures Valid(t) ==> Parse(Encode(t).value) == Some(t)
  {
    if Valid(t) {
      BodyRoundTrip(t);
      TypesHaveNoUnderscore(t.tokenType);
      var body := VERSION_PREFIX + (t.kid + "_" + Base64Url.Encode(t.secret));
      var tail := t.tokenType + "_" + body;
      FindAfter(t.tokenType, body);
      assert (PREFIX + tail)[|PREFIX|..] == tail;
      assert tail[..|t.tokenType|] == t.tokenType && tail[|t.tokenType| + 1..] == body;
    }
  }

  lemma CutAt(s: string, n: nat)
    requires n < |s| && s[n] == '_'
    ensures s == s[..n] + "_" + s[n + 1..]
  {
  }

  lemma BodyCanonical(tokenType: string, s: string)
    requires ParseBody(tokenType, s).Some?
    ensures var t := ParseBody(tokenType, s).value;
            && t.tokenType == tokenType && IsLowerHex(t.kid) && |t.secret| == SECRET_BYTES
            && |Base64Url.Encode(t.secret)| == SECRET_LENGTH
            && s == VERSION_PREFIX + (t.kid + "_" + Base64Url.Encode(t.secret))
  {
    var remainder := s[|VERSION_PREFIX|..];
    var encoded := remainder[KID_LENGTH + 1..];
    EncodeDecode(encoded);
    CutAt(remainder, KID_LENGTH);
    CutPrefix(s, VERSION_PREFIX);
  }

  /** Every accepted string is the encoding of the token it parses to. */
  lemma EncodeParse(s: string)
    requires Parse(s).Some?
    ensures Valid(Parse(s).value) && Encode(Parse(s).value) == Some(s)
  {
    var remainder := s[|PREFIX|..];
    var n := FindUnderscore(remainder);
    var tokenType, body := remainder[..n], remainder[n + 1..];
    BodyCanonical(tokenType, body);
    var t := Parse(s).value;
    CutPrefix(s, PREFIX);
    CutAt(remainder, n);
  }

  /** Each token has exactly one accepted spelling. */
  lemma OneSpelling(s: string, u: string)
    requires Parse(s).Some? && Parse(s) == Parse(u)
    ensures s == u
  {
    EncodeParse(s);
    EncodeParse(u);
  }
}
