/** Content keys: "sha256/" followed by 64 lowercase hexadecimal digits. */
module ContentKey {
  import opened Common

  const PREFIX := "sha256/"
  const DIGEST_HEX_LENGTH := 64

  predicate HexDigit(c: char) {
    '0' <= c <= '9' || 'a' <= c <= 'f' || 'A' <= c <= 'F'
  }

  function LowerChar(c: char): char {
    if 'A' <= c <= 'Z' then c - 'A' + 'a' else c
  }

  /** strings.ToLower on the ASCII range; other bytes never pass the hexadecimal check. */
  function ToLower(s: string): (r: string)
    ensures |r| == |s|
  {
    seq(|s|, i requires 0 <= i < |s| => LowerChar(s[i]))
  }

  /** The checks of relativePathForKey and ContentRef.Validate on the digest part. */
  predicate AcceptedDigest(digest: string) {
    && |digest| == DIGEST_HEX_LENGTH
    && ToLower(digest) == digest
    && forall c | c in digest :: HexDigit(c)
  }

  predicate LowerHex(s: string) {
    forall c | c in s :: '0' <= c <= '9' || 'a' <= c <= 'f'
  }

  /** Length, case folding and hexadecimal decoding together accept exactly the
      64-character lowercase hexadecimal strings. */
  lemma AcceptedDigestIsLowerHex(digest: string)
    ensures AcceptedDigest(digest) <==> |digest| == DIGEST_HEX_LENGTH && LowerHex(digest)
  {
    if AcceptedDigest(digest) {
      forall c | c in digest ensures '0' <= c <= '9' || 'a' <= c <= 'f' {
        var i :| 0 <= i < |digest| && digest[i] == c;
        assert ToLower(digest)[i] == LowerChar(c);
      }
    } else if |digest| == DIGEST_HEX_LENGTH && LowerHex(digest) {
      forall i | 0 <= i < |digest| ensures ToLower(digest)[i] == digest[i] {
        assert digest[i] in digest;
      }
    }
  }

  predicate Valid(key: string) {
    HasPrefix(key, PREFIX) && AcceptedDigest(key[|PREFIX|..])
  }

  function KeyOf(digest: string): string { PREFIX + digest }

  function DigestOf(key: string): (digest: string)
    requires Valid(key)
    ensures AcceptedDigest(digest) && KeyOf(digest) == key
  {
    key[|PREFIX|..]
  }

  lemma KeyOfDigest(digest: string)
    requires AcceptedDigest(digest)
    ensures Valid(KeyOf(digest)) && DigestOf(KeyOf(digest)) == digest
  {
  }
}
