/** Types and string helpers shared by the other modules. */
module Common {
  datatype Option<+T> = None | Some(value: T)
  datatype Result<+T, +E> = Ok(value: T) | Err(error: E)

  /** Stored bytes. */
  type Raw = seq<bv8>

  /** A byte where its number matters. */
  type Byte = x: int | 0 <= x < 256

  predicate HasPrefix(s: string, prefix: string) {
    |prefix| <= |s| && s[..|prefix|] == prefix
  }

  lemma CutPrefix(s: string, prefix: string)
    requires HasPrefix(s, prefix)
    ensures s == prefix + s[|prefix|..]
  {
  }

  const LOWER := "abcdefghijklmnopqrstuvwxyz"
  const DIGITS := "0123456789"

  lemma LowerLetter(i: nat)
    requires i < 26
    ensures |LOWER| == 26 && LOWER[i] == 'a' + i as char
  {
  }

  lemma LowerLetters(c: char)
    ensures c in LOWER <==> 'a' <= c <= 'z'
  {
    if 'a' <= c <= 'z' { LowerLetter(c as int - 'a' as int); }
    if c in LOWER {
      var i :| 0 <= i < |LOWER| && LOWER[i] == c;
      LowerLetter(i);
    }
  }

  lemma DecimalDigits(c: char)
    ensures c in DIGITS <==> '0' <= c <= '9'
  {
    if '0' <= c <= '9' { assert DIGITS[c as int - '0' as int] == c; }
  }
}
