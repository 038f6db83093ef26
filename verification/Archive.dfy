/** The content archive: entry names, writing, and all-or-nothing restoring. */
module Archive {
  import opened Common
  import ContentKey

  const PREFIX := "objects/sha256/"

  // ----- entry names -------------------------------------------------------------------

  /** strings.Split(s, "/"). */
  function Split(s: string): (parts: seq<string>)
    ensures |parts| >= 1
  {
    if s == "" then [""]
    else if s[0] == '/' then [""] + Split(s[1..])
    else
      var rest := Split(s[1..]);
      [[s[0]] + rest[0]] + rest[1..]
  }

  function Join(parts: seq<string>): string {
    if |parts| == 0 then ""
    else if |parts| == 1 then parts[0]
    else parts[0] + "/" + Join(parts[1..])
  }

  /** filepath.Clean on the components of a slash path. */
  function CleanParts(parts: seq<string>, rooted: bool, out: seq<string>): seq<string>
    decreases |parts|
  {
    if parts == [] then out
    else
      var p := parts[0];
      if p == "" || p == "." then CleanParts(parts[1..], rooted, out)
      else if p == ".." then
        if out != [] && out[|out| - 1] != ".." then CleanParts(parts[1..], rooted, out[..|out| - 1])
        else if rooted then CleanParts(parts[1..], rooted, out)
        else CleanParts(parts[1..], rooted, out + [".."])
      else CleanParts(parts[1..], rooted, out + [p])
  }

  function Clean(s: string): string {
    var rooted := |s| > 0 && s[0] == '/';
    var joined := (if rooted then "/" else "") + Join(CleanParts(Split(s), rooted, []));
    if joined == "" then "." else joined
  }

  predicate Ordinary(p: string) { p != "" && p != "." && p != ".." }

  /** A cleaned path: ".." only in front, and never below the root. */
  predicate Tidied(parts: seq<string>, rooted: bool) {
    && (forall i | 0 <= i < |parts| :: Ordinary(parts[i]) || (parts[i] == ".." && !rooted))
    && (forall i | 0 < i < |parts| && parts[i] == ".." :: parts[i - 1] == "..")
  }

  /** Cleaning leaves no empty, "." or avoidable ".." component. */
  lemma {:induction false} CleaningTidies(parts: seq<string>, rooted: bool, out: seq<string>)
    requires Tidied(out, rooted)
    ensures Tidied(CleanParts(parts, rooted, out), rooted)
    decreases |parts|
  {
    if parts != [] {
      var p := parts[0];
      if p == "" || p == "." {
        CleaningTidies(parts[1..], rooted, out);
      } else if p != ".." {
        CleaningTidies(parts[1..], rooted, out + [p]);
      } else if out != [] && out[|out| - 1] != ".." {
        CleaningTidies(parts[1..], rooted, out[..|out| - 1]);
      } else if rooted {
        CleaningTidies(parts[1..], rooted, out);
      } else {
        CleaningTidies(parts[1..], rooted, out + [".."]);
      }
    }
  }

  /** A name and the ".." after it cancel; nothing goes above the root. */
  lemma DotDotCancels(name: string, rest: seq<string>, rooted: bool, out: seq<string>)
    requires Ordinary(name)
    ensures CleanParts([name, ".."] + rest, rooted, out) == CleanParts(rest, rooted, out)
    ensures CleanParts([".."] + rest, true, []) == CleanParts(rest, true, [])
  {
    var all := [name, ".."] + rest;
    assert all[1..] == [".."] + rest && all[1..][1..] == rest;
    assert (out + [name])[..|out|] == out;
    assert ([".."] + rest)[1..] == rest;
  }

  /** relativePathForKey: two levels of digest prefix, then the digest. */
  function RelativePath(key: string): string
    requires ContentKey.Valid(key)
  {
    var d := ContentKey.DigestOf(key);
    d[..2] + "/" + (d[2..4] + "/" + d)
  }

  /** Where an object lies: the first two digest characters, the next two, the digest. */
  lemma PathLayout(key: string)
    requires ContentKey.Valid(key)
    ensures var d, path := ContentKey.DigestOf(key), RelativePath(key);
            && |path| == 70 && path[2] == '/' && path[5] == '/'
            && path[..2] == d[..2] && path[3..5] == d[2..4] && path[6..] == d
    ensures CanonicalName(key) == "objects/sha256/" + RelativePath(key)
  {
  }

  function CanonicalName(key: string): string
    requires ContentKey.Valid(key)
  {
    PREFIX + RelativePath(key)
  }

  /** archiveEntryReference: the key an entry name stands for, if acceptable. */
  function EntryReference(name: string): Option<string> {
    if '\\' in name || !HasPrefix(name, PREFIX) || (|name| > 0 && name[0] == '/') then None
    else
      var relative := name[|PREFIX|..];
      var clean := Clean(relative);
      if clean != relative || clean == "." || HasPrefix(clean, "../") then None
      else
        var parts := Split(relative);
        if |parts| != 3 then None
        else
          var key := ContentKey.KeyOf(parts[2]);
          if !ContentKey.Valid(key) || RelativePath(key) != relative then None else Some(key)
  }

  predicate Plain(s: string) {
    s != "" && forall c | c in s :: c != '/' && c != '.' && c != '\\'
  }

  lemma {:induction false} SplitPlain(s: string)
    requires forall c | c in s :: c != '/'
    ensures Split(s) == [s]
  {
    if s != "" {
      assert s[0] in s && forall c | c in s[1..] :: c in s;
      SplitPlain(s[1..]);
      assert s == [s[0]] + s[1..];
    }
  }

  lemma {:induction false} SplitCons(s: string, rest: string)
    requires forall c | c in s :: c != '/'
    ensures Split(s + "/" + rest) == [s] + Split(rest)
  {
    var whole := s + "/" + rest;
    if s == "" {
      assert whole[1..] == rest;
    } else {
      assert s[0] in s && forall c | c in s[1..] :: c in s;
      SplitCons(s[1..], rest);
      assert whole[1..] == s[1..] + "/" + rest;
      assert s == [s[0]] + s[1..];
    }
  }

  lemma JoinThree(a: string, b: string, c: string)
    ensures Join([a, b, c]) == a + "/" + (b + "/" + c)
  {
    assert [a, b, c][1..] == [b, c] && [b, c][1..] == [c];
    assert Join([c]) == c;
    assert Join([b, c]) == b + "/" + c;
  }

  lemma SplitThree(a: string, b: string, c: string)
    requires Plain(a) && Plain(b) && Plain(c)
    ensures Split(a + "/" + (b + "/" + c)) == [a, b, c]
  {
    SplitCons(a, b + "/" + c);
    SplitCons(b, c);
    SplitPlain(c);
  }

  lemma ThreeParts(a: string, b: string, c: string)
    requires Plain(a) && Plain(b) && Plain(c)
    ensures Split(a + "/" + (b + "/" + c)) == [a, b, c]
    ensures Clean(a + "/" + (b + "/" + c)) == a + "/" + (b + "/" + c)
  {
    SplitThree(a, b, c);
    CleanThree(a, b, c);
    JoinThree(a, b, c);
    CleanFrom(a + "/" + (b + "/" + c), [a, b, c]);
  }

  lemma CleanFrom(path: string, parts: seq<string>)
    requires path != "" && path[0] != '/' && Split(path) == parts
    requires CleanParts(parts, false, []) == parts && Join(parts) == path
    ensures Clean(path) == path
  {
  }

  lemma CleanThree(a: string, b: string, c: string)
    requires Plain(a) && Plain(b) && Plain(c)
    ensures CleanParts([a, b, c], false, []) == [a, b, c]
  {
    NotDots(a);
    NotDots(b);
    NotDots(c);
    assert [a, b, c][1..] == [b, c] && [b, c][1..] == [c] && [c][1..] == [];
    assert [] + [a] == [a] && [a] + [b] == [a, b] && [a, b] + [c] == [a, b, c];
    assert CleanParts([], false, [a, b, c]) == [a, b, c];
    assert CleanParts([c], false, [a, b]) == [a, b, c];
    assert CleanParts([b, c], false, [a]) == [a, b, c];
  }

  lemma NotDots(s: string)
    requires Plain(s)
    ensures s != "" && s != "." && s != ".."
  {
    assert s[0] in s;
  }

  lemma DigestPartsArePlain(d: string)
    requires ContentKey.AcceptedDigest(d)
    ensures Plain(d[..2]) && Plain(d[2..4]) && Plain(d)
  {
    ContentKey.AcceptedDigestIsLowerHex(d);
    assert forall c | c in d[..2] :: c in d;
    assert forall c | c in d[2..4] :: c in d;
  }

  /** The canonical name of a key is accepted, and stands for that key. */
  lemma CanonicalNameAccepted(key: string)
    requires ContentKey.Valid(key)
    ensures EntryReference(CanonicalName(key)) == Some(key)
  {
    var d := ContentKey.DigestOf(key);
    var relative := RelativePath(key);
    DigestPartsArePlain(d);
    ThreeParts(d[..2], d[2..4], d);
    var name := CanonicalName(key);
    assert name[|PREFIX|..] == relative && name[..|PREFIX|] == PREFIX;
    assert relative[0] == d[0] && d[0] in d;
    NoBackslash(key);
  }

  lemma NoBackslash(key: string)
    requires ContentKey.Valid(key)
    ensures '\\' !in CanonicalName(key)
  {
    var d := ContentKey.DigestOf(key);
    DigestPartsArePlain(d);
    assert forall c | c in RelativePath(key) :: c in d[..2] || c == '/' || c in d[2..4] || c in d;
    assert forall c | c in PREFIX :: c != '\\';
  }

  /** Accepted names are exactly the canonical names of keys. */
  lemma AcceptedNamesAreCanonical(name: string, key: string)
    ensures EntryReference(name) == Some(key) <==> ContentKey.Valid(key) && name == CanonicalName(key)
  {
    if EntryReference(name) == Some(key) {
      CutPrefix(name, PREFIX);
    }
    if ContentKey.Valid(key) && name == CanonicalName(key) {
      CanonicalNameAccepted(key);
    }
  }
}
