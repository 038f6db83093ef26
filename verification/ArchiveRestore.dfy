/** Writing and restoring content archives.  A tar stream is its sequence of
    entries; gzip framing is reduced to whether data follows the archive.  Files are
    named by their path below the data root. */
module ArchiveRestore {
  import opened Common
  import ContentKey
  import opened Archive

  datatype Entry = Entry(name: string, regular: bool, size: int, data: Raw)
  datatype Stats = Stats(objects: int, bytes: int)

  function TotalBytes(entries: seq<Entry>): int {
    if entries == [] then 0 else TotalBytes(entries[..|entries| - 1]) + |entries[|entries| - 1].data|
  }

  function StatsOf(entries: seq<Entry>): Stats {
    Stats(|entries|, TotalBytes(entries))
  }

  /** A file at the canonical path of the digest of its bytes. */
  predicate Addressed(digest: Raw -> string, path: string, data: Raw) {
    var key := ContentKey.KeyOf(digest(data));
    ContentKey.Valid(key) && path == CanonicalName(key)
  }

  /** A regular entry, complete, and addressed by its own digest. */
  predicate Sound(digest: Raw -> string, e: Entry) {
    e.regular && e.size == |e.data| && Addressed(digest, e.name, e.data)
  }

  predicate AllSound(digest: Raw -> string, entries: seq<Entry>) {
    forall i | 0 <= i < |entries| :: Sound(digest, entries[i])
  }

  predicate DistinctNames(entries: seq<Entry>) {
    forall i, j | 0 <= i < j < |entries| :: entries[i].name != entries[j].name
  }

  /** The archives that restore under the manifest `expected`. */
  predicate Restorable(digest: Raw -> string, entries: seq<Entry>, expected: Stats, trailing: bool) {
    AllSound(digest, entries) && DistinctNames(entries) && expected == StatsOf(entries) && !trailing
  }

  /** The files the entries name. */
  function Files(entries: seq<Entry>): map<string, Raw> {
    if entries == [] then map[]
    else Files(entries[..|entries| - 1])[entries[|entries| - 1].name := entries[|entries| - 1].data]
  }

  lemma {:induction false} FilesNames(entries: seq<Entry>, path: string)
    ensures path in Files(entries) <==> exists i | 0 <= i < |entries| :: entries[i].name == path
  {
    if entries != [] {
      var n := |entries| - 1;
      FilesNames(entries[..n], path);
      forall i | 0 <= i < n ensures entries[..n][i] == entries[i] {}
    }
  }

  /** With distinct names no entry hides another: the files are exactly the entries. */
  lemma {:induction false} FilesHold(entries: seq<Entry>, i: nat)
    requires DistinctNames(entries) && i < |entries|
    ensures entries[i].name in Files(entries) && Files(entries)[entries[i].name] == entries[i].data
  {
    var n := |entries| - 1;
    if i < n {
      assert entries[..n][i] == entries[i];
      FilesHold(entries[..n], i);
    }
  }

  lemma {:induction false} TotalsGrow(entries: seq<Entry>, n: nat)
    requires n <= |entries|
    ensures 0 <= TotalBytes(entries[..n]) <= TotalBytes(entries)
    decreases |entries|
  {
    if n == |entries| {
      assert entries[..n] == entries;
      if n > 0 { TotalsGrow(entries[..n - 1], n - 1); }
    } else {
      TotalsGrow(entries[..|entries| - 1], n);
      assert entries[..|entries| - 1][..n] == entries[..n];
    }
  }

  // ----- restoring -----------------------------------------------------------------------

  predicate Fits(stats: Stats, expected: Stats) {
    stats.objects <= expected.objects && stats.bytes <= expected.bytes
  }

  /** What extraction has established when it has installed `entries`. */
  predicate Extracted(digest: Raw -> string, entries: seq<Entry>, expected: Stats) {
    AllSound(digest, entries) && DistinctNames(entries) && Fits(StatsOf(entries), expected)
  }

  predicate Acceptable(digest: Raw -> string, before: seq<Entry>, e: Entry, expected: Stats) {
    && Sound(digest, e) && e.name !in Files(before)
    && |before| < expected.objects && e.size <= expected.bytes - TotalBytes(before)
  }

  lemma ExtractedStep(digest: Raw -> string, before: seq<Entry>, e: Entry, expected: Stats)
    requires Extracted(digest, before, expected)
    ensures Extracted(digest, before + [e], expected) <==> Acceptable(digest, before, e, expected)
  {
    var after := before + [e];
    assert after[..|before|] == before;
    assert after[|before|] == e;
    forall i | 0 <= i < |before| ensures after[i] == before[i] {}
    FilesNames(before, e.name);
    assert AllSound(digest, after) <==> Sound(digest, e);
    assert DistinctNames(after) <==> e.name !in Files(before);
  }

  /** One more entry, in terms of the archive's prefixes. */
  lemma ExtractedNext(digest: Raw -> string, entries: seq<Entry>, n: nat, expected: Stats)
    requires n < |entries| && Extracted(digest, entries[..n], expected)
    ensures Extracted(digest, entries[..n + 1], expected) <==> Acceptable(digest, entries[..n], entries[n], expected)
    ensures Files(entries[..n + 1]) == Files(entries[..n])[entries[n].name := entries[n].data]
    ensures StatsOf(entries[..n + 1]) == Stats(n + 1, TotalBytes(entries[..n]) + |entries[n].data|)
  {
    ExtractedStep(digest, entries[..n], entries[n], expected);
    assert entries[..n] + [entries[n]] == entries[..n + 1] && entries[..n + 1][..n] == entries[..n];
  }

  lemma PrefixesAreExtracted(digest: Raw -> string, entries: seq<Entry>, expected: Stats, n: nat)
    requires Restorable(digest, entries, expected, false) && n <= |entries|
    ensures Extracted(digest, entries[..n], expected)
  {
    TotalsGrow(entries, n);
  }

  /** Refusing the entry after `before` refuses the archive. */
  lemma RefusalIsFinal(digest: Raw -> string, entries: seq<Entry>, expected: Stats, trailing: bool, n: nat)
    requires n < |entries| && Extracted(digest, entries[..n], expected)
    requires !Acceptable(digest, entries[..n], entries[n], expected)
    ensures !Restorable(digest, entries, expected, trailing)
  {
    ExtractedNext(digest, entries, n, expected);
    if Restorable(digest, entries, expected, false) {
      PrefixesAreExtracted(digest, entries, expected, n + 1);
    }
  }

  class Root {
    var files: map<string, Raw>

    constructor ()
      ensures files == map[]
    {
      files := map[];
    }

    /** One entry: check it against its name and the manifest, create the file
        exclusively, copy, and compare size and digest. */
    method Extract(e: Entry, digest: Raw -> string, room: bool) returns (ok: bool)
      modifies this
      ensures ok <==> room && Sound(digest, e) && e.name !in old(files)
      ensures ok ==> files == old(files)[e.name := e.data]
    {
      if !e.regular || e.size < 0 { return false; }
      var reference := EntryReference(e.name);
      AcceptedNamesAreCanonical(e.name, ContentKey.KeyOf(digest(e.data)));
      if reference.None? || !room { return false; }
      AcceptedNamesAreCanonical(e.name, reference.value);
      var path := PREFIX + RelativePath(reference.value);
      if path in files { return false; }
      files := files[path := if |e.data| < e.size then e.data else e.data[..e.size]];
      if |e.data| != e.size { return false; }
      if reference.value != ContentKey.KeyOf(digest(e.data)) { return false; }
      assert e.data[..e.size] == e.data;
      return true;
    }

    /** RestoreArchive.  Into an empty root it succeeds exactly when every entry is
        sound, no name repeats, the totals are exactly the expected ones and nothing
        trails; otherwise it leaves the root as it found it. */
    method Restore(entries: seq<Entry>, expected: Stats, trailing: bool, digest: Raw -> string) returns (ok: bool)
      modifies this
      ensures ok <==> old(files) == map[] && Restorable(digest, entries, expected, trailing)
      ensures files == if ok then Files(entries) else old(files)
    {
      if expected.objects < 0 || expected.bytes < 0 {
        TotalsGrow(entries, 0);
        return false;
      }
      if files != map[] { return false; }
      var summary := Stats(0, 0);
      assert Extracted(digest, entries[..0], expected);
      for n := 0 to |entries|
        invariant summary == StatsOf(entries[..n])
        invariant Extracted(digest, entries[..n], expected)
        invariant files == Files(entries[..n])
      {
        ExtractedNext(digest, entries, n, expected);
        var room := summary.objects < expected.objects && entries[n].size <= expected.bytes - summary.bytes;
        var extracted := Extract(entries[n], digest, room);
        if !extracted {
          RefusalIsFinal(digest, entries, expected, trailing, n);
          files := map[];
          return false;
        }
        summary := Stats(summary.objects + 1, summary.bytes + entries[n].size);
      }
      assert entries[..|entries|] == entries;
      if summary != expected || trailing {
        files := map[];
        return false;
      }
      return true;
    }
  }

  // ----- writing -------------------------------------------------------------------------

  /** walkObjects' reading of a path below the object directory. */
  function WalkReference(relative: string): Option<string> {
    var parts := Split(relative);
    if |parts| != 3 then None
    else
      var d := parts[2];
      if |d| != 64 || parts[0] != d[..2] || parts[1] != d[2..4] then None
      else if !ContentKey.Valid(ContentKey.KeyOf(d)) then None
      else Some(ContentKey.KeyOf(d))
  }

  lemma {:induction false} JoinSplit(s: string)
    ensures Join(Split(s)) == s
  {
    if s != "" {
      JoinSplit(s[1..]);
      var rest := Split(s[1..]);
      if s[0] == '/' {
        assert ([""] + rest)[1..] == rest;
        assert s == "/" + s[1..];
      } else {
        assert ([[s[0]] + rest[0]] + rest[1..])[1..] == rest[1..];
        assert s == [s[0]] + s[1..];
      }
    }
  }

  /** The walk accepts exactly the paths that the archive names. */
  lemma WalkAcceptsCanonicalPaths(relative: string, key: string)
    ensures WalkReference(relative) == Some(key) <==> ContentKey.Valid(key) && relative == RelativePath(key)
  {
    if WalkReference(relative) == Some(key) {
      var parts := Split(relative);
      JoinSplit(relative);
      assert parts == [parts[0], parts[1], parts[2]];
      JoinThree(parts[0], parts[1], parts[2]);
      ContentKey.KeyOfDigest(parts[2]);
    }
    if ContentKey.Valid(key) && relative == RelativePath(key) {
      var d := ContentKey.DigestOf(key);
      DigestPartsArePlain(d);
      SplitThree(d[..2], d[2..4], d);
    }
  }

  /** The path, below the data root, of a path below the object directory. */
  function Below(relative: string): (path: string)
    ensures |path| == |PREFIX| + |relative| && path[|PREFIX|..] == relative
  {
    PREFIX + relative
  }

  /** `walk` lists the object directory: every file once. */
  predicate Lists(walk: seq<string>, files: map<string, Raw>) {
    && (forall i | 0 <= i < |walk| :: Below(walk[i]) in files)
    && (forall path | path in files :: exists i | 0 <= i < |walk| :: path == Below(walk[i]))
    && (forall i, j | 0 <= i < j < |walk| :: walk[i] != walk[j])
  }

  /** `e` carries the file at `path`. */
  predicate Carries(e: Entry, path: string, files: map<string, Raw>) {
    e.name == path && path in files && e.data == files[path]
  }

  predicate Written(entries: seq<Entry>, walk: seq<string>, files: map<string, Raw>, digest: Raw -> string)
    decreases |entries|
  {
    || entries == []
    || (var n := |entries| - 1;
        && Written(entries[..n], walk, files, digest) && n < |walk|
        && Sound(digest, entries[n]) && Carries(entries[n], Below(walk[n]), files))
  }

  lemma {:induction false} WrittenAt(entries: seq<Entry>, walk: seq<string>, files: map<string, Raw>, digest: Raw -> string, i: nat)
    requires Written(entries, walk, files, digest) && i < |entries|
    ensures i < |walk| && Sound(digest, entries[i]) && Carries(entries[i], Below(walk[i]), files)
  {
    if i < |entries| - 1 {
      WrittenAt(entries[..|entries| - 1], walk, files, digest, i);
    }
  }

  /** One walked file: its entry, unless it is misplaced or damaged. */
  method WriteEntry(files: map<string, Raw>, relative: string, digest: Raw -> string) returns (ok: bool, e: Entry)
    requires Below(relative) in files
    ensures ok <==> Addressed(digest, Below(relative), files[Below(relative)])
    ensures ok ==> Sound(digest, e) && Carries(e, Below(relative), files)
  {
    var data := files[Below(relative)];
    var reference := WalkReference(relative);
    e := Entry("", false, 0, []);
    ReferenceAddresses(digest, relative, data);
    ok := reference.Some? && reference.value == ContentKey.KeyOf(digest(data));
    if ok { e := Entry(PREFIX + RelativePath(reference.value), true, |data|, data); }
  }

  lemma WrittenSnoc(entries: seq<Entry>, e: Entry, walk: seq<string>, files: map<string, Raw>, digest: Raw -> string)
    requires Written(entries, walk, files, digest) && |entries| < |walk|
    requires Sound(digest, e) && Carries(e, Below(walk[|entries|]), files)
    ensures Written(entries + [e], walk, files, digest)
    ensures StatsOf(entries + [e]) == Stats(|entries| + 1, TotalBytes(entries) + |e.data|)
  {
    assert (entries + [e])[..|entries|] == entries;
  }

  /** WriteArchive: one entry per walked file; it fails exactly on a store holding a
      file that is not at the canonical path of its own digest. */
  method WriteArchive(files: map<string, Raw>, walk: seq<string>, digest: Raw -> string)
    returns (ok: bool, entries: seq<Entry>, summary: Stats)
    requires Lists(walk, files)
    ensures ok <==> forall path | path in files :: Addressed(digest, path, files[path])
    ensures ok ==> Restorable(digest, entries, summary, false) && Files(entries) == files
  {
    entries, summary := [], Stats(0, 0);
    for n := 0 to |walk|
      invariant |entries| == n && summary == StatsOf(entries)
      invariant Written(entries, walk, files, digest)
    {
      var e;
      ok, e := WriteEntry(files, walk[n], digest);
      if !ok { return; }
      WrittenSnoc(entries, e, walk, files, digest);
      entries := entries + [e];
      summary := Stats(summary.objects + 1, summary.bytes + |e.data|);
    }
    ok := true;
    WrittenDistinct(entries, walk, files, digest);
    WrittenIsWhole(entries, walk, files, digest);
  }

  lemma ReferenceAddresses(digest: Raw -> string, relative: string, data: Raw)
    ensures WalkReference(relative) == Some(ContentKey.KeyOf(digest(data))) <==> Addressed(digest, Below(relative), data)
    ensures WalkReference(relative).Some? ==>
              && ContentKey.Valid(WalkReference(relative).value)
              && PREFIX + RelativePath(WalkReference(relative).value) == Below(relative)
  {
    var key := ContentKey.KeyOf(digest(data));
    WalkAcceptsCanonicalPaths(relative, key);
    if WalkReference(relative).Some? {
      WalkAcceptsCanonicalPaths(relative, WalkReference(relative).value);
    }
    if ContentKey.Valid(key) {
      assert (PREFIX + RelativePath(key))[|PREFIX|..] == RelativePath(key);
    }
  }

  lemma WrittenDistinct(entries: seq<Entry>, walk: seq<string>, files: map<string, Raw>, digest: Raw -> string)
    requires Lists(walk, files) && Written(entries, walk, files, digest)
    ensures DistinctNames(entries) && AllSound(digest, entries)
  {
    forall i | 0 <= i < |entries| ensures i < |walk| && Sound(digest, entries[i]) && entries[i].name == Below(walk[i]) {
      WrittenAt(entries, walk, files, digest, i);
    }
  }

  lemma WrittenFile(entries: seq<Entry>, walk: seq<string>, files: map<string, Raw>, digest: Raw -> string, path: string)
    requires Lists(walk, files) && Written(entries, walk, files, digest) && |entries| == |walk|
    ensures path in Files(entries) <==> path in files
    ensures path in files ==> Files(entries)[path] == files[path] && Addressed(digest, path, files[path])
  {
    FilesNames(entries, path);
    forall i | 0 <= i < |entries| ensures entries[i].name in files {
      WrittenAt(entries, walk, files, digest, i);
    }
    if path in files {
      var i :| 0 <= i < |walk| && path == Below(walk[i]);
      WrittenAt(entries, walk, files, digest, i);
      WrittenDistinct(entries, walk, files, digest);
      FilesHold(entries, i);
    }
  }

  lemma WrittenIsWhole(entries: seq<Entry>, walk: seq<string>, files: map<string, Raw>, digest: Raw -> string)
    requires Lists(walk, files) && Written(entries, walk, files, digest) && |entries| == |walk|
    ensures Files(entries) == files
    ensures forall path | path in files :: Addressed(digest, path, files[path])
  {
    var restored := Files(entries);
    forall path
      ensures path in restored <==> path in files
      ensures path in files ==> restored[path] == files[path] && Addressed(digest, path, files[path])
    {
      WrittenFile(entries, walk, files, digest, path);
    }
    SameMap(restored, files);
  }

  lemma SameMap(a: map<string, Raw>, b: map<string, Raw>)
    requires forall k :: k in a <==> k in b
    requires forall k | k in a :: a[k] == b[k]
    ensures a == b
  {
  }

  /** Backing up and restoring rebuilds the same files, for every store whose objects
      are intact; and a store with one damaged object is never archived. */
  method BackupAndRestore(files: map<string, Raw>, walk: seq<string>, digest: Raw -> string)
    returns (ok: bool, root: Root)
    requires Lists(walk, files)
    ensures ok <==> forall path | path in files :: Addressed(digest, path, files[path])
    ensures ok ==> root.files == files
    ensures !ok ==> root.files == map[]
  {
    root := new Root();
    var entries, summary;
    ok, entries, summary := WriteArchive(files, walk, digest);
    if ok {
      ok := root.Restore(entries, summary, false, digest);
    }
  }
}
