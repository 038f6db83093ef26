/** Comparing the content catalog with the stored objects in bounded batches.

    The catalog is the table in index order; each page is a fresh keyset query over it.
    A store listing is what walkObjects visits, and whether the walk reached its end
    without refusing a path (ArchiveRestore says which paths it accepts). */
module Reconcile {
  import opened Common
  import ContentKey

  datatype Ref = Ref(key: string, size: int)
  datatype Kind = Missing | Corrupt | Orphan
  datatype Finding = Finding(kind: Kind, content: Ref, repaired: bool)
  datatype Summary = Summary(databaseRefs: nat, storedObjects: nat, missing: nat, corrupt: nat, orphans: nat, repairedOrphans: nat)
  datatype Listing = Listing(objects: seq<Ref>, complete: bool)

  const MAX_BATCH := 10000

  function Unresolved(s: Summary): int {
    s.missing + s.corrupt + s.orphans - s.repairedOrphans
  }

  // ----- key order and the paged catalog -------------------------------------------------

  predicate Less(a: string, b: string)
    decreases |a|
  {
    if b == "" then false
    else if a == "" then true
    else if a[0] != b[0] then a[0] < b[0]
    else Less(a[1..], b[1..])
  }

  lemma {:induction false} LessIsAsymmetric(a: string, b: string)
    ensures !(Less(a, b) && Less(b, a))
    decreases |a|
  {
    if a != "" && b != "" && a[0] == b[0] {
      LessIsAsymmetric(a[1..], b[1..]);
    }
  }

  /** The key order is a strict total order in which a proper beginning comes first. */
  lemma {:induction false} LessIsTotal(a: string, b: string, c: string)
    ensures a != b ==> Less(a, b) || Less(b, a)
    ensures !Less(a, a)
    ensures Less(a, b) && Less(b, c) ==> Less(a, c)
    ensures a < b ==> Less(a, b)
    decreases |a|
  {
    if a != "" {
      assert a == [a[0]] + a[1..];
      if b != "" {
        assert b == [b[0]] + b[1..];
        LessIsTotal(a[1..], b[1..], if c == "" then "" else c[1..]);
      } else {
        LessIsTotal(a[1..], "", "");
      }
    }
  }

  /** The key of row i comes after `key`. */
  predicate Follows(key: string, table: seq<Ref>, i: nat)
    requires i < |table|
  {
    Less(key, table[i].key)
  }

  predicate Ascends(table: seq<Ref>, i: nat, j: nat)
    requires i < |table| && j < |table|
  {
    Less(table[i].key, table[j].key)
  }

  /** The table in primary-key order. */
  ghost predicate Catalog(table: seq<Ref>) {
    && (forall i | 0 <= i < |table| :: Follows("", table, i))
    && (forall i, j | 0 <= i < j < |table| :: Ascends(table, i, j))
  }

  /** The keys the catalog holds. */
  function Known(table: seq<Ref>): set<string> {
    set i | 0 <= i < |table| :: table[i].key
  }

  /** WHERE content_key > after ORDER BY content_key, from row k on. */
  function Above(table: seq<Ref>, k: nat, after: string): seq<Ref>
    requires k <= |table|
    decreases |table| - k
  {
    if k == |table| then []
    else if Follows(after, table, k) then [table[k]] + Above(table, k + 1, after)
    else Above(table, k + 1, after)
  }

  /** ... LIMIT limit. */
  function Page(table: seq<Ref>, after: string, limit: nat): (page: seq<Ref>)
    ensures |page| <= limit
  {
    var rows := Above(table, 0, after);
    if |rows| <= limit then rows else rows[..limit]
  }

  /** The key a page query resumes after. */
  function After(table: seq<Ref>, n: nat): string
    requires n <= |table|
  {
    if n == 0 then "" else table[n - 1].key
  }

  lemma {:induction false} AboveAll(table: seq<Ref>, k: nat, after: string)
    requires k <= |table| && forall i | k <= i < |table| :: Follows(after, table, i)
    ensures Above(table, k, after) == table[k..]
    decreases |table| - k
  {
    if k < |table| {
      AboveAll(table, k + 1, after);
      assert table[k..] == [table[k]] + table[k + 1..];
    }
  }

  lemma {:induction false} AboveSkips(table: seq<Ref>, k: nat, n: nat, after: string)
    requires k <= n <= |table| && forall i | k <= i < n :: !Follows(after, table, i)
    ensures Above(table, k, after) == Above(table, n, after)
    decreases |table| - k
  {
    if k < n { AboveSkips(table, k + 1, n, after); }
  }

  lemma NotBefore(table: seq<Ref>, n: nat, i: nat)
    requires Catalog(table) && i < n <= |table|
    ensures !Follows(After(table, n), table, i)
  {
    LessIsAsymmetric(table[i].key, table[n - 1].key);
    if i < n - 1 { assert Ascends(table, i, n - 1); }
  }

  lemma AllAfter(table: seq<Ref>, n: nat, i: nat)
    requires Catalog(table) && n <= i < |table|
    ensures Follows(After(table, n), table, i)
  {
    if n > 0 { assert Ascends(table, n - 1, i); }
  }

  /** Resuming after the n-th row yields exactly the rows that follow it. */
  lemma PageResumes(table: seq<Ref>, n: nat)
    requires Catalog(table) && n <= |table|
    ensures Above(table, 0, After(table, n)) == table[n..]
  {
    forall i | 0 <= i < n ensures !Follows(After(table, n), table, i) { NotBefore(table, n, i); }
    forall i | n <= i < |table| ensures Follows(After(table, n), table, i) { AllAfter(table, n, i); }
    AboveSkips(table, 0, n, After(table, n));
    AboveAll(table, n, After(table, n));
  }

  /** A page is the next stretch of rows, and a short page is the last one. */
  lemma NextPage(table: seq<Ref>, n: nat, after: string, limit: nat)
    requires Catalog(table) && n <= |table| && after == After(table, n)
    ensures var page := Page(table, after, limit);
            && n + |page| <= |table| && page == table[n..n + |page|]
            && (|page| < limit ==> n + |page| == |table|)
            && (0 < |page| ==> page[|page| - 1] == table[n + |page| - 1])
  {
    PageResumes(table, n);
    TakeOf(table, n, limit);
  }

  lemma TakeOf(table: seq<Ref>, n: nat, limit: nat)
    requires n <= |table|
    ensures limit <= |table| - n ==> table[n..][..limit] == table[n..n + limit]
    ensures table[n..] == table[n..|table|]
  {
  }

  // ----- the direct comparison -----------------------------------------------------------

  datatype Verdict = Intact | NotStored | Damaged | Unreadable

  /** The stored bytes by key, and the keys whose object cannot be read.  A row whose key
      is not a content key cannot be read either. */
  datatype Store = Store(files: map<string, Raw>, unreadable: set<string>)

  /** Verify. */
  function Judge(ref: Ref, store: Store, digest: Raw -> string): Verdict {
    if ref.size < 0 then Damaged
    else if !ContentKey.Valid(ref.key) || ref.key in store.unreadable then Unreadable
    else if ref.key !in store.files then NotStored
    else if |store.files[ref.key]| != ref.size || ref.key != ContentKey.KeyOf(digest(store.files[ref.key])) then Damaged
    else Intact
  }

  /** The object is stored, complete, and has the digest its key names. */
  predicate StoredWell(ref: Ref, files: map<string, Raw>, digest: Raw -> string) {
    && ref.key in files && |files[ref.key]| == ref.size
    && ContentKey.Valid(ref.key) && digest(files[ref.key]) == ContentKey.DigestOf(ref.key)
  }

  /** The row can be judged: its size alone condemns it, or its object can be looked up. */
  predicate Verifiable(ref: Ref, store: Store) {
    ref.size < 0 || (ContentKey.Valid(ref.key) && ref.key !in store.unreadable)
  }

  /** What there is to say about a row: nothing, that it has no object, or that the object
      is not the one it describes. */
  function RowReport(ref: Ref, files: map<string, Raw>, digest: Raw -> string): seq<Finding> {
    if StoredWell(ref, files, digest) then []
    else [Finding(if ref.size >= 0 && ref.key !in files then Missing else Corrupt, ref, false)]
  }

  lemma NamesDigest(key: string, d: string)
    requires ContentKey.Valid(key)
    ensures key == ContentKey.KeyOf(d) <==> d == ContentKey.DigestOf(key)
  {
    assert ContentKey.KeyOf(d)[|ContentKey.PREFIX|..] == d;
  }

  /** What the verdicts mean for a row and the stored bytes. */
  lemma JudgeMeans(ref: Ref, store: Store, digest: Raw -> string)
    ensures Judge(ref, store, digest) == Unreadable <==> !Verifiable(ref, store)
    ensures Verifiable(ref, store) ==>
              && (Judge(ref, store, digest) == Intact <==> StoredWell(ref, store.files, digest))
              && (Judge(ref, store, digest) == NotStored <==> ref.size >= 0 && ref.key !in store.files)
              && (Judge(ref, store, digest) == Damaged <==>
                    !StoredWell(ref, store.files, digest) && (ref.size < 0 || ref.key in store.files))
  {
    if ContentKey.Valid(ref.key) && ref.key in store.files {
      NamesDigest(ref.key, digest(store.files[ref.key]));
    }
  }

  function RefFinding(ref: Ref, v: Verdict): seq<Finding> {
    match v
    case Intact => []
    case NotStored => [Finding(Missing, ref, false)]
    case Damaged => [Finding(Corrupt, ref, false)]
    case Unreadable => []
  }

  /** The findings about the first n rows. */
  function RefFindings(table: seq<Ref>, n: nat, store: Store, digest: Raw -> string): seq<Finding>
    requires n <= |table|
  {
    if n == 0 then []
    else RefFindings(table, n - 1, store, digest) + RefFinding(table[n - 1], Judge(table[n - 1], store, digest))
  }

  /** The files and findings of a pass over the stored objects. */
  datatype Pass = Pass(files: map<string, Raw>, findings: seq<Finding>)

  /** The pass over the first n objects, one at a time. */
  function Settled(known: set<string>, repair: bool, start: Pass, objects: seq<Ref>, n: nat): Pass
    requires n <= |objects|
  {
    if n == 0 then start
    else SettleOne(known, repair, Settled(known, repair, start, objects, n - 1), objects[n - 1])
  }

  function SettleOne(known: set<string>, repair: bool, pass: Pass, ref: Ref): Pass {
    if ref.key in known then pass
    else Pass(if repair then pass.files - {ref.key} else pass.files, pass.findings + [Finding(Orphan, ref, repair)])
  }

  datatype Tally = Tally(missing: nat, corrupt: nat, orphans: nat, repaired: nat)

  function Add(t: Tally, f: Finding): Tally {
    Tally(
      t.missing + if f.kind == Missing then 1 else 0,
      t.corrupt + if f.kind == Corrupt then 1 else 0,
      t.orphans + if f.kind == Orphan then 1 else 0,
      t.repaired + if f.repaired then 1 else 0)
  }

  /** The findings counted by kind. */
  function TallyOf(findings: seq<Finding>): Tally {
    if findings == [] then Tally(0, 0, 0, 0)
    else Add(TallyOf(findings[..|findings| - 1]), findings[|findings| - 1])
  }

  predicate Counted(s: Summary, findings: seq<Finding>) {
    Tally(s.missing, s.corrupt, s.orphans, s.repairedOrphans) == TallyOf(findings)
  }

  lemma CountedStep(s: Summary, findings: seq<Finding>, f: Finding, t: Summary)
    requires Counted(s, findings)
    requires Tally(t.missing, t.corrupt, t.orphans, t.repairedOrphans) == Add(Tally(s.missing, s.corrupt, s.orphans, s.repairedOrphans), f)
    ensures Counted(t, findings + [f])
  {
  }

  // ----- the scan ------------------------------------------------------------------------

  const START := Summary(0, 0, 0, 0, 0, 0)

  /** The first n rows can all be verified, whatever the verdict. */
  ghost predicate Readable(table: seq<Ref>, n: nat, store: Store)
    requires n <= |table|
  {
    forall i | 0 <= i < n :: Verifiable(table[i], store)
  }

  /** Where the catalog pass stands after the first n rows. */
  ghost predicate Visited(table: seq<Ref>, n: nat, store: Store, digest: Raw -> string, findings: seq<Finding>, summary: Summary) {
    && n <= |table| && findings == RefFindings(table, n, store, digest) && Counted(summary, findings)
    && summary.databaseRefs == n && summary.storedObjects == 0
    && Readable(table, n, store)
  }

  lemma NoneVisited(table: seq<Ref>, store: Store, digest: Raw -> string)
    ensures Visited(table, 0, store, digest, [], START) && After(table, 0) == ""
  {
  }

  lemma VisitedStep(table: seq<Ref>, n: nat, store: Store, digest: Raw -> string, findings: seq<Finding>, s: Summary, t: Summary)
    requires Visited(table, n, store, digest, findings, s) && n < |table|
    requires Verifiable(table[n], store)
    requires t.databaseRefs == s.databaseRefs + 1 && t.storedObjects == s.storedObjects
    requires Counted(t, findings + RefFinding(table[n], Judge(table[n], store, digest)))
    ensures Visited(table, n + 1, store, digest, findings + RefFinding(table[n], Judge(table[n], store, digest)), t)
  {
  }

  /** ExistingContentKeys over the keys of a batch. */
  function ExistingKeys(table: seq<Ref>, objects: seq<Ref>): (existing: set<string>)
    ensures forall i | 0 <= i < |objects| :: objects[i].key in existing <==> objects[i].key in Known(table)
  {
    set i | 0 <= i < |objects| && objects[i].key in Known(table) :: objects[i].key
  }

  /** Whether this object stops the scan: an orphan to be repaired that cannot be removed. */
  predicate Stuck(known: set<string>, repair: bool, undeletable: set<string>, ref: Ref) {
    repair && ref.key !in known && ref.key in undeletable
  }

  predicate NoneStuck(known: set<string>, repair: bool, undeletable: set<string>, objects: seq<Ref>) {
    forall i | 0 <= i < |objects| :: !Stuck(known, repair, undeletable, objects[i])
  }

  /** The pass stands after its first n objects. */
  ghost predicate Reached(known: set<string>, repair: bool, start: Pass, objects: seq<Ref>, n: nat, pass: Pass, summary: Summary) {
    n <= |objects| && pass == Settled(known, repair, start, objects, n) && Counted(summary, pass.findings)
  }

  lemma ReachedStep(known: set<string>, repair: bool, start: Pass, objects: seq<Ref>, n: nat, pass: Pass, s: Summary, pass': Pass, s': Summary)
    requires Reached(known, repair, start, objects, n, pass, s) && n < |objects|
    requires pass' == SettleOne(known, repair, pass, objects[n]) && Counted(s', pass'.findings)
    ensures Reached(known, repair, start, objects, n + 1, pass', s')
  {
  }

  lemma StuckInBatch(known: set<string>, repair: bool, undeletable: set<string>, all: seq<Ref>, done: nat, batch: seq<Ref>)
    requires done + |batch| <= |all| && forall i | 0 <= i < |batch| :: batch[i] == all[done + i]
    ensures !NoneStuck(known, repair, undeletable, batch) ==> !NoneStuck(known, repair, undeletable, all)
    ensures NoneStuck(known, repair, undeletable, batch) ==>
              forall j | done <= j < done + |batch| :: !Stuck(known, repair, undeletable, all[j])
  {
    forall j | done <= j < done + |batch| ensures all[j] == batch[j - done] {}
  }

  /** The unbatched comparison: every row against the store, then every object against
      the catalog. */
  function Direct(table: seq<Ref>, store: Store, digest: Raw -> string, repair: bool, objects: seq<Ref>): Pass {
    Settled(Known(table), repair, Pass(store.files, RefFindings(table, |table|, store, digest)), objects, |objects|)
  }

  /** Nothing but unreferenced objects has gone, and nothing has changed. */
  predicate Spares(known: set<string>, repair: bool, before: map<string, Raw>, after: map<string, Raw>) {
    && (forall key | key in before :: key in after || (repair && key !in known))
    && (forall key | key in after :: key in before && after[key] == before[key])
  }

  class Scan {
    const table: seq<Ref>
    const undeletable: set<string>
    const digest: Raw -> string
    const batchSize: int
    const repair: bool
    var store: Store
    var findings: seq<Finding>
    var summary: Summary

    constructor (table: seq<Ref>, store: Store, undeletable: set<string>, digest: Raw -> string, batchSize: int, repair: bool)
      ensures this.table == table && this.store == store && this.undeletable == undeletable && this.digest == digest
      ensures this.batchSize == batchSize && this.repair == repair
      ensures findings == [] && summary == START
    {
      this.table, this.store, this.undeletable, this.digest := table, store, undeletable, digest;
      this.batchSize, this.repair := batchSize, repair;
      findings, summary := [], START;
    }

    /** Verify: size sanity, key, lookup, then the stored size and digest. */
    method Verify(ref: Ref) returns (v: Verdict)
      ensures v == Judge(ref, store, digest)
    {
      if ref.size < 0 { return Damaged; }
      if !ContentKey.Valid(ref.key) || ref.key in store.unreadable { return Unreadable; }
      if ref.key !in store.files { return NotStored; }
      var data := store.files[ref.key];
      if |data| != ref.size { return Damaged; }
      return if ref.key == ContentKey.KeyOf(digest(data)) then Intact else Damaged;
    }

    /** One row: counted, verified, and reported missing or corrupt if it is. */
    method VisitRef(ref: Ref) returns (ok: bool)
      requires Counted(summary, findings)
      modifies this`findings, this`summary
      ensures Counted(summary, findings)
      ensures ok <==> Verifiable(ref, store)
      ensures findings == old(findings) + RefFinding(ref, Judge(ref, store, digest))
      ensures ok ==> findings == old(findings) + RowReport(ref, store.files, digest)
      ensures summary.databaseRefs == old(summary).databaseRefs + 1 && summary.storedObjects == old(summary).storedObjects
    {
      JudgeMeans(ref, store, digest);
      summary := summary.(databaseRefs := summary.databaseRefs + 1);
      var verdict := Verify(ref);
      if verdict == Unreadable { return false; }
      if verdict != Intact { Emit(Finding(if verdict == NotStored then Missing else Corrupt, ref, false)); }
      return true;
    }

    /** Count a finding about a row and emit it. */
    method Emit(f: Finding)
      requires Counted(summary, findings) && f.kind != Orphan && !f.repaired
      modifies this`findings, this`summary
      ensures Counted(summary, findings) && findings == old(findings) + [f]
      ensures summary.databaseRefs == old(summary).databaseRefs && summary.storedObjects == old(summary).storedObjects
    {
      ghost var s, before := summary, findings;
      if f.kind == Missing {
        summary := summary.(missing := summary.missing + 1);
      } else {
        summary := summary.(corrupt := summary.corrupt + 1);
      }
      findings := findings + [f];
      CountedStep(s, before, f, summary);
    }

    method VisitPage(page: seq<Ref>, ghost n: nat) returns (ok: bool)
      requires Visited(table, n, store, digest, findings, summary)
      requires n + |page| <= |table| && forall i | 0 <= i < |page| :: page[i] == table[n + i]
      modifies this`findings, this`summary
      ensures ok ==> Visited(table, n + |page|, store, digest, findings, summary)
      ensures !ok ==> !Readable(table, |table|, store)
    {
      for i := 0 to |page|
        invariant Visited(table, n + i, store, digest, findings, summary)
      {
        ghost var s, before := summary, findings;
        ok := VisitRef(page[i]);
        if !ok { return; }
        VisitedStep(table, n + i, store, digest, before, s, summary);
      }
      return true;
    }

    /** The first n rows are visited and the cursor stands after them. */
    ghost predicate At(n: nat, after: string)
      reads this
    {
      n <= |table| && after == After(table, n) && Visited(table, n, store, digest, findings, summary)
    }

    /** The page of rows after the cursor. */
    method Query(after: string, ghost n: nat) returns (page: seq<Ref>)
      requires Catalog(table) && batchSize > 0 && n <= |table| && after == After(table, n)
      ensures n + |page| <= |table| && forall i | 0 <= i < |page| :: page[i] == table[n + i]
      ensures if |page| < batchSize then n + |page| == |table| else page[|page| - 1].key == After(table, n + |page|)
    {
      NextPage(table, n, after, batchSize);
      page := Page(table, after, batchSize);
    }

    /** Query the page after the first n rows and visit it. */
    method ReadPage(after: string, ghost n: nat) returns (ok: bool, page: seq<Ref>)
      requires Catalog(table) && batchSize > 0 && At(n, after)
      modifies this`findings, this`summary
      ensures !ok ==> !Readable(table, |table|, store)
      ensures ok && |page| < batchSize ==> At(|table|, After(table, |table|)) && Readable(table, |table|, store)
      ensures ok && |page| >= batchSize ==> At(n + |page|, page[|page| - 1].key)
    {
      page := Query(after, n);
      ok := VisitPage(page, n);
    }

    /** The paging loop: whatever the batch size, every row is visited once, in key
        order, until one cannot be verified. */
    method WalkContentRefs() returns (ok: bool)
      requires Catalog(table) && findings == [] && summary == START
      modifies this`findings, this`summary
      ensures ok <==> 0 < batchSize <= MAX_BATCH && Readable(table, |table|, store)
      ensures ok ==> Visited(table, |table|, store, digest, findings, summary)
    {
      if batchSize <= 0 || batchSize > MAX_BATCH { return false; }
      var after := "";
      ghost var n := 0;
      NoneVisited(table, store, digest);
      while true
        invariant At(n, after)
        decreases |table| - n
      {
        var page;
        ok, page := ReadPage(after, n);
        if !ok || |page| < batchSize { return; }
        after := page[|page| - 1].key;
        n := n + |page|;
      }
    }

    /** One object of a batch: an orphan is counted, deleted when repairing, and emitted. */
    method Settle(stored: Ref, existing: set<string>) returns (ok: bool)
      requires Counted(summary, findings) && (stored.key in existing <==> stored.key in Known(table))
      modifies this`findings, this`summary, this`store
      ensures ok <==> !Stuck(Known(table), repair, undeletable, stored)
      ensures ok ==> Counted(summary, findings)
      ensures ok ==> Pass(store.files, findings) == SettleOne(Known(table), repair, old(Pass(store.files, findings)), stored)
      ensures !ok ==> store.files == old(store.files)
      ensures SameReads(old(store), old(summary))
    {
      if stored.key in existing { return true; }
      ghost var s, before := summary, findings;
      summary := summary.(orphans := summary.orphans + 1);
      if repair {
        if stored.key in undeletable { return false; }
        store := store.(files := store.files - {stored.key});
        summary := summary.(repairedOrphans := summary.repairedOrphans + 1);
      }
      findings := findings + [Finding(Orphan, stored, repair)];
      CountedStep(s, before, Finding(Orphan, stored, repair), summary);
      return true;
    }

    ghost predicate SameReads(before: Store, s: Summary)
      reads this
    {
      && store.unreadable == before.unreadable
      && summary.storedObjects == s.storedObjects && summary.databaseRefs == s.databaseRefs
    }

    /** flush: look the batch up in one query, then settle each object.  Whether or not
        it gets through, what has happened is the pass over a stretch of the objects. */
    method Flush(batch: seq<Ref>, ghost all: seq<Ref>, ghost done: nat, ghost start: Pass) returns (ok: bool, ghost settled: nat)
      requires done + |batch| <= |all| && forall i | 0 <= i < |batch| :: batch[i] == all[done + i]
      requires Reached(Known(table), repair, start, all, done, Pass(store.files, findings), summary)
      modifies this`findings, this`summary, this`store
      ensures settled <= |all| && store.files == Settled(Known(table), repair, start, all, settled).files
      ensures ok <==> NoneStuck(Known(table), repair, undeletable, batch)
      ensures ok ==> settled == done + |batch|
      ensures ok ==> Reached(Known(table), repair, start, all, settled, Pass(store.files, findings), summary)
      ensures SameReads(old(store), old(summary))
    {
      var existing := ExistingKeys(table, batch);
      settled := done;
      for i := 0 to |batch|
        invariant settled == done + i
        invariant Reached(Known(table), repair, start, all, settled, Pass(store.files, findings), summary)
        invariant forall j | 0 <= j < i :: !Stuck(Known(table), repair, undeletable, batch[j])
        invariant SameReads(old(store), old(summary))
      {
        ghost var before, s := Pass(store.files, findings), summary;
        ok := Settle(batch[i], existing);
        if !ok { return; }
        ReachedStep(Known(table), repair, start, all, settled, before, s, Pass(store.files, findings), summary);
        settled := settled + 1;
      }
      return true, settled;
    }

    /** walkObjects with its visitor: collect a full batch, flush it, and flush the rest
        once the walk has ended without refusing a path. */
    method WalkObjects(listing: Listing) returns (ok: bool, ghost settled: nat)
      requires batchSize > 0 && Counted(summary, findings) && summary.storedObjects == 0
      modifies this`findings, this`summary, this`store
      ensures ok <==> listing.complete && NoneStuck(Known(table), repair, undeletable, listing.objects)
      ensures settled <= |listing.objects|
      ensures store.files == Settled(Known(table), repair, old(Pass(store.files, findings)), listing.objects, settled).files
      ensures ok ==> settled == |listing.objects| && summary.storedObjects == settled
      ensures ok ==> Reached(Known(table), repair, old(Pass(store.files, findings)), listing.objects, settled, Pass(store.files, findings), summary)
      ensures summary.databaseRefs == old(summary).databaseRefs
    {
      ghost var start := Pass(store.files, findings);
      ghost var all := listing.objects;
      var batch := [];
      settled := 0;
      for n := 0 to |listing.objects|
        invariant settled + |batch| == n && |batch| < batchSize
        invariant forall i | 0 <= i < |batch| :: batch[i] == all[settled + i]
        invariant Reached(Known(table), repair, start, all, settled, Pass(store.files, findings), summary)
        invariant forall j | 0 <= j < settled :: !Stuck(Known(table), repair, undeletable, all[j])
        invariant summary.storedObjects == n && summary.databaseRefs == old(summary).databaseRefs
      {
        summary := summary.(storedObjects := summary.storedObjects + 1);
        batch := batch + [listing.objects[n]];
        if |batch| == batchSize {
          ghost var done := settled;
          ok, settled := Flush(batch, all, done, start);
          StuckInBatch(Known(table), repair, undeletable, all, done, batch);
          if !ok { return; }
          batch := [];
        }
      }
      if !listing.complete { return false, settled; }
      ghost var done := settled;
      ok, settled := Flush(batch, all, done, start);
      StuckInBatch(Known(table), repair, undeletable, all, done, batch);
    }

    /** Reconcile.  It completes exactly when the batch size is in range, every catalog
        row can be read, the walk ends and no orphan resists removal; it then reports
        and repairs exactly as the unbatched comparison does.  Complete or not, it
        removes nothing but unreferenced objects, and those only under repair. */
    method Reconcile(listing: Listing) returns (ok: bool)
      requires Catalog(table) && findings == [] && summary == START
      modifies this
      ensures ok <==>
                && 0 < batchSize <= MAX_BATCH && listing.complete
                && Readable(table, |table|, old(store))
                && NoneStuck(Known(table), repair, undeletable, listing.objects)
      ensures ok ==> Pass(store.files, findings) == Direct(table, old(store), digest, repair, listing.objects)
      ensures ok ==> Counted(summary, findings) && summary.databaseRefs == |table| && summary.storedObjects == |listing.objects|
      ensures Spares(Known(table), repair, old(store.files), store.files)
    {
      ok := WalkContentRefs();
      if !ok { return; }
      ghost var start := Pass(store.files, findings);
      ghost var settled;
      ok, settled := WalkObjects(listing);
      SettledSpares(Known(table), repair, start, listing.objects, settled);
    }
  }

  // ----- what the direct comparison says -------------------------------------------------

  /** A complete listing names every stored object once, with its size. */
  ghost predicate Lists(objects: seq<Ref>, files: map<string, Raw>) {
    && (forall i | 0 <= i < |objects| :: objects[i].key in files && objects[i].size == |files[objects[i].key]|)
    && (forall key | key in files :: exists i | 0 <= i < |objects| :: objects[i].key == key)
    && (forall i, j | 0 <= i < j < |objects| :: objects[i].key != objects[j].key)
  }

  predicate Reports(table: seq<Ref>, n: nat, store: Store, digest: Raw -> string, f: Finding)
    requires n <= |table|
  {
    exists i | 0 <= i < n :: f in RefFinding(table[i], Judge(table[i], store, digest))
  }

  lemma {:induction false} RefFindingsExact(table: seq<Ref>, n: nat, store: Store, digest: Raw -> string, f: Finding)
    requires n <= |table|
    ensures f in RefFindings(table, n, store, digest) <==> Reports(table, n, store, digest, f)
  {
    if n > 0 {
      RefFindingsExact(table, n - 1, store, digest, f);
    }
  }

  predicate ReportsOrphan(known: set<string>, repair: bool, objects: seq<Ref>, n: nat, f: Finding)
    requires n <= |objects|
  {
    exists i | 0 <= i < n :: objects[i].key !in known && f == Finding(Orphan, objects[i], repair)
  }

  lemma {:induction false} SettledFindings(known: set<string>, repair: bool, start: Pass, objects: seq<Ref>, n: nat, f: Finding)
    requires n <= |objects|
    ensures f in Settled(known, repair, start, objects, n).findings <==> f in start.findings || ReportsOrphan(known, repair, objects, n, f)
  {
    if n > 0 {
      SettledFindings(known, repair, start, objects, n - 1, f);
    }
  }

  lemma {:induction false} SettledFiles(known: set<string>, repair: bool, start: Pass, objects: seq<Ref>, n: nat, key: string)
    requires n <= |objects|
    ensures var files := Settled(known, repair, start, objects, n).files;
            && (key in files <==> key in start.files && !(repair && key !in known && exists i | 0 <= i < n :: objects[i].key == key))
            && (key in files ==> files[key] == start.files[key])
  {
    if n > 0 {
      SettledFiles(known, repair, start, objects, n - 1, key);
    }
  }

  lemma SettledSpares(known: set<string>, repair: bool, start: Pass, objects: seq<Ref>, n: nat)
    requires n <= |objects|
    ensures Spares(known, repair, start.files, Settled(known, repair, start, objects, n).files)
  {
  }
}
