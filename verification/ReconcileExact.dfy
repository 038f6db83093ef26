/** What the comparison of catalog and store reports, stated on the two sets. */
module ReconcileExact {
  import opened Common
  import opened Reconcile

  /** Every row's object is stored, complete and has the digest its key names, and every
      stored object has a row. */
  ghost predicate Agree(table: seq<Ref>, store: Store, digest: Raw -> string) {
    && (forall i | 0 <= i < |table| :: StoredWell(table[i], store.files, digest))
    && (forall key | key in store.files :: key in Known(table))
  }

  /** The findings are exactly the rows without an object, the rows whose object is not the
      one they describe, and the objects without a row. */
  lemma FindingsAreExact(table: seq<Ref>, store: Store, digest: Raw -> string, repair: bool, objects: seq<Ref>, f: Finding)
    requires Lists(objects, store.files) && Readable(table, |table|, store)
    ensures f in Direct(table, store, digest, repair, objects).findings <==>
              match f.kind
              case Missing => !f.repaired && f.content in table && f.content.size >= 0 && f.content.key !in store.files
              case Corrupt =>
                && !f.repaired && f.content in table && !StoredWell(f.content, store.files, digest)
                && (f.content.size < 0 || f.content.key in store.files)
              case Orphan =>
                && f.repaired == repair && f.content.key !in Known(table) && f.content.key in store.files
                && f.content.size == |store.files[f.content.key]|
  {
    var start := Pass(store.files, RefFindings(table, |table|, store, digest));
    SettledFindings(Known(table), repair, start, objects, |objects|, f);
    RefFindingsExact(table, |table|, store, digest, f);
    if f.kind == Orphan {
      RowReports(table, store, digest, f);
      OrphanReports(table, store.files, repair, objects, f);
    } else {
      RowReports(table, store, digest, f);
    }
  }

  lemma RowReports(table: seq<Ref>, store: Store, digest: Raw -> string, f: Finding)
    requires Readable(table, |table|, store)
    ensures Reports(table, |table|, store, digest, f) <==> f.content in table && f in RowReport(f.content, store.files, digest)
  {
    forall i | 0 <= i < |table|
      ensures RefFinding(table[i], Judge(table[i], store, digest)) == RowReport(table[i], store.files, digest)
    {
      JudgeMeans(table[i], store, digest);
    }
  }

  lemma OrphanReports(table: seq<Ref>, files: map<string, Raw>, repair: bool, objects: seq<Ref>, f: Finding)
    requires Lists(objects, files) && f.kind == Orphan
    ensures ReportsOrphan(Known(table), repair, objects, |objects|, f) <==>
              && f.repaired == repair && f.content.key !in Known(table) && f.content.key in files
              && f.content.size == |files[f.content.key]|
  {
  }

  // ----- no finding twice ----------------------------------------------------------------

  predicate Distinct(findings: seq<Finding>) {
    forall i, j | 0 <= i < j < |findings| :: findings[i] != findings[j]
  }

  lemma DistinctSnoc(findings: seq<Finding>, more: seq<Finding>)
    requires Distinct(findings) && |more| <= 1 && forall f | f in more :: f !in findings
    ensures Distinct(findings + more)
  {
    if more != [] {
      assert more == [more[0]] && more[0] in more;
    }
  }

  lemma CatalogKeysDiffer(table: seq<Ref>, i: nat, j: nat)
    requires Catalog(table) && i < j < |table|
    ensures table[i] != table[j]
  {
    assert Ascends(table, i, j);
    LessIsAsymmetric(table[i].key, table[j].key);
  }

  lemma {:induction false} RefFindingsDistinct(table: seq<Ref>, n: nat, store: Store, digest: Raw -> string)
    requires Catalog(table) && n <= |table|
    ensures Distinct(RefFindings(table, n, store, digest))
  {
    if n > 0 {
      RefFindingsDistinct(table, n - 1, store, digest);
      var more := RefFinding(table[n - 1], Judge(table[n - 1], store, digest));
      forall f | f in more ensures f !in RefFindings(table, n - 1, store, digest) {
        RefFindingsExact(table, n - 1, store, digest, f);
        forall i | 0 <= i < n - 1 ensures f !in RefFinding(table[i], Judge(table[i], store, digest)) {
          CatalogKeysDiffer(table, i, n - 1);
        }
      }
      DistinctSnoc(RefFindings(table, n - 1, store, digest), more);
    }
  }

  lemma {:induction false} SettledDistinct(known: set<string>, repair: bool, start: Pass, objects: seq<Ref>, n: nat)
    requires n <= |objects| && Distinct(start.findings) && forall f | f in start.findings :: f.kind != Orphan
    requires forall i, j | 0 <= i < j < |objects| :: objects[i].key != objects[j].key
    ensures Distinct(Settled(known, repair, start, objects, n).findings)
  {
    if n > 0 {
      SettledDistinct(known, repair, start, objects, n - 1);
      var f := Finding(Orphan, objects[n - 1], repair);
      SettledFindings(known, repair, start, objects, n - 1, f);
      DistinctSnoc(Settled(known, repair, start, objects, n - 1).findings, [f]);
    }
  }

  /** No inconsistency is reported twice. */
  lemma FindingsAreDistinct(table: seq<Ref>, store: Store, digest: Raw -> string, repair: bool, objects: seq<Ref>)
    requires Catalog(table) && Lists(objects, store.files)
    ensures Distinct(Direct(table, store, digest, repair, objects).findings)
  {
    var start := Pass(store.files, RefFindings(table, |table|, store, digest));
    RefFindingsDistinct(table, |table|, store, digest);
    forall f | f in start.findings ensures f.kind != Orphan {
      RefFindingsExact(table, |table|, store, digest, f);
    }
    SettledDistinct(Known(table), repair, start, objects, |objects|);
  }

  // ----- repair and the unresolved count -------------------------------------------------

  /** Repair leaves exactly the objects the catalog knows; without it nothing changes. */
  lemma RepairKeepsExactlyTheKnown(table: seq<Ref>, store: Store, digest: Raw -> string, repair: bool, objects: seq<Ref>)
    requires Lists(objects, store.files)
    ensures Direct(table, store, digest, repair, objects).files
         == if repair then map key | key in store.files && key in Known(table) :: store.files[key] else store.files
  {
    var start := Pass(store.files, RefFindings(table, |table|, store, digest));
    var files := Direct(table, store, digest, repair, objects).files;
    forall key
      ensures key in files <==> key in store.files && (repair ==> key in Known(table))
      ensures key in files ==> files[key] == store.files[key]
    {
      SettledFiles(Known(table), repair, start, objects, |objects|, key);
    }
  }

  /** Removing what the catalog does not know changes nothing there is to say about a row. */
  lemma RepairKeepsReports(table: seq<Ref>, store: Store, digest: Raw -> string, objects: seq<Ref>, i: nat)
    requires Lists(objects, store.files) && i < |table|
    ensures var repaired := Direct(table, store, digest, true, objects).files;
            && RowReport(table[i], repaired, digest) == RowReport(table[i], store.files, digest)
            && (StoredWell(table[i], repaired, digest) <==> StoredWell(table[i], store.files, digest))
  {
    RepairKeepsExactlyTheKnown(table, store, digest, true, objects);
    assert table[i].key in Known(table);
  }

  function RefTally(findings: seq<Finding>): int {
    var t := TallyOf(findings);
    t.missing + t.corrupt + t.orphans
  }

  lemma {:induction false} TallyIsLength(findings: seq<Finding>)
    ensures RefTally(findings) == |findings|
  {
    if findings != [] { TallyIsLength(findings[..|findings| - 1]); }
  }

  lemma {:induction false} TallyRepaired(findings: seq<Finding>, repair: bool)
    requires forall i | 0 <= i < |findings| :: findings[i].repaired == (repair && findings[i].kind == Orphan)
    ensures TallyOf(findings).repaired == if repair then TallyOf(findings).orphans else 0
    ensures repair && TallyOf(findings).missing + TallyOf(findings).corrupt == 0 ==>
              forall i | 0 <= i < |findings| :: findings[i].kind == Orphan
    ensures (forall i | 0 <= i < |findings| :: findings[i].kind == Orphan) ==>
              TallyOf(findings).missing + TallyOf(findings).corrupt == 0
  {
    if findings != [] {
      var before := findings[..|findings| - 1];
      forall i | 0 <= i < |before| ensures before[i] == findings[i] {}
      TallyRepaired(before, repair);
    }
  }

  lemma MarksOfDirect(table: seq<Ref>, store: Store, digest: Raw -> string, repair: bool, objects: seq<Ref>)
    requires Lists(objects, store.files) && Readable(table, |table|, store)
    ensures var findings := Direct(table, store, digest, repair, objects).findings;
            forall i | 0 <= i < |findings| :: findings[i].repaired == (repair && findings[i].kind == Orphan)
  {
    var findings := Direct(table, store, digest, repair, objects).findings;
    forall i | 0 <= i < |findings| ensures findings[i].repaired == (repair && findings[i].kind == Orphan) {
      FindingsAreExact(table, store, digest, repair, objects, findings[i]);
    }
  }

  lemma NoFindingsIffAgree(table: seq<Ref>, store: Store, digest: Raw -> string, objects: seq<Ref>)
    requires Lists(objects, store.files)
    requires Readable(table, |table|, store)
    ensures Direct(table, store, digest, false, objects).findings == [] <==> Agree(table, store, digest)
  {
    var findings := Direct(table, store, digest, false, objects).findings;
    if Agree(table, store, digest) && findings != [] {
      FindingsAreExact(table, store, digest, false, objects, findings[0]);
    }
    if findings == [] {
      forall i | 0 <= i < |table| ensures StoredWell(table[i], store.files, digest) {
        FindingsAreExact(table, store, digest, false, objects, Finding(Missing, table[i], false));
        FindingsAreExact(table, store, digest, false, objects, Finding(Corrupt, table[i], false));
      }
      forall key | key in store.files ensures key in Known(table) {
        FindingsAreExact(table, store, digest, false, objects, Finding(Orphan, Ref(key, |store.files[key]|), false));
      }
    }
  }

  /** A completed scan without repair has nothing unresolved exactly when both stores agree. */
  lemma ZeroUnresolvedIffAgree(table: seq<Ref>, store: Store, digest: Raw -> string, objects: seq<Ref>, summary: Summary)
    requires Lists(objects, store.files)
    requires Readable(table, |table|, store)
    requires Counted(summary, Direct(table, store, digest, false, objects).findings)
    ensures Unresolved(summary) == 0 <==> Agree(table, store, digest)
  {
    var findings := Direct(table, store, digest, false, objects).findings;
    MarksOfDirect(table, store, digest, false, objects);
    TallyIsLength(findings);
    TallyRepaired(findings, false);
    NoFindingsIffAgree(table, store, digest, objects);
  }

  /** A completed scan with repair has nothing unresolved exactly when the repaired store agrees
      with the catalog. */
  lemma ZeroUnresolvedAfterRepair(table: seq<Ref>, store: Store, digest: Raw -> string, objects: seq<Ref>, summary: Summary)
    requires Lists(objects, store.files)
    requires Readable(table, |table|, store)
    requires Counted(summary, Direct(table, store, digest, true, objects).findings)
    ensures Unresolved(summary) == 0 <==>
              Agree(table, store.(files := Direct(table, store, digest, true, objects).files), digest)
  {
    var findings := Direct(table, store, digest, true, objects).findings;
    var repaired := store.(files := Direct(table, store, digest, true, objects).files);
    MarksOfDirect(table, store, digest, true, objects);
    TallyRepaired(findings, true);
    RepairKeepsExactlyTheKnown(table, store, digest, true, objects);
    forall i | 0 <= i < |table| ensures StoredWell(table[i], repaired.files, digest) <==> StoredWell(table[i], store.files, digest) {
      RepairKeepsReports(table, store, digest, objects, i);
    }
    OnlyOrphansIffIntact(table, store, digest, objects);
  }

  lemma OnlyOrphansIffIntact(table: seq<Ref>, store: Store, digest: Raw -> string, objects: seq<Ref>)
    requires Lists(objects, store.files)
    requires Readable(table, |table|, store)
    ensures (var findings := Direct(table, store, digest, true, objects).findings;
             forall i | 0 <= i < |findings| :: findings[i].kind == Orphan) <==>
            forall i | 0 <= i < |table| :: StoredWell(table[i], store.files, digest)
  {
    var findings := Direct(table, store, digest, true, objects).findings;
    if forall i | 0 <= i < |table| :: StoredWell(table[i], store.files, digest) {
      forall i | 0 <= i < |findings| ensures findings[i].kind == Orphan {
        FindingsAreExact(table, store, digest, true, objects, findings[i]);
      }
    }
    if forall i | 0 <= i < |findings| :: findings[i].kind == Orphan {
      forall i | 0 <= i < |table| ensures StoredWell(table[i], store.files, digest) {
        FindingsAreExact(table, store, digest, true, objects, Finding(Missing, table[i], false));
        FindingsAreExact(table, store, digest, true, objects, Finding(Corrupt, table[i], false));
        assert Finding(Missing, table[i], false) !in findings && Finding(Corrupt, table[i], false) !in findings;
      }
    }
  }
}
