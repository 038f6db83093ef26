/** One retention sweep run to completion: batched expiry, then one page of
    physical deletions. */
module Retention {
  import opened Common
  import opened Database
  import opened Repositories

  datatype Summary = Summary(inboxesDeleted: nat, contentDeleted: nat, contentPending: nat)

  lemma {:induction false} KeepTwice(rows: seq<MessageRow>, a: set<InboxId>, b: set<InboxId>)
    ensures Keep(Keep(rows, a, {}), b, {}) == Keep(rows, a + b, {})
  {
    if rows != [] {
      KeepTwice(rows[1..], a, b);
      var rest := Keep(rows[1..], a, {});
      assert ([rows[0]] + rest)[1..] == rest;
    }
  }

  lemma OrphanIff(db: Db, a: set<InboxId>, k: Key)
    requires Integrity(db) && k in db.contents
    ensures k in Orphans(db, a, {}) <==> forall r | r in db.messages && r.key == k :: Dropped(r, a, {})
  {
  }

  lemma OrphansTwiceAt(db: Db, a: set<InboxId>, b: set<InboxId>, k: Key)
    requires Integrity(db) && k in db.contents
    ensures var mid := Withdraw(db, a, {});
            && (k in Orphans(db, a + b, {}) <==> k in Orphans(db, a, {}) || k in Orphans(mid, b, {}))
            && !(k in Orphans(db, a, {}) && k in Orphans(mid, b, {}))
  {
    var mid := Withdraw(db, a, {});
    WithdrawKeepsIntegrity(db, a, {});
    OrphanIff(db, a, k);
    OrphanIff(db, a + b, k);
    if k in mid.contents {
      OrphanIff(mid, b, k);
    }
    assert forall r :: r in mid.messages <==> r in db.messages && !Dropped(r, a, {});
  }

  /** Content orphaned by two batches in turn is what one combined batch orphans,
      and no key is orphaned by both. */
  lemma OrphansTwice(db: Db, a: set<InboxId>, b: set<InboxId>)
    requires Integrity(db)
    ensures Orphans(db, a, {}) + Orphans(Withdraw(db, a, {}), b, {}) == Orphans(db, a + b, {})
    ensures Orphans(db, a, {}) !! Orphans(Withdraw(db, a, {}), b, {})
  {
    forall k | k in db.contents
      ensures k in Orphans(db, a + b, {}) <==> k in Orphans(db, a, {}) || k in Orphans(Withdraw(db, a, {}), b, {})
      ensures !(k in Orphans(db, a, {}) && k in Orphans(Withdraw(db, a, {}), b, {}))
    {
      OrphansTwiceAt(db, a, b, k);
    }
  }

  /** Expiring in batches reaches the same tables, queue generations included, as
      expiring everything in one transaction. */
  lemma WithdrawTwice(db: Db, a: set<InboxId>, b: set<InboxId>)
    requires Integrity(db)
    ensures Withdraw(Withdraw(db, a, {}), b, {}) == Withdraw(db, a + b, {})
  {
    KeepTwice(db.messages, a, b);
    OrphansTwice(db, a, b);
    var mid := Withdraw(db, a, {});
    var g1, g2 := Orphans(db, a, {}), Orphans(mid, b, {});
    MinusTwice(db.inboxes, a, b);
    MinusTwice(db.contents, g1, g2);
    EnqueueTwice(db.queue, db.contents, g1, g2);
  }

  lemma MinusTwice<K, V>(m: map<K, V>, a: set<K>, b: set<K>)
    ensures m - a - b == m - (a + b)
  {
  }

  lemma EnqueueTwice(queue: map<Key, Task>, contents: map<Key, nat>, a: set<Key>, b: set<Key>)
    requires a <= contents.Keys && b <= contents.Keys && a !! b
    ensures EnqueueAll(EnqueueAll(queue, contents, a), contents - a, b) == EnqueueAll(queue, contents, a + b)
  {
  }

  class ContentStore {
    var objects: map<Key, Raw>

    constructor ()
      ensures objects == map[]
    {
      objects := map[];
    }

    /** Under the write lock: keep referenced content, otherwise remove the object;
        a missing object is already deleted. */
    method DeleteUnreferenced(key: Key, repository: MailRepository, fails: bool) returns (r: Result<bool, ()>)
      modifies this
      ensures objects == if r == Ok(true) then old(objects) - {key} else old(objects)
      ensures r == if key in repository.contents then Ok(false) else if fails then Err(()) else Ok(true)
    {
      if key in repository.contents { return Ok(false); }
      if fails { return Err(()); }
      objects := objects - {key};
      return Ok(true);
    }
  }

  /** The listed tasks that get acknowledged: all but those whose removal fails. */
  function Finished(page: seq<Key>, kept: set<Key>, undeletable: set<Key>): set<Key> {
    set k | k in page && (k in kept || k !in undeletable)
  }

  method ExpireAll(repository: MailRepository, batchSize: nat, now: int) returns (deleted: nat)
    requires Integrity(repository.State()) && batchSize > 0
    modifies repository
    ensures Integrity(repository.State())
    ensures repository.State() == Withdraw(old(repository.State()), Expired(old(repository.State()), now), {})
    ensures Expired(repository.State(), now) == {}
    ensures deleted == |Expired(old(repository.State()), now)|
  {
    ghost var start := repository.State();
    ghost var gone: set<InboxId> := {};
    deleted := 0;
    NothingWithdrawn(start);
    while true
      invariant ExpiredSoFar(start, gone, repository.State(), now) && deleted == |gone|
      decreases |Expired(start, now) - gone|
    {
      var count, batch := repository.CleanupExpiredInboxes(batchSize, now, true);
      ExpireStep(start, gone, batch, now);
      gone := gone + batch;
      deleted := deleted + count;
      if count < batchSize { break; }
    }
  }

  /** What batches have reached when they have withdrawn `gone`. */
  ghost predicate ExpiredSoFar(start: Db, gone: set<InboxId>, db: Db, now: int) {
    Integrity(start) && Integrity(db) && db == Withdraw(start, gone, {}) && gone <= Expired(start, now)
  }

  lemma ExpireStep(start: Db, gone: set<InboxId>, batch: set<InboxId>, now: int)
    requires ExpiredSoFar(start, gone, Withdraw(start, gone, {}), now)
    requires batch <= Expired(Withdraw(start, gone, {}), now)
    ensures ExpiredSoFar(start, gone + batch, Withdraw(Withdraw(start, gone, {}), batch, {}), now)
    ensures |gone + batch| == |gone| + |batch|
    ensures batch != {} ==> |Expired(start, now) - (gone + batch)| < |Expired(start, now) - gone|
    ensures batch == Expired(Withdraw(start, gone, {}), now) ==>
              gone + batch == Expired(start, now) && Expired(Withdraw(start, gone + batch, {}), now) == {}
  {
    WithdrawTwice(start, gone, batch);
    WithdrawKeepsIntegrity(start, gone + batch, {});
    ExpiredAfter(start, gone, now);
    ExpiredAfter(start, gone + batch, now);
    BatchCount(Expired(start, now) - gone, gone, batch);
    MinusBoth(Expired(start, now), gone, batch);
  }

  lemma MinusBoth<T>(a: set<T>, b: set<T>, c: set<T>)
    ensures a - (b + c) == a - b - c
  {
  }

  /** Withdrawing Inboxes leaves the other expired ones. */
  lemma ExpiredAfter(db: Db, gone: set<InboxId>, now: int)
    ensures Expired(Withdraw(db, gone, {}), now) == Expired(db, now) - gone
  {
  }

  lemma BatchCount(left: set<InboxId>, gone: set<InboxId>, batch: set<InboxId>)
    requires batch <= left && left !! gone
    ensures |gone + batch| == |gone| + |batch| && (batch != {} ==> |left - batch| < |left|)
  {
    assert left == batch + (left - batch);
    if batch != {} { assert |batch| > 0; }
  }

  /** Any page of the queue of at most `limit` tasks, and a full one if it can be. */
  method ListContentDeletions(queue: map<Key, Task>, limit: nat) returns (page: seq<Key>)
    ensures Distinct(page) && (forall k | k in page :: k in queue)
    ensures |page| <= limit && (|page| < limit ==> forall k | k in queue :: k in page)
  {
    page := [];
    var rest := queue.Keys;
    while rest != {} && |page| < limit
      invariant Distinct(page) && |page| <= limit
      invariant forall k :: k in queue <==> k in page || k in rest
      invariant forall k | k in page :: k !in rest
      decreases rest
    {
      var k :| k in rest;
      page, rest := page + [k], rest - {k};
    }
  }

  /** DeleteUnreferenced, then acknowledge the listed generation. */
  method ProcessTask(repository: MailRepository, store: ContentStore, key: Key, generation: nat, fails: bool)
    returns (finished: bool, removed: bool)
    requires key in repository.queue && repository.queue[key].generation == generation
    modifies repository`queue, store
    ensures finished == (key in repository.contents || !fails)
    ensures removed == (finished && key !in repository.contents)
    ensures repository.queue == if finished then old(repository.queue) - {key} else old(repository.queue)
    ensures store.objects == if removed then old(store.objects) - {key} else old(store.objects)
  {
    var r := store.DeleteUnreferenced(key, repository, fails);
    if r.Err? { return false, false; }
    var acknowledged := repository.AcknowledgeContentDeletion(key, generation);
    assert repository.State().queue == repository.queue;
    return true, r.value && acknowledged;
  }

  /** `queue` and `objects` after the first `n` listed tasks. */
  ghost predicate Progress(page: seq<Key>, n: nat, kept: set<Key>, undeletable: set<Key>,
                           queue0: map<Key, Task>, queue: map<Key, Task>,
                           objects0: map<Key, Raw>, objects: map<Key, Raw>, removed: nat)
    requires n <= |page|
  {
    var done := Finished(page[..n], kept, undeletable);
    var gone := done - kept;
    queue == queue0 - done && objects == objects0 - gone && removed == |gone|
  }

  lemma ProgressStep(page: seq<Key>, n: nat, kept: set<Key>, undeletable: set<Key>,
                     queue0: map<Key, Task>, queue: map<Key, Task>,
                     objects0: map<Key, Raw>, objects: map<Key, Raw>, removed: nat)
    requires n < |page| && Distinct(page)
    requires Progress(page, n, kept, undeletable, queue0, queue, objects0, objects, removed)
    ensures page[n] in queue0 ==> page[n] in queue && queue[page[n]] == queue0[page[n]]
    ensures var finished := page[n] in kept || page[n] !in undeletable;
            var deleted := finished && page[n] !in kept;
            Progress(page, n + 1, kept, undeletable,
                     queue0, if finished then queue - {page[n]} else queue,
                     objects0, if deleted then objects - {page[n]} else objects,
                     if deleted then removed + 1 else removed)
  {
    var k := page[n];
    FinishedStep(page, n, kept, undeletable);
    var done, next := Finished(page[..n], kept, undeletable), Finished(page[..n + 1], kept, undeletable);
    assert k !in done;
    MinusTwice(queue0, done, {k});
    if k in kept {
      GoneStep(done, kept, k);
    } else if k !in undeletable {
      GoneStep(done, kept, k);
      MinusTwice(objects0, done - kept, {k});
    } else {
      assert next == done;
    }
  }

  lemma GoneStep(done: set<Key>, kept: set<Key>, k: Key)
    requires k !in done
    ensures k in kept ==> (done + {k}) - kept == done - kept
    ensures k !in kept ==> (done + {k}) - kept == (done - kept) + {k} && |(done + {k}) - kept| == |done - kept| + 1
  {
  }

  /** Work through one listed page, task by task. */
  method ProcessPage(repository: MailRepository, store: ContentStore, page: seq<Key>, undeletable: set<Key>)
    returns (removed: nat)
    requires Distinct(page) && forall k | k in page :: k in repository.queue
    modifies repository`queue, store
    ensures var done := Finished(page, repository.contents.Keys, undeletable);
            && repository.queue == old(repository.queue) - done
            && store.objects == old(store.objects) - (done - repository.contents.Keys)
            && removed == |done - repository.contents.Keys|
  {
    var listed := repository.queue;
    ghost var contents, objects0 := repository.contents, store.objects;
    ghost var kept := contents.Keys;
    removed := 0;
    assert Finished(page[..0], kept, undeletable) == {};
    for n := 0 to |page|
      invariant repository.contents == contents
      invariant Progress(page, n, kept, undeletable, listed, repository.queue, objects0, store.objects, removed)
    {
      var key := page[n];
      assert key in page && key in listed;
      ProgressStep(page, n, kept, undeletable, listed, repository.queue, objects0, store.objects, removed);
      ghost var finished := key in kept || key !in undeletable;
      ghost var queue, objects := repository.queue, store.objects;
      var done, deleted := ProcessTask(repository, store, key, listed[key].generation, key in undeletable);
      assert repository.contents == contents && (key in contents <==> key in kept);
      assert repository.queue == if finished then queue - {key} else queue;
      assert store.objects == if deleted then objects - {key} else objects;
      if deleted { removed := removed + 1; }
    }
    assert page[..|page|] == page;
  }

  lemma FinishedStep(page: seq<Key>, n: nat, kept: set<Key>, undeletable: set<Key>)
    requires n < |page| && Distinct(page)
    ensures page[n] !in page[..n]
    ensures Finished(page[..n + 1], kept, undeletable)
         == Finished(page[..n], kept, undeletable)
            + if page[n] in kept || page[n] !in undeletable then {page[n]} else {}
  {
  }

  /** A sweep with no interference leaves no expired Inbox, in whatever batches; it
      clears its page except for objects that cannot be removed, and removes an
      object exactly when it was listed, unreferenced and removable. */
  method Sweep(repository: MailRepository, store: ContentStore, batchSize: nat, now: int, undeletable: set<Key>)
    returns (summary: Summary, page: seq<Key>)
    requires Integrity(repository.State()) && 0 < batchSize <= 1000
    modifies repository, store
    ensures Integrity(repository.State())
    ensures var expired := Expired(old(repository.State()), now);
            var mid := Withdraw(old(repository.State()), expired, {});
            var done := Finished(page, mid.contents.Keys, undeletable);
            && Distinct(page) && (forall k | k in page :: k in mid.queue)
            && |page| <= batchSize && (|page| < batchSize ==> forall k | k in mid.queue :: k in page)
            && repository.State() == mid.(queue := mid.queue - done)
            && store.objects == old(store.objects) - (done - mid.contents.Keys)
            && summary == Summary(|expired|, |done - mid.contents.Keys|, |mid.queue - done|)
    ensures Expired(repository.State(), now) == {}
  {
    var deleted := ExpireAll(repository, batchSize, now);
    ghost var mid := repository.State();
    page := ListContentDeletions(repository.queue, batchSize);
    var removed := ProcessPage(repository, store, page, undeletable);
    ghost var done := Finished(page, mid.contents.Keys, undeletable);
    assert repository.State() == mid.(queue := mid.queue - done);
    assert Expired(repository.State(), now) == Expired(mid, now);
    summary := Summary(deleted, removed, |repository.queue|);
  }
}
