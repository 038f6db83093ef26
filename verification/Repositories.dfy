/** The mailbox and delivery repositories, statement by statement.  Each method
    works on the tables inside one transaction and is proved to leave exactly the
    state of the corresponding function in Database. */
module Repositories {
  import opened Common
  import opened Database
  import ContentKey

  datatype NotFound = InboxMissing | MessageMissing

  function Expired(db: Db, now: int): set<InboxId> {
    set x | x in db.inboxes && db.inboxes[x].expiresAt <= now
  }

  function KeySet(refs: seq<ContentRef>): set<Key> {
    set f | f in refs :: f.key
  }

  /** Keys of the message rows about to go. */
  function DroppedKeys(rows: seq<MessageRow>, inboxes: set<InboxId>, ids: set<MessageId>): set<Key> {
    set r | r in rows && Dropped(r, inboxes, ids) :: r.key
  }

  function Unused(rows: seq<MessageRow>, ks: set<Key>): set<Key> {
    set k | k in ks && !Referenced(rows, k)
  }

  ghost predicate KeyedOnce(contents: map<Key, nat>, refs: seq<ContentRef>) {
    && (forall i, j | 0 <= i < j < |refs| :: refs[i].key != refs[j].key)
    && (forall f | f in refs :: f.key in contents && f.size == contents[f.key])
  }

  lemma KeySetStep(refs: seq<ContentRef>, n: nat)
    requires n < |refs|
    ensures KeySet(refs[..n + 1]) == KeySet(refs[..n]) + {refs[n].key}
  {
  }

  lemma DroppedKeysStep(rows: seq<MessageRow>, n: nat, inboxes: set<InboxId>, ids: set<MessageId>)
    requires n < |rows|
    ensures DroppedKeys(rows[..n + 1], inboxes, ids)
         == DroppedKeys(rows[..n], inboxes, ids) + if Dropped(rows[n], inboxes, ids) then {rows[n].key} else {}
  {
    assert forall r :: r in rows[..n + 1] <==> r in rows[..n] || r == rows[n];
  }

  lemma KeyedOnceStep(contents: map<Key, nat>, refs: seq<ContentRef>, key: Key)
    requires KeyedOnce(contents, refs) && key in contents && key !in KeySet(refs)
    ensures var more := refs + [ContentRef(key, contents[key])];
            KeyedOnce(contents, more) && KeySet(more) == KeySet(refs) + {key}
  {
    var more := refs + [ContentRef(key, contents[key])];
    forall i | 0 <= i < |refs| ensures more[i] == refs[i] && refs[i].key != key {
      assert refs[i] in refs;
    }
    KeySetStep(more, |refs|);
    assert more[..|refs|] == refs && more[..|refs| + 1] == more;
  }

  lemma UnusedStep(rows: seq<MessageRow>, ks: set<Key>, k: Key)
    ensures Unused(rows, ks + {k}) == Unused(rows, ks) + if Referenced(rows, k) then {} else {k}
  {
  }

  lemma EnqueueStep(queue: map<Key, Task>, contents: map<Key, nat>, ks: set<Key>, k: Key)
    requires ks <= contents.Keys && k in contents && k !in ks
    ensures Enqueue(EnqueueAll(queue, contents, ks), k, contents[k]) == EnqueueAll(queue, contents, ks + {k})
  {
  }

  lemma OrphansAreUnused(db: Db, inboxes: set<InboxId>, ids: set<MessageId>)
    requires Integrity(db)
    ensures Orphans(db, inboxes, ids) == Unused(Keep(db.messages, inboxes, ids), DroppedKeys(db.messages, inboxes, ids))
  {
  }

  /** An active Inbox is live or expired, never both, and an inactive one is not live; expiry is for good, and a live
      Inbox is so until its time exactly. */
  lemma LiveUntilExpired(db: Db, inbox: InboxId, now: int)
    requires inbox in db.inboxes
    ensures Live(db, inbox, now) <==> db.inboxes[inbox].active && inbox !in Expired(db, now)
    ensures inbox in Expired(db, now) <==> db.inboxes[inbox].expiresAt <= now
    ensures forall later | later >= now && inbox in Expired(db, now) :: inbox in Expired(db, later)
  {
  }

  /** ORDER BY expires_at, id. */
  predicate Earlier(inboxes: map<InboxId, Inbox>, x: InboxId, y: InboxId) {
    x in inboxes && y in inboxes &&
    (inboxes[x].expiresAt < inboxes[y].expiresAt || (inboxes[x].expiresAt == inboxes[y].expiresAt && x <= y))
  }

  /** Earlier expiry comes first, and of two Inboxes exactly one does. */
  lemma EarlierIsAnOrder(inboxes: map<InboxId, Inbox>, x: InboxId, y: InboxId)
    requires x in inboxes && y in inboxes
    ensures inboxes[x].expiresAt < inboxes[y].expiresAt ==> Earlier(inboxes, x, y)
    ensures x != y ==> (Earlier(inboxes, x, y) <==> !Earlier(inboxes, y, x))
    ensures forall z | z in inboxes && Earlier(inboxes, x, y) && Earlier(inboxes, y, z) :: Earlier(inboxes, x, z)
  {
  }

  lemma {:induction false} EarliestOf(inboxes: map<InboxId, Inbox>, ids: set<InboxId>) returns (first: InboxId)
    requires ids != {} && forall x | x in ids :: x in inboxes
    ensures first in ids && forall y | y in ids :: Earlier(inboxes, first, y)
    decreases ids
  {
    var x :| x in ids;
    var rest := ids - {x};
    first := x;
    if rest != {} {
      var other := EarliestOf(inboxes, rest);
      first := if Earlier(inboxes, x, other) then x else other;
      forall y | y in ids ensures Earlier(inboxes, first, y) {
        if y != x { assert y in rest && Earlier(inboxes, other, y); }
      }
    } else {
      assert ids == {x};
    }
  }

  lemma NothingWithdrawn(db: Db)
    requires Integrity(db)
    ensures Withdraw(db, {}, {}) == db
  {
    KeepsAll(db.messages);
    assert Orphans(db, {}, {}) == {};
  }

  lemma {:induction false} KeepsAll(rows: seq<MessageRow>)
    ensures Keep(rows, {}, {}) == rows
  {
    if rows != [] { KeepsAll(rows[1..]); }
  }

  class MailRepository {
    var inboxes: map<InboxId, Inbox>
    var contents: map<Key, nat>
    var messages: seq<MessageRow>
    var queue: map<Key, Task>
    const limits: Limits

    constructor (limits: Limits)
      ensures State() == EMPTY && this.limits == limits
    {
      inboxes, contents, messages, queue := map[], map[], [], map[];
      this.limits := limits;
    }

    function State(): Db
      reads this
    {
      Db(inboxes, contents, messages, queue)
    }

    /** SELECT content_key, size_bytes ... GROUP BY over the rows to be dropped. */
    static method OwnedContent(rows: seq<MessageRow>, contents: map<Key, nat>, inboxes: set<InboxId>, ids: set<MessageId>)
      returns (refs: seq<ContentRef>)
      requires forall r | r in rows :: r.key in contents
      ensures KeyedOnce(contents, refs) && KeySet(refs) == DroppedKeys(rows, inboxes, ids)
    {
      refs := [];
      for n := 0 to |rows|
        invariant KeyedOnce(contents, refs) && KeySet(refs) == DroppedKeys(rows[..n], inboxes, ids)
      {
        DroppedKeysStep(rows, n, inboxes, ids);
        if Dropped(rows[n], inboxes, ids) && rows[n].key !in KeySet(refs) {
          assert rows[n] in rows;
          KeyedOnceStep(contents, refs, rows[n].key);
          refs := refs + [ContentRef(rows[n].key, contents[rows[n].key])];
        }
      }
      assert rows[..|rows|] == rows;
    }

    /** The loop shared by DeleteMessage, DeleteInbox and CleanupExpiredInboxes:
        drop content that no surviving message uses and queue its deletion. */
    static method DropUnreferenced(rows: seq<MessageRow>, contents: map<Key, nat>, queue: map<Key, Task>, refs: seq<ContentRef>)
      returns (kept: map<Key, nat>, queued: map<Key, Task>, orphans: seq<ContentRef>)
      requires KeyedOnce(contents, refs)
      ensures var gone := Unused(rows, KeySet(refs));
              && gone <= contents.Keys && kept == contents - gone
              && queued == EnqueueAll(queue, contents, gone)
              && KeySet(orphans) == gone
    {
      kept, queued, orphans := contents, queue, [];
      ghost var gone: set<Key> := {};
      for n := 0 to |refs|
        invariant gone == Unused(rows, KeySet(refs[..n])) && gone <= contents.Keys
        invariant kept == contents - gone
        invariant queued == EnqueueAll(queue, contents, gone)
        invariant KeySet(orphans) == gone
      {
        var ref := refs[n];
        KeySetStep(refs, n);
        UnusedStep(rows, KeySet(refs[..n]), ref.key);
        assert ref in refs && ref.key !in KeySet(refs[..n]);
        if ref.key in kept && !Referenced(rows, ref.key) {
          EnqueueStep(queue, contents, gone, ref.key);
          kept := kept - {ref.key};
          queued := Enqueue(queued, ref.key, ref.size);
          orphans := orphans + [ref];
          KeySetStep(orphans, |orphans| - 1);
          gone := gone + {ref.key};
        }
      }
      assert refs[..|refs|] == refs;
    }

    /** Cascade, orphan loop and commit: together exactly Withdraw. */
    method WithdrawRows(dropInboxes: set<InboxId>, dropIds: set<MessageId>) returns (orphans: seq<ContentRef>)
      requires Integrity(State())
      modifies this
      ensures State() == Withdraw(old(State()), dropInboxes, dropIds)
      ensures Integrity(State())
      ensures KeySet(orphans) == old(contents).Keys - contents.Keys
    {
      WithdrawKeepsIntegrity(State(), dropInboxes, dropIds);
      OrphansAreUnused(State(), dropInboxes, dropIds);
      var refs := OwnedContent(messages, contents, dropInboxes, dropIds);
      var rows := Keep(messages, dropInboxes, dropIds);
      var kept, queued;
      kept, queued, orphans := DropUnreferenced(rows, contents, queue, refs);
      inboxes, messages, contents, queue := inboxes - dropInboxes, rows, kept, queued;
    }

    method DeleteInbox(inbox: InboxId, now: int) returns (r: Result<seq<ContentRef>, NotFound>)
      requires Integrity(State())
      modifies this
      ensures Integrity(State())
      ensures r.Ok? <==> Live(old(State()), inbox, now)
      ensures State() == if r.Ok? then Withdraw(old(State()), {inbox}, {}) else old(State())
    {
      if !Live(State(), inbox, now) { return Err(InboxMissing); }
      var orphans := WithdrawRows({inbox}, {});
      return Ok(orphans);
    }

    method DeleteMessage(inbox: InboxId, id: MessageId, now: int) returns (r: Result<seq<ContentRef>, NotFound>)
      requires Integrity(State())
      modifies this
      ensures Integrity(State())
      ensures r.Ok? <==> Live(old(State()), inbox, now) && exists m | m in old(messages) :: m.id == id && m.inbox == inbox
      ensures State() == if r.Ok? then Withdraw(old(State()), {}, {id}) else old(State())
    {
      if !Live(State(), inbox, now) || !(exists m | m in messages :: m.id == id && m.inbox == inbox) {
        return Err(MessageMissing);
      }
      var orphans := WithdrawRows({}, {id});
      return Ok(orphans);
    }

    /** The ids of the query: expired Inboxes, earliest first, up to the limit. */
    method SelectExpired(batchSize: nat, now: int) returns (chosen: set<InboxId>)
      ensures chosen <= Expired(State(), now) && |chosen| <= batchSize
      ensures |chosen| < batchSize ==> chosen == Expired(State(), now)
      ensures forall x, y | x in chosen && y in Expired(State(), now) - chosen :: Earlier(inboxes, x, y)
    {
      var pending := Expired(State(), now);
      chosen := {};
      while pending != {} && |chosen| < batchSize
        invariant chosen !! pending && chosen + pending == Expired(State(), now) && |chosen| <= batchSize
        invariant forall x, y | x in chosen && y in pending :: Earlier(inboxes, x, y)
        decreases pending
      {
        assert forall x | x in pending :: x in inboxes;
        ghost var first := EarliestOf(inboxes, pending);
        var x :| x in pending && forall y | y in pending :: Earlier(inboxes, x, y);
        pending, chosen := pending - {x}, chosen + {x};
      }
    }

    /** One bounded expiry batch, unless another cleanup holds the advisory lock. */
    method CleanupExpiredInboxes(batchSize: nat, now: int, locked: bool) returns (deleted: nat, ghost batch: set<InboxId>)
      requires Integrity(State()) && batchSize > 0
      modifies this
      ensures Integrity(State())
      ensures batch <= Expired(old(State()), now) && deleted == |batch| <= batchSize
      ensures !locked ==> batch == {}
      ensures locked && deleted < batchSize ==> batch == Expired(old(State()), now)
      ensures forall x, y | x in batch && y in Expired(old(State()), now) - batch :: Earlier(old(inboxes), x, y)
      ensures State() == Withdraw(old(State()), batch, {})
    {
      if !locked {
        NothingWithdrawn(State());
        return 0, {};
      }
      var chosen := SelectExpired(batchSize, now);
      batch := chosen;
      deleted := |chosen|;
      var _ := WithdrawRows(chosen, {});
    }

    method AcknowledgeContentDeletion(key: Key, generation: nat) returns (acknowledged: bool)
      modifies this`queue
      ensures State() == Acknowledge(old(State()), key, generation)
      ensures acknowledged <==> key in old(queue) && key !in queue
    {
      acknowledged := key in queue && queue[key].generation == generation;
      if acknowledged { queue := queue - {key}; }
    }

    /** validateEnvelope: one pass over the recipients with a set of those seen. */
    static method ValidateEnvelope(sender: string, recipients: seq<InboxId>) returns (ok: bool)
      ensures ok <==> ValidEnvelope(sender, recipients)
    {
      if |sender| > 320 || |recipients| == 0 { return false; }
      var seen: set<InboxId> := {};
      for n := 0 to |recipients|
        invariant Distinct(recipients[..n])
        invariant forall x :: x in seen <==> x in recipients[..n]
      {
        if recipients[n] in seen {
          var i :| 0 <= i < n && recipients[i] == recipients[n];
          return false;
        }
        seen := seen + {recipients[n]};
      }
      return true;
    }

    /** Usage and quota of the locked recipients, in recipient order. */
    method CheckQuotas(recipients: seq<InboxId>, size: int) returns (r: Result<(), CommitError>)
      ensures r == QuotaError(State(), limits, recipients, size)
    {
      for n := 0 to |recipients|
        invariant QuotaError(State(), limits, recipients, size) == QuotaError(State(), limits, recipients[n..], size)
      {
        var held, bytes := Usage(recipients[n]);
        if held >= limits.maxMessages { return Err(MessageQuota); }
        if size > limits.maxBytes - bytes { return Err(StorageQuota); }
        assert recipients[n..][1..] == recipients[n + 1..];
      }
      return Ok(());
    }

    /** SELECT count(id), sum(size_bytes) for one Inbox. */
    method Usage(inbox: InboxId) returns (held: nat, bytes: nat)
      ensures held == Count(messages, inbox) && bytes == Bytes(messages, contents, inbox)
    {
      held, bytes := 0, 0;
      var n := |messages|;
      while n > 0
        invariant 0 <= n <= |messages|
        invariant held == Count(messages[n..], inbox) && bytes == Bytes(messages[n..], contents, inbox)
      {
        n := n - 1;
        assert messages[n..][1..] == messages[n + 1..];
        if messages[n].inbox == inbox {
          held := held + 1;
          bytes := bytes + SizeOf(contents, messages[n].key);
        }
      }
      assert messages[0..] == messages;
    }

    /** Inboxes that the lock query returns: ids among the recipients that are live. */
    method LockRecipients(recipients: seq<InboxId>, now: int) returns (locked: nat)
      requires Distinct(recipients)
      ensures locked == |recipients| <==> forall x | x in recipients :: Live(State(), x, now)
    {
      var rows := set x | x in recipients && Live(State(), x, now);
      locked := |rows|;
      ghost var all := Members(recipients);
      DistinctCardinality(recipients);
      assert |all| == |recipients|;
      SubsetCardinality(rows, all);
      assert rows == all <==> forall x | x in recipients :: x in rows;
    }

    /** CommitDelivery: validate, lock, check quotas, insert content and one row per
        recipient, commit.  Any error leaves the tables as they were. */
    method CommitDelivery(d: Delivery, now: int, ids: seq<MessageId>) returns (r: Result<(), CommitError>)
      requires |ids| == |d.recipients|
      modifies this`contents, this`messages
      ensures var spec := Commit(old(State()), limits, d, now, ids);
              && r.Ok? == spec.Ok?
              && (r.Err? ==> r.error == spec.error && State() == old(State()))
              && (r.Ok? ==> State() == spec.value)
    {
      var envelope := ValidateEnvelope(d.sender, d.recipients);
      if !ContentKey.Valid(d.content.key) || d.content.size < 0 || d.receivedAt == ZERO_TIME || !envelope {
        return Err(InvalidDelivery);
      }
      var locked := LockRecipients(d.recipients, now);
      if locked != |d.recipients| { return Err(InboxNotFound); }
      var quota := CheckQuotas(d.recipients, d.content.size);
      if quota.Err? { return quota; }
      if d.content.key in contents && contents[d.content.key] != d.content.size {
        return Err(MetadataConflict);
      }
      var rows := messages;
      for n := 0 to |d.recipients|
        invariant rows == messages + NewRows(d, ids)[..n]
      {
        rows := rows + [MessageRow(ids[n], d.recipients[n], d.content.key, d.sender, d.receivedAt)];
      }
      assert NewRows(d, ids)[..|ids|] == NewRows(d, ids);
      contents := contents[d.content.key := d.content.size];
      messages := rows;
      return Ok(());
    }
  }

  ghost function Members<T>(s: seq<T>): set<T> {
    set x | x in s
  }

  lemma MembersStep<T>(s: seq<T>)
    requires s != [] && Distinct(s)
    ensures var rest, last := s[..|s| - 1], s[|s| - 1];
            Members(s) == Members(rest) + {last} && last !in Members(rest) && Distinct(rest)
  {
    var rest, last := s[..|s| - 1], s[|s| - 1];
    assert s == rest + [last];
    forall i | 0 <= i < |rest| ensures rest[i] != last { assert s[i] != s[|s| - 1]; }
  }

  lemma AddOne<T>(a: set<T>, x: T)
    requires x !in a
    ensures |a + {x}| == |a| + 1
  {
  }

  lemma {:induction false} DistinctCardinality<T>(s: seq<T>)
    requires Distinct(s)
    ensures |Members(s)| == |s|
  {
    if s != [] {
      MembersStep(s);
      DistinctCardinality(s[..|s| - 1]);
      AddOne(Members(s[..|s| - 1]), s[|s| - 1]);
    }
  }

  lemma SubsetCardinality<T>(a: set<T>, b: set<T>)
    requires a <= b
    ensures |a| == |b| <==> a == b
  {
    assert b == a + (b - a);
  }
}
