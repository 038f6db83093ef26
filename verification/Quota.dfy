/** Inbox quotas: what the transactions of Database do to per-Inbox usage. */
module Quota {
  import opened Common
  import opened Database

  /** Every Inbox is within its message and byte limits. */
  ghost predicate WithinQuota(db: Db, limits: Limits) {
    forall inbox :: Count(db.messages, inbox) <= limits.maxMessages
                    && Bytes(db.messages, db.contents, inbox) <= limits.maxBytes
  }

  lemma {:induction false} CountAppend(a: seq<MessageRow>, b: seq<MessageRow>, inbox: InboxId)
    ensures Count(a + b, inbox) == Count(a, inbox) + Count(b, inbox)
  {
    if a == [] {
      assert a + b == b;
    } else {
      CountAppend(a[1..], b, inbox);
      assert (a + b)[1..] == a[1..] + b;
    }
  }

  lemma {:induction false} BytesAppend(a: seq<MessageRow>, b: seq<MessageRow>, contents: map<Key, nat>, inbox: InboxId)
    ensures Bytes(a + b, contents, inbox) == Bytes(a, contents, inbox) + Bytes(b, contents, inbox)
  {
    if a == [] {
      assert a + b == b;
    } else {
      BytesAppend(a[1..], b, contents, inbox);
      assert (a + b)[1..] == a[1..] + b;
    }
  }

  lemma {:induction false} BytesFrame(rows: seq<MessageRow>, before: map<Key, nat>, after: map<Key, nat>, inbox: InboxId)
    requires forall r | r in rows :: SizeOf(before, r.key) == SizeOf(after, r.key)
    ensures Bytes(rows, before, inbox) == Bytes(rows, after, inbox)
  {
    if rows != [] {
      assert rows[0] in rows;
      BytesFrame(rows[1..], before, after, inbox);
    }
  }

  lemma {:induction false} KeepShrinks(rows: seq<MessageRow>, inboxes: set<InboxId>, ids: set<MessageId>,
                                       contents: map<Key, nat>, inbox: InboxId)
    ensures Count(Keep(rows, inboxes, ids), inbox) <= Count(rows, inbox)
    ensures Bytes(Keep(rows, inboxes, ids), contents, inbox) <= Bytes(rows, contents, inbox)
  {
    if rows != [] {
      KeepShrinks(rows[1..], inboxes, ids, contents, inbox);
      var rest := Keep(rows[1..], inboxes, ids);
      assert ([rows[0]] + rest)[1..] == rest;
    }
  }

  /** One row per recipient: a listed Inbox is charged once, any other not at all. */
  lemma {:induction false} RowsCharge(d: Delivery, ids: seq<MessageId>, contents: map<Key, nat>, inbox: InboxId)
    requires |ids| == |d.recipients| && Distinct(d.recipients)
    ensures Count(NewRows(d, ids), inbox) == if inbox in d.recipients then 1 else 0
    ensures Bytes(NewRows(d, ids), contents, inbox)
         == if inbox in d.recipients then SizeOf(contents, d.content.key) else 0
    decreases |ids|
  {
    if ids != [] {
      var tail := d.(recipients := d.recipients[1..]);
      RowsCharge(tail, ids[1..], contents, inbox);
      var rows := NewRows(d, ids);
      assert rows[1..] == NewRows(tail, ids[1..]);
      assert d.recipients == [d.recipients[0]] + tail.recipients;
    }
  }

  /** Committing charges every recipient one message and the content's size, and
      nobody else anything, whether or not the content was stored before. */
  lemma CommitCharges(db: Db, limits: Limits, d: Delivery, now: int, ids: seq<MessageId>, inbox: InboxId)
    requires Integrity(db) && |ids| == |d.recipients| && Commit(db, limits, d, now, ids).Ok?
    ensures var after := Commit(db, limits, d, now, ids).value;
            var charged := inbox in d.recipients;
            && Count(after.messages, inbox) == Count(db.messages, inbox) + (if charged then 1 else 0)
            && Bytes(after.messages, after.contents, inbox)
               == Bytes(db.messages, db.contents, inbox) + (if charged then d.content.size else 0)
  {
    var after := Commit(db, limits, d, now, ids).value;
    CountAppend(db.messages, NewRows(d, ids), inbox);
    BytesAppend(db.messages, NewRows(d, ids), after.contents, inbox);
    RowsCharge(d, ids, after.contents, inbox);
    BytesFrame(db.messages, db.contents, after.contents, inbox);
  }

  /** A delivery is accepted exactly when it is well formed, every recipient is
      live and has room, and the key is not stored under another size. */
  lemma CommitAccepts(db: Db, limits: Limits, d: Delivery, now: int, ids: seq<MessageId>)
    requires |ids| == |d.recipients|
    ensures Commit(db, limits, d, now, ids).Ok? <==>
            && ValidDelivery(d)
            && (forall x | x in d.recipients :: Live(db, x, now) && HasRoom(db, limits, x, d.content.size))
            && (d.content.key in db.contents ==> db.contents[d.content.key] == d.content.size)
  {
    QuotaErrorMeaning(db, limits, d.recipients, d.content.size);
  }

  lemma CommitKeepsQuota(db: Db, limits: Limits, d: Delivery, now: int, ids: seq<MessageId>)
    requires Integrity(db) && WithinQuota(db, limits)
    requires |ids| == |d.recipients| && Commit(db, limits, d, now, ids).Ok?
    ensures WithinQuota(Commit(db, limits, d, now, ids).value, limits)
  {
    var after := Commit(db, limits, d, now, ids).value;
    CommitAccepts(db, limits, d, now, ids);
    forall inbox
      ensures Count(after.messages, inbox) <= limits.maxMessages
      ensures Bytes(after.messages, after.contents, inbox) <= limits.maxBytes
    {
      CommitCharges(db, limits, d, now, ids, inbox);
      assert inbox in d.recipients ==> HasRoom(db, limits, inbox, d.content.size);
    }
  }

  lemma WithdrawKeepsQuota(db: Db, limits: Limits, inboxes: set<InboxId>, ids: set<MessageId>)
    requires Integrity(db) && WithinQuota(db, limits)
    ensures WithinQuota(Withdraw(db, inboxes, ids), limits)
  {
    var after := Withdraw(db, inboxes, ids);
    WithdrawKeepsIntegrity(db, inboxes, ids);
    forall inbox
      ensures Count(after.messages, inbox) <= limits.maxMessages
      ensures Bytes(after.messages, after.contents, inbox) <= limits.maxBytes
    {
      KeepShrinks(db.messages, inboxes, ids, db.contents, inbox);
      BytesFrame(after.messages, db.contents, after.contents, inbox);
    }
  }
}
