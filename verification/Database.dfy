/** The relational state shared by every MailWisp transaction, and the
    transactions themselves as functions on it.  Each SQL transaction is one
    atomic step; the classes in Repositories.dfy run the same transactions
    statement by statement and are proved to reach these states. */
module Database {
  import opened Common
  import ContentKey

  type InboxId = nat
  type MessageId = nat
  type Key = string

  datatype Inbox = Inbox(active: bool, expiresAt: int)
  datatype ContentRef = ContentRef(key: Key, size: int)
  datatype MessageRow = MessageRow(id: MessageId, inbox: InboxId, key: Key, sender: string, receivedAt: int)

  /** One row of content_deletion_queue. */
  datatype Task = Task(size: nat, generation: nat)

  datatype Db = Db(
    inboxes: map<InboxId, Inbox>,
    contents: map<Key, nat>,
    messages: seq<MessageRow>,
    queue: map<Key, Task>)

  const EMPTY := Db(map[], map[], [], map[])

  predicate Live(db: Db, inbox: InboxId, now: int) {
    inbox in db.inboxes && db.inboxes[inbox].active && db.inboxes[inbox].expiresAt > now
  }

  predicate Referenced(rows: seq<MessageRow>, key: Key) {
    exists r | r in rows :: r.key == key
  }

  /** What the schema's keys and the transactions maintain between them: messages
      point at existing rows, and a content row exists only while used. */
  ghost predicate Integrity(db: Db) {
    && (forall r | r in db.messages :: r.key in db.contents && r.inbox in db.inboxes)
    && (forall k | k in db.contents :: Referenced(db.messages, k))
    && (forall r, s | r in db.messages && s in db.messages && r.id == s.id :: r == s)
    && (forall k | k in db.queue :: db.queue[k].generation >= 1)
  }

  // ----- removing messages -------------------------------------------------

  predicate Dropped(r: MessageRow, inboxes: set<InboxId>, ids: set<MessageId>) {
    r.inbox in inboxes || r.id in ids
  }

  /** The rows that survive deleting every message of `inboxes` and every message in `ids`. */
  function Keep(rows: seq<MessageRow>, inboxes: set<InboxId>, ids: set<MessageId>): (kept: seq<MessageRow>)
    ensures forall r :: r in kept <==> r in rows && !Dropped(r, inboxes, ids)
  {
    if rows == [] then []
    else
      var rest := Keep(rows[1..], inboxes, ids);
      if Dropped(rows[0], inboxes, ids) then rest else [rows[0]] + rest
  }

  /** Content that loses its last message when those rows go. */
  function Orphans(db: Db, inboxes: set<InboxId>, ids: set<MessageId>): (ks: set<Key>) {
    set k | k in db.contents
            && (exists r | r in db.messages :: r.key == k && Dropped(r, inboxes, ids))
            && !Referenced(Keep(db.messages, inboxes, ids), k)
  }

  /** enqueueContentDeletion: insert with generation 1 or bump the generation. */
  function Enqueue(queue: map<Key, Task>, key: Key, size: nat): map<Key, Task> {
    queue[key := Task(size, if key in queue then queue[key].generation + 1 else 1)]
  }

  function EnqueueAll(queue: map<Key, Task>, contents: map<Key, nat>, ks: set<Key>): map<Key, Task>
    requires ks <= contents.Keys
  {
    map k | k in queue.Keys + ks ::
      if k in ks then Task(contents[k], if k in queue then queue[k].generation + 1 else 1) else queue[k]
  }

  /** The common effect of DeleteMessage (ids), DeleteInbox and CleanupExpiredInboxes
      (inboxes): cascade to messages, drop unreferenced content, queue its deletion. */
  function Withdraw(db: Db, inboxes: set<InboxId>, ids: set<MessageId>): Db {
    var gone := Orphans(db, inboxes, ids);
    Db(db.inboxes - inboxes,
       db.contents - gone,
       Keep(db.messages, inboxes, ids),
       EnqueueAll(db.queue, db.contents, gone))
  }

  lemma WithdrawKeepsIntegrity(db: Db, inboxes: set<InboxId>, ids: set<MessageId>)
    requires Integrity(db)
    ensures Integrity(Withdraw(db, inboxes, ids))
  {
  }

  /** A content row leaves only together with its last message, and exactly then
      is its physical deletion queued again, under a strictly newer generation. */
  lemma WithdrawQueuesExactlyTheOrphans(db: Db, inboxes: set<InboxId>, ids: set<MessageId>)
    requires Integrity(db)
    ensures var d := Withdraw(db, inboxes, ids);
            forall k | k in db.contents ::
              && (k !in d.contents <==> forall r | r in db.messages && r.key == k :: Dropped(r, inboxes, ids))
              && (k !in d.contents ==>
                    && k in d.queue
                    && d.queue[k].size == db.contents[k]
                    && d.queue[k].generation == (if k in db.queue then db.queue[k].generation else 0) + 1)
              && (k in d.contents ==> d.contents[k] == db.contents[k])
    ensures var d := Withdraw(db, inboxes, ids);
            forall k | k in d.contents || k !in db.contents ::
              && (k in d.queue <==> k in db.queue)
              && (k in d.queue ==> d.queue[k] == db.queue[k])
  {
  }

  function Acknowledge(db: Db, key: Key, generation: nat): Db {
    if key in db.queue && db.queue[key].generation == generation
    then db.(queue := db.queue - {key})
    else db
  }

  // ----- committing a delivery ---------------------------------------------

  datatype Limits = Limits(maxMessages: int, maxBytes: int)
  datatype Delivery = Delivery(content: ContentRef, sender: string, recipients: seq<InboxId>, receivedAt: int)
  datatype CommitError = InvalidDelivery | InboxNotFound | MessageQuota | StorageQuota | MetadataConflict

  predicate Distinct<T(==)>(s: seq<T>) {
    forall i, j | 0 <= i < j < |s| :: s[i] != s[j]
  }

  predicate ValidEnvelope(sender: string, recipients: seq<InboxId>) {
    |sender| <= 320 && |recipients| > 0 && Distinct(recipients)
  }

  function SizeOf(contents: map<Key, nat>, key: Key): nat {
    if key in contents then contents[key] else 0
  }

  /** Messages and logical bytes held by one Inbox, content joined by key. */
  function Count(rows: seq<MessageRow>, inbox: InboxId): nat {
    if rows == [] then 0
    else (if rows[0].inbox == inbox then 1 else 0) + Count(rows[1..], inbox)
  }

  function Bytes(rows: seq<MessageRow>, contents: map<Key, nat>, inbox: InboxId): nat {
    if rows == [] then 0
    else (if rows[0].inbox == inbox then SizeOf(contents, rows[0].key) else 0) + Bytes(rows[1..], contents, inbox)
  }

  predicate HasRoom(db: Db, limits: Limits, inbox: InboxId, size: int) {
    && Count(db.messages, inbox) < limits.maxMessages
    && size <= limits.maxBytes - Bytes(db.messages, db.contents, inbox)
  }

  function NewRows(d: Delivery, ids: seq<MessageId>): (rows: seq<MessageRow>)
    requires |ids| == |d.recipients|
    ensures |rows| == |ids|
  {
    seq(|ids|, i requires 0 <= i < |ids| => MessageRow(ids[i], d.recipients[i], d.content.key, d.sender, d.receivedAt))
  }

  /** The first quota a recipient list would break, in the order the code checks. */
  function QuotaError(db: Db, limits: Limits, recipients: seq<InboxId>, size: int): (e: Result<(), CommitError>) {
    if recipients == [] then Ok(())
    else if Count(db.messages, recipients[0]) >= limits.maxMessages then Err(MessageQuota)
    else if size > limits.maxBytes - Bytes(db.messages, db.contents, recipients[0]) then Err(StorageQuota)
    else QuotaError(db, limits, recipients[1..], size)
  }

  lemma {:induction false} QuotaErrorMeaning(db: Db, limits: Limits, recipients: seq<InboxId>, size: int)
    ensures QuotaError(db, limits, recipients, size).Ok?
       <==> forall inbox | inbox in recipients :: HasRoom(db, limits, inbox, size)
  {
    if recipients != [] {
      var head, tail := recipients[0], recipients[1..];
      QuotaErrorMeaning(db, limits, tail, size);
      assert recipients == [head] + tail;
      assert HasRoom(db, limits, head, size) <==>
             (Count(db.messages, head) < limits.maxMessages && size <= limits.maxBytes - Bytes(db.messages, db.contents, head));
    }
  }

  /** Microseconds from the Unix epoch to the zero time, 1 January of year 1. */
  const ZERO_TIME: int := -62_135_596_800_000_000

  /** Delivery.Validate: canonical key, non-negative size, a time, a sound envelope. */
  predicate ValidDelivery(d: Delivery) {
    && ContentKey.Valid(d.content.key)
    && d.content.size >= 0
    && d.receivedAt != ZERO_TIME
    && ValidEnvelope(d.sender, d.recipients)
  }

  /** CommitDelivery with database-generated message ids. */
  function Commit(db: Db, limits: Limits, d: Delivery, now: int, ids: seq<MessageId>): (r: Result<Db, CommitError>)
    requires |ids| == |d.recipients|
  {
    if !ValidDelivery(d) then Err(InvalidDelivery)
    else if exists x | x in d.recipients :: !Live(db, x, now) then Err(InboxNotFound)
    else
      var quota := QuotaError(db, limits, d.recipients, d.content.size);
      if quota.Err? then Err(quota.error)
      else if d.content.key in db.contents && db.contents[d.content.key] != d.content.size then Err(MetadataConflict)
      else Ok(db.(contents := db.contents[d.content.key := d.content.size],
                  messages := db.messages + NewRows(d, ids)))
  }

  ghost predicate FreshIds(db: Db, ids: seq<MessageId>) {
    && Distinct(ids)
    && forall r | r in db.messages :: r.id !in ids
  }

  lemma NewRowsAreKeyed(d: Delivery, ids: seq<MessageId>)
    requires |ids| == |d.recipients| && Distinct(ids)
    ensures forall r | r in NewRows(d, ids) :: r.id in ids && r.inbox in d.recipients && r.key == d.content.key
    ensures forall r, s | r in NewRows(d, ids) && s in NewRows(d, ids) && r.id == s.id :: r == s
  {
  }

  lemma CommitKeepsIntegrity(db: Db, limits: Limits, d: Delivery, now: int, ids: seq<MessageId>)
    requires Integrity(db) && |ids| == |d.recipients| && FreshIds(db, ids)
    requires Commit(db, limits, d, now, ids).Ok?
    ensures Integrity(Commit(db, limits, d, now, ids).value)
  {
    var after := Commit(db, limits, d, now, ids).value;
    var rows := NewRows(d, ids);
    NewRowsAreKeyed(d, ids);
    assert forall r :: r in after.messages <==> r in db.messages || r in rows;
    forall k | k in after.contents ensures Referenced(after.messages, k) {
      if k in db.contents {
        var r :| r in db.messages && r.key == k;
        assert r in after.messages;
      } else {
        assert rows[0] in after.messages;
      }
    }
  }

  /** What an accepted delivery writes: every earlier row stays, and each recipient gets
      exactly one new row, with the delivery's key, sender and receive time and its own id;
      the content is recorded at its size, and nothing else changes. */
  lemma CommitWrites(db: Db, limits: Limits, d: Delivery, now: int, ids: seq<MessageId>)
    requires |ids| == |d.recipients| && Commit(db, limits, d, now, ids).Ok?
    ensures var after := Commit(db, limits, d, now, ids).value;
            && after.inboxes == db.inboxes && after.queue == db.queue
            && d.content.key in after.contents && after.contents[d.content.key] == d.content.size
            && after.contents - {d.content.key} == db.contents - {d.content.key}
            && |after.messages| == |db.messages| + |d.recipients|
            && (forall i | 0 <= i < |db.messages| :: after.messages[i] == db.messages[i])
            && forall i | |db.messages| <= i < |after.messages| ::
                 var row, n := after.messages[i], i - |db.messages|;
                 && row.id == ids[n] && row.inbox == d.recipients[n] && row.key == d.content.key
                 && row.sender == d.sender && row.receivedAt == d.receivedAt
    ensures Distinct(d.recipients)
  {
    var after, rows := Commit(db, limits, d, now, ids).value, NewRows(d, ids);
    forall i | |db.messages| <= i < |after.messages| ensures after.messages[i] == rows[i - |db.messages|] {}
  }
}
