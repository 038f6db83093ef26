/** The quota rests on two checks besides itself: distinct recipients, and one size per
    content key.  A commit lacking either exceeds a quota in some run. */
module QuotaChecks {
  import opened Common
  import opened Database
  import opened Quota
  import ContentKey

  /** Which of the two checks a commit makes. */
  datatype Checks = Checks(distinct: bool, sizes: bool)

  /** Delivery.Validate, with or without its check for repeated recipients. */
  predicate Passes(d: Delivery, checks: Checks) {
    && ContentKey.Valid(d.content.key) && d.content.size >= 0 && d.receivedAt != ZERO_TIME
    && |d.sender| <= 320 && |d.recipients| > 0 && (checks.distinct ==> Distinct(d.recipients))
  }

  /** CommitDelivery with the given checks; without the size check an existing content
      row stays as it is, as ON CONFLICT DO NOTHING leaves it. */
  function LaxCommit(db: Db, limits: Limits, d: Delivery, now: int, ids: seq<MessageId>, checks: Checks): Result<Db, CommitError>
    requires |ids| == |d.recipients|
  {
    if !Passes(d, checks) then Err(InvalidDelivery)
    else if exists x | x in d.recipients :: !Live(db, x, now) then Err(InboxNotFound)
    else
      var quota := QuotaError(db, limits, d.recipients, d.content.size);
      if quota.Err? then Err(quota.error)
      else if checks.sizes && d.content.key in db.contents && db.contents[d.content.key] != d.content.size then Err(MetadataConflict)
      else Ok(db.(contents := if d.content.key in db.contents then db.contents else db.contents[d.content.key := d.content.size],
                  messages := db.messages + NewRows(d, ids)))
  }

  /** With both checks it is the commit of the code. */
  lemma BothChecksAreCommit(db: Db, limits: Limits, d: Delivery, now: int, ids: seq<MessageId>)
    requires |ids| == |d.recipients|
    ensures LaxCommit(db, limits, d, now, ids, Checks(true, true)) == Commit(db, limits, d, now, ids)
  {
    if d.content.key in db.contents && db.contents[d.content.key] == d.content.size {
      assert db.contents[d.content.key := d.content.size] == db.contents;
    }
  }

  // ----- a run for each missing check -------------------------------------------------

  function SomeKey(c: char): string
    requires '0' <= c <= '9'
  {
    ContentKey.KeyOf(seq(64, _ => c))
  }

  lemma SomeKeyIsValid(c: char)
    requires '0' <= c <= '9'
    ensures ContentKey.Valid(SomeKey(c)) && SomeKey(c)[|ContentKey.PREFIX|..] == seq(64, _ => c)
  {
    var d := seq(64, _ => c);
    assert SomeKey(c)[|ContentKey.PREFIX|..] == d;
    ContentKey.AcceptedDigestIsLowerHex(d);
    ContentKey.KeyOfDigest(d);
  }

  lemma KeysDiffer()
    ensures SomeKey('1') != SomeKey('2')
  {
    SomeKeyIsValid('1');
    SomeKeyIsValid('2');
    assert seq(64, _ => '1')[0] != seq(64, _ => '2')[0];
  }

  /** One delivery after another. */
  datatype Step = Step(delivery: Delivery, ids: seq<MessageId>)

  predicate WellSized(steps: seq<Step>) {
    forall i | 0 <= i < |steps| :: |steps[i].ids| == |steps[i].delivery.recipients|
  }

  /** The tables after deliveries that all commit. */
  function AfterAll(db: Db, limits: Limits, steps: seq<Step>, checks: Checks): Option<Db>
    requires WellSized(steps)
  {
    if steps == [] then Some(db)
    else
      var last := steps[|steps| - 1];
      match AfterAll(db, limits, steps[..|steps| - 1], checks)
      case None => None
      case Some(before) =>
        match LaxCommit(before, limits, last.delivery, 0, last.ids, checks)
        case Err(_) => None
        case Ok(after) => Some(after)
  }

  const TWO_INBOXES := Db(map[0 := Inbox(true, 1), 1 := Inbox(true, 1)], map[], [], map[])

  function To(key: Key, size: nat, recipients: seq<InboxId>): Delivery {
    Delivery(ContentRef(key, size), "", recipients, 0)
  }

  /** The same Inbox listed twice passes a quota of one message, and gets two. */
  lemma RepeatedRecipientExceeds(sizes: bool)
    ensures var d := To(SomeKey('1'), 0, [0, 0]);
            var r := LaxCommit(TWO_INBOXES, Limits(1, 10), d, 0, [0, 1], Checks(false, sizes));
            r.Ok? && Count(r.value.messages, 0) == 2
  {
    var db, limits, d := TWO_INBOXES, Limits(1, 10), To(SomeKey('1'), 0, [0, 0]);
    SomeKeyIsValid('1');
    assert Passes(d, Checks(false, sizes));
    QuotaErrorMeaning(db, limits, d.recipients, 0);
    var rows := NewRows(d, [0, 1]);
    assert db.messages + rows == rows && rows[1..] == [rows[1]] && rows[1..][1..] == [];
  }

  /** Content stored at ten bytes, delivered again as five to an Inbox that holds five
      of its ten. */
  function ShrunkRun(): seq<Step> {
    [Step(To(SomeKey('1'), 10, [0]), [0]), Step(To(SomeKey('2'), 5, [1]), [1]), Step(To(SomeKey('1'), 5, [1]), [2])]
  }

  function OneStored(): Db {
    TWO_INBOXES.(contents := map[SomeKey('1') := 10], messages := [MessageRow(0, 0, SomeKey('1'), "", 0)])
  }

  function TwoStored(): Db {
    TWO_INBOXES.(contents := map[SomeKey('1') := 10, SomeKey('2') := 5],
                 messages := [MessageRow(0, 0, SomeKey('1'), "", 0), MessageRow(1, 1, SomeKey('2'), "", 0)])
  }

  lemma SingleRow(key: Key, size: nat, inbox: InboxId, id: MessageId)
    ensures NewRows(To(key, size, [inbox]), [id]) == [MessageRow(id, inbox, key, "", 0)]
  {
  }

  /** A valid delivery to one live Inbox with room commits, whatever the checks. */
  lemma OneCommits(db: Db, limits: Limits, key: Key, size: nat, inbox: InboxId, id: MessageId, checks: Checks)
    requires ContentKey.Valid(key) && Live(db, inbox, 0) && HasRoom(db, limits, inbox, size)
    requires checks.sizes && key in db.contents ==> db.contents[key] == size
    ensures LaxCommit(db, limits, To(key, size, [inbox]), 0, [id], checks)
         == Ok(db.(contents := if key in db.contents then db.contents else db.contents[key := size],
                   messages := db.messages + [MessageRow(id, inbox, key, "", 0)]))
  {
    var d := To(key, size, [inbox]);
    QuotaErrorMeaning(db, limits, [inbox], size);
    SingleRow(key, size, inbox, id);
  }

  lemma FirstStored(checks: Checks)
    ensures LaxCommit(TWO_INBOXES, Limits(5, 10), To(SomeKey('1'), 10, [0]), 0, [0], checks) == Ok(OneStored())
  {
    SomeKeyIsValid('1');
    OneCommits(TWO_INBOXES, Limits(5, 10), SomeKey('1'), 10, 0, 0, checks);
    assert TWO_INBOXES.messages + OneStored().messages == OneStored().messages;
    assert TWO_INBOXES.contents[SomeKey('1') := 10] == OneStored().contents;
  }

  lemma SecondStored(checks: Checks)
    ensures LaxCommit(OneStored(), Limits(5, 10), To(SomeKey('2'), 5, [1]), 0, [1], checks) == Ok(TwoStored())
  {
    var db := OneStored();
    SomeKeyIsValid('2');
    KeysDiffer();
    assert db.messages[1..] == [];
    assert Count(db.messages, 1) == 0 && Bytes(db.messages, db.contents, 1) == 0;
    OneCommits(db, Limits(5, 10), SomeKey('2'), 5, 1, 1, checks);
    assert db.messages + [MessageRow(1, 1, SomeKey('2'), "", 0)] == TwoStored().messages;
    assert db.contents[SomeKey('2') := 5] == TwoStored().contents;
  }

  lemma FirstTwo(checks: Checks)
    ensures WellSized(ShrunkRun()[..2]) && AfterAll(TWO_INBOXES, Limits(5, 10), ShrunkRun()[..2], checks) == Some(TwoStored())
  {
    var run := ShrunkRun();
    FirstStored(checks);
    SecondStored(checks);
    assert run[..2][..1] == [run[0]] && [run[0]][..0] == [];
    assert AfterAll(TWO_INBOXES, Limits(5, 10), [], checks) == Some(TWO_INBOXES);
    assert AfterAll(TWO_INBOXES, Limits(5, 10), [run[0]], checks) == Some(OneStored());
  }

  /** Without the size check the second Inbox is charged the stored ten, not the five
      that were checked. */
  lemma ChangedSizeExceeds(distinct: bool)
    ensures WellSized(ShrunkRun())
    ensures var end := AfterAll(TWO_INBOXES, Limits(5, 10), ShrunkRun(), Checks(distinct, false));
            end.Some? && Bytes(end.value.messages, end.value.contents, 1) == 15
  {
    var checks, limits, run, db := Checks(distinct, false), Limits(5, 10), ShrunkRun(), TwoStored();
    FirstTwo(checks);
    SomeKeyIsValid('1');
    KeysDiffer();
    TwoStoredUsage(1);
    OneCommits(db, limits, SomeKey('1'), 5, 1, 2, checks);
    var more := [MessageRow(2, 1, SomeKey('1'), "", 0)];
    OneRowUsage(more[0], db.contents, 1);
    BytesAppend(db.messages, more, db.contents, 1);
  }

  /** No commit with these checks takes an Inbox over its quota. */
  ghost predicate Guards(checks: Checks) {
    forall db: Db, limits: Limits, d: Delivery, now: int, ids: seq<MessageId> |
      && Integrity(db) && WithinQuota(db, limits) && |ids| == |d.recipients|
      && LaxCommit(db, limits, d, now, ids, checks).Ok? ::
      WithinQuota(LaxCommit(db, limits, d, now, ids, checks).value, limits)
  }

  lemma OneRowUsage(r: MessageRow, contents: map<Key, nat>, inbox: InboxId)
    ensures Count([r], inbox) == if r.inbox == inbox then 1 else 0
    ensures Bytes([r], contents, inbox) == if r.inbox == inbox then SizeOf(contents, r.key) else 0
  {
    assert [r][1..] == [];
  }

  lemma TwoStoredUsage(inbox: InboxId)
    ensures Count(TwoStored().messages, inbox) <= 2
    ensures Bytes(TwoStored().messages, TwoStored().contents, inbox) == if inbox == 0 then 10 else if inbox == 1 then 5 else 0
  {
    var db := TwoStored();
    var a, b := [db.messages[0]], [db.messages[1]];
    KeysDiffer();
    assert db.messages == a + b;
    CountAppend(a, b, inbox);
    BytesAppend(a, b, db.contents, inbox);
    OneRowUsage(a[0], db.contents, inbox);
    OneRowUsage(b[0], db.contents, inbox);
  }

  lemma TwoStoredIsSound()
    ensures Integrity(TwoStored()) && WithinQuota(TwoStored(), Limits(5, 10))
  {
    var rows := TwoStored().messages;
    assert rows[0] in rows && rows[1] in rows;
    forall inbox ensures Count(rows, inbox) <= 5 && Bytes(rows, TwoStored().contents, inbox) <= 10 {
      TwoStoredUsage(inbox);
    }
  }

  lemma EmptyIsSound()
    ensures Integrity(TWO_INBOXES) && WithinQuota(TWO_INBOXES, Limits(1, 10))
  {
  }

  lemma NeedsSizes(distinct: bool)
    ensures !Guards(Checks(distinct, false))
  {
    var checks, limits, db := Checks(distinct, false), Limits(5, 10), TwoStored();
    TwoStoredIsSound();
    ChangedSizeExceeds(distinct);
    FirstTwo(checks);
    var d := To(SomeKey('1'), 5, [1]);
    assert ShrunkRun()[2].delivery == d && |ShrunkRun()| == 3;
    var after := LaxCommit(db, limits, d, 0, [2], checks);
    assert after.Ok? && Bytes(after.value.messages, after.value.contents, 1) == 15;
    assert !WithinQuota(after.value, limits);
  }

  lemma NeedsDistinct(sizes: bool)
    ensures !Guards(Checks(false, sizes))
  {
    EmptyIsSound();
    RepeatedRecipientExceeds(sizes);
    var after := LaxCommit(TWO_INBOXES, Limits(1, 10), To(SomeKey('1'), 0, [0, 0]), 0, [0, 1], Checks(false, sizes));
    assert after.Ok? && !WithinQuota(after.value, Limits(1, 10));
  }

  /** The commit-time quota check guards every Inbox exactly together with both other
      checks. */
  lemma GuardsIffBothChecks(checks: Checks)
    ensures Guards(checks) <==> checks.distinct && checks.sizes
  {
    if !checks.sizes {
      NeedsSizes(checks.distinct);
    } else if !checks.distinct {
      NeedsDistinct(checks.sizes);
    } else {
      forall db: Db, limits: Limits, d: Delivery, now: int, ids: seq<MessageId> |
        && Integrity(db) && WithinQuota(db, limits) && |ids| == |d.recipients|
        && LaxCommit(db, limits, d, now, ids, checks).Ok?
        ensures WithinQuota(LaxCommit(db, limits, d, now, ids, checks).value, limits)
      {
        BothChecksAreCommit(db, limits, d, now, ids);
        CommitKeepsQuota(db, limits, d, now, ids);
      }
    }
  }
}
