/** The content lifecycle protocol: deliveries, withdrawals, the retention sweep,
    orphan repair and process crashes, interleaved arbitrarily.

    One step is one SQL transaction, one file-system effect, or one lock
    operation.  Actions carry every outside choice (times, generated ids, which
    rows, which failures), so a run is a sequence of actions. */
module Lifecycle {
  import opened Common
  import opened Database

  /** `digest` names bytes by their content key; `exclusive` is the advisory lease
      that keeps one retention sweep running at a time. */
  datatype Config = Config(digest: Raw -> Key, limits: Limits, exclusive: bool)

  /** A delivery from taking the lifecycle read lease until releasing it. */
  datatype Phase =
    | Storing(raw: Raw)
    | Installed(raw: Raw)
    | Committed(raw: Raw, ids: seq<MessageId>)

  /** A listed deletion task.  `event` numbers the orphaning that queued it. */
  datatype Snapshot = Snapshot(key: Key, generation: nat, event: nat)

  /** Progress on the first listed task: waiting for the write lock, holding it
      before the reference check, holding it after the check found no reference,
      or finished with DeleteUnreferenced and about to acknowledge. */
  datatype Stage = Waiting | Locked | Doomed | Handled
  datatype Sweep = Sweep(stage: Stage, tasks: seq<Snapshot>)

  /** Durable state (`db`, `objects`), process state (`deliveries`, `sweeps`) and
      history that no step reads back into the first two. */
  datatype State = State(
    db: Db,
    objects: map<Key, Raw>,
    deliveries: map<nat, Phase>,
    sweeps: map<nat, Sweep>,
    leftovers: set<Key>,            // installed, then the put or its commit failed
    delivered: map<MessageId, Raw>, // bytes each committed message was delivered with
    acked: set<MessageId>,          // messages whose delivery was answered with 250
    withdrawn: set<MessageId>,      // messages deleted or expired
    events: map<Key, nat>)          // times each content lost its last message

  const INITIAL := State(EMPTY, map[], map[], map[], {}, map[], {}, {}, map[])

  datatype DeliveryStep =
    | Begin(raw: Raw)
    | Install
    | Abandon
    | CommitRows(sender: string, recipients: seq<InboxId>, receivedAt: int, now: int, ids: seq<MessageId>)
    | Finish

  datatype Withdrawal =
    | DeleteMessage(inbox: InboxId, id: MessageId, now: int)
    | DeleteInbox(inbox: InboxId, now: int)
    | Expire(batch: set<InboxId>, now: int)

  datatype SweepStep =
    | List(page: seq<Key>)
    | Lock
    | Check
    | Unlink(synced: bool)
    | Skip
    | Ack
    | End

  datatype Action =
    | CreateInbox(inbox: InboxId, expiresAt: int)
    | Deliver(d: nat, delivery: DeliveryStep)
    | Remove(how: Withdrawal)
    | Retain(w: nat, sweep: SweepStep)
    | Crash
    | Repair(key: Key)

  // ----- deliveries ----------------------------------------------------------

  /** Some sweep holds the lifecycle write lock. */
  predicate WriteLocked(s: State) {
    exists w | w in s.sweeps :: s.sweeps[w].stage.Locked? || s.sweeps[w].stage.Doomed?
  }

  function DeliveryOf(c: Config, raw: Raw, a: DeliveryStep): Delivery
    requires a.CommitRows?
  {
    Delivery(ContentRef(c.digest(raw), |raw|), a.sender, a.recipients, a.receivedAt)
  }

  /** The delivery transaction succeeds, under ids the database never used before. */
  ghost predicate CommitEnabled(c: Config, s: State, d: nat, a: DeliveryStep)
    requires a.CommitRows?
  {
    && d in s.deliveries && s.deliveries[d].Installed?
    && |a.ids| == |a.recipients| && Distinct(a.ids) && (forall m | m in a.ids :: m !in s.delivered)
    && Commit(s.db, c.limits, DeliveryOf(c, s.deliveries[d].raw, a), a.now, a.ids).Ok?
  }

  function Recorded(c: Config, s: State, d: nat, a: DeliveryStep): State
    requires a.CommitRows? && CommitEnabled(c, s, d, a)
  {
    var raw := s.deliveries[d].raw;
    s.(db := Commit(s.db, c.limits, DeliveryOf(c, raw, a), a.now, a.ids).value,
       deliveries := s.deliveries[d := Committed(raw, a.ids)],
       leftovers := s.leftovers - {c.digest(raw)},
       delivered := map m | m in s.delivered.Keys + (set m | m in a.ids) :: if m in a.ids then raw else s.delivered[m])
  }

  /** Installing onto an existing object requires its size and digest to verify. */
  ghost predicate DeliverEnabled(c: Config, s: State, d: nat, a: DeliveryStep) {
    match a
    case Begin(_) => d !in s.deliveries && !WriteLocked(s)
    case Install =>
      && d in s.deliveries && s.deliveries[d].Storing?
      && var k := c.digest(s.deliveries[d].raw);
         k in s.objects ==> |s.objects[k]| == |s.deliveries[d].raw| && c.digest(s.objects[k]) == k
    case Abandon => d in s.deliveries && !s.deliveries[d].Committed?
    case CommitRows(_, _, _, _, _) => CommitEnabled(c, s, d, a)
    case Finish => d in s.deliveries && s.deliveries[d].Committed?
  }

  /** What a delivery leaves behind when it ends without committing. */
  function Left(c: Config, p: Phase): set<Key> {
    if p.Installed? then {c.digest(p.raw)} else {}
  }

  function DeliverNext(c: Config, s: State, d: nat, a: DeliveryStep): State
    requires DeliverEnabled(c, s, d, a)
  {
    match a
    case Begin(raw) => s.(deliveries := s.deliveries[d := Storing(raw)])
    case Install =>
      var raw := s.deliveries[d].raw;
      var k := c.digest(raw);
      s.(deliveries := s.deliveries[d := Installed(raw)],
         objects := if k in s.objects then s.objects else s.objects[k := raw])
    case Abandon =>
      s.(deliveries := s.deliveries - {d}, leftovers := s.leftovers + Left(c, s.deliveries[d]))
    case CommitRows(_, _, _, _, _) => Recorded(c, s, d, a)
    case Finish =>
      s.(deliveries := s.deliveries - {d}, acked := s.acked + set m | m in s.deliveries[d].ids)
  }

  // ----- withdrawals ---------------------------------------------------------

  ghost predicate RemoveEnabled(s: State, a: Withdrawal) {
    match a
    case DeleteMessage(inbox, id, now) =>
      Live(s.db, inbox, now) && exists r | r in s.db.messages :: r.id == id && r.inbox == inbox
    case DeleteInbox(inbox, now) => Live(s.db, inbox, now)
    case Expire(batch, now) => forall x | x in batch :: x in s.db.inboxes && s.db.inboxes[x].expiresAt <= now
  }

  function Inboxes(a: Withdrawal): set<InboxId> {
    match a
    case DeleteMessage(_, _, _) => {}
    case DeleteInbox(inbox, _) => {inbox}
    case Expire(batch, _) => batch
  }

  function Ids(a: Withdrawal): set<MessageId> {
    if a.DeleteMessage? then {a.id} else {}
  }

  function Event(s: State, k: Key): nat {
    if k in s.events then s.events[k] else 0
  }

  /** A withdrawing transaction, with the history it adds. */
  function Withdrawn(s: State, inboxes: set<InboxId>, ids: set<MessageId>): State {
    var gone := Orphans(s.db, inboxes, ids);
    s.(db := Withdraw(s.db, inboxes, ids),
       withdrawn := s.withdrawn + set r | r in s.db.messages && Dropped(r, inboxes, ids) :: r.id,
       events := map k | k in s.events.Keys + gone :: Event(s, k) + if k in gone then 1 else 0)
  }

  // ----- the retention sweep -------------------------------------------------

  /** Sweep `w` works on its first task in the given stage. */
  predicate At(s: State, w: nat, stage: Stage) {
    w in s.sweeps && s.sweeps[w].stage == stage && s.sweeps[w].tasks != []
  }

  ghost predicate SweepEnabled(c: Config, s: State, w: nat, a: SweepStep) {
    match a
    case List(page) =>
      && w !in s.sweeps && (c.exclusive ==> s.sweeps == map[])
      && Distinct(page) && forall k | k in page :: k in s.db.queue
    case Lock => At(s, w, Waiting) && s.deliveries == map[] && !WriteLocked(s)
    case Check => At(s, w, Locked)
    case Unlink(_) => At(s, w, Doomed)
    case Skip => At(s, w, Locked) || At(s, w, Doomed) || At(s, w, Handled)
    case Ack => At(s, w, Handled)
    case End => w in s.sweeps && s.sweeps[w].tasks == []
  }

  function Listing(s: State, page: seq<Key>): (tasks: seq<Snapshot>)
    requires forall k | k in page :: k in s.db.queue
    ensures |tasks| == |page|
    ensures forall i | 0 <= i < |page| ::
              tasks[i] == Snapshot(page[i], s.db.queue[page[i]].generation, Event(s, page[i]))
  {
    seq(|page|, i requires 0 <= i < |page| && page[i] in s.db.queue =>
      Snapshot(page[i], s.db.queue[page[i]].generation, Event(s, page[i])))
  }

  /** The sweep moves on to its next listed task. */
  function Advanced(s: State, w: nat): State
    requires w in s.sweeps && s.sweeps[w].tasks != []
  {
    s.(sweeps := s.sweeps[w := Sweep(Waiting, s.sweeps[w].tasks[1..])])
  }

  function Staged(s: State, w: nat, stage: Stage): State
    requires w in s.sweeps
  {
    s.(sweeps := s.sweeps[w := s.sweeps[w].(stage := stage)])
  }

  function WithoutObject(s: State, k: Key): State {
    s.(objects := s.objects - {k}, leftovers := s.leftovers - {k})
  }

  function SweepNext(c: Config, s: State, w: nat, a: SweepStep): State
    requires SweepEnabled(c, s, w, a)
  {
    match a
    case List(page) => s.(sweeps := s.sweeps[w := Sweep(Waiting, Listing(s, page))])
    case Lock => Staged(s, w, Locked)
    case Check => Staged(s, w, if s.sweeps[w].tasks[0].key in s.db.contents then Handled else Doomed)
    case Unlink(synced) =>
      WithoutObject(if synced then Staged(s, w, Handled) else Advanced(s, w), s.sweeps[w].tasks[0].key)
    case Skip => Advanced(s, w)
    case Ack =>
      var task := s.sweeps[w].tasks[0];
      Advanced(s, w).(db := Acknowledge(s.db, task.key, task.generation))
    case End => s.(sweeps := s.sweeps - {w})
  }

  // ----- runs ------------------------------------------------------------------

  ghost predicate Enabled(c: Config, s: State, a: Action) {
    match a
    case CreateInbox(inbox, _) => inbox !in s.db.inboxes
    case Deliver(d, step) => DeliverEnabled(c, s, d, step)
    case Remove(how) => RemoveEnabled(s, how)
    case Retain(w, step) => SweepEnabled(c, s, w, step)
    case Crash => true
    case Repair(key) => s.deliveries == map[] && s.sweeps == map[] && key in s.objects && key !in s.db.contents
  }

  function Crashed(c: Config, s: State): State {
    s.(deliveries := map[], sweeps := map[],
       leftovers := s.leftovers + set d | d in s.deliveries && s.deliveries[d].Installed? :: c.digest(s.deliveries[d].raw))
  }

  function Next(c: Config, s: State, a: Action): State
    requires Enabled(c, s, a)
  {
    match a
    case CreateInbox(inbox, expiresAt) =>
      s.(db := s.db.(inboxes := s.db.inboxes[inbox := Inbox(true, expiresAt)]))
    case Deliver(d, step) => DeliverNext(c, s, d, step)
    case Remove(how) => Withdrawn(s, Inboxes(how), Ids(how))
    case Retain(w, step) => SweepNext(c, s, w, step)
    case Crash => Crashed(c, s)
    case Repair(key) => WithoutObject(s, key)
  }

  /** `states` is a run of the service from an empty installation. */
  ghost predicate Run(c: Config, states: seq<State>, actions: seq<Action>) {
    && |states| == |actions| + 1
    && states[0] == INITIAL
    && forall i | 0 <= i < |actions| ::
         Enabled(c, states[i], actions[i]) && states[i + 1] == Next(c, states[i], actions[i])
  }
}
