/** What the steps of the lifecycle touch and what they leave alone, and where leftovers
    come from and go. */
module LifecycleSteps {
  import opened Common
  import opened Database
  import opened Lifecycle

  /** Everything but one delivery is as it was. */
  ghost predicate OtherDeliveriesKept(s: State, t: State, d: nat) {
    forall e | e != d :: (e in t.deliveries <==> e in s.deliveries) && (e in s.deliveries ==> t.deliveries[e] == s.deliveries[e])
  }

  ghost predicate OtherSweepsKept(s: State, t: State, w: nat) {
    forall v | v != w :: (v in t.sweeps <==> v in s.sweeps) && (v in s.sweeps ==> t.sweeps[v] == s.sweeps[v])
  }

  /** A delivery holds its lease from Begin to Abandon or Finish, and carries the same bytes
      throughout; only installing writes a file, a new one, and only committing writes rows;
      an acknowledgement is of exactly the messages committed. */
  lemma DeliveriesProceed(c: Config, s: State, d: nat, a: DeliveryStep)
    requires DeliverEnabled(c, s, d, a)
    ensures var t := DeliverNext(c, s, d, a);
            && OtherDeliveriesKept(s, t, d)
            && t.sweeps == s.sweeps && t.events == s.events && t.withdrawn == s.withdrawn
            && (!a.CommitRows? ==> t.db == s.db && t.delivered == s.delivered)
            && (!a.Finish? ==> t.acked == s.acked)
            && (forall k | k in s.objects :: k in t.objects && t.objects[k] == s.objects[k])
            && (forall k | k in t.objects && k !in s.objects :: a == Install && k == c.digest(s.deliveries[d].raw) && t.objects[k] == s.deliveries[d].raw)
    ensures var t := DeliverNext(c, s, d, a);
            match a
            case Begin(raw) => d !in s.deliveries && d in t.deliveries && t.deliveries[d] == Storing(raw)
            case Install => d in t.deliveries && t.deliveries[d] == Installed(s.deliveries[d].raw) && c.digest(s.deliveries[d].raw) in t.objects
            case CommitRows(_, _, _, _, ids) => d in t.deliveries && t.deliveries[d] == Committed(s.deliveries[d].raw, ids)
            case Abandon => d !in t.deliveries
            case Finish => d !in t.deliveries && forall m :: m in t.acked <==> m in s.acked || m in s.deliveries[d].ids
  {
  }

  /** A delivery that has committed ends by acknowledging its messages or in a crash. */
  lemma CommittedIsFinished(c: Config, s: State, a: Action, d: nat)
    requires Enabled(c, s, a) && d in s.deliveries && s.deliveries[d].Committed?
    ensures var t := Next(c, s, a);
            if d in t.deliveries then t.deliveries[d] == s.deliveries[d] else a == Crash || a == Deliver(d, Finish)
  {
    match a
    case Deliver(e, step) => DeliveriesProceed(c, s, e, step);
    case Retain(w, step) => SweepsProceed(c, s, w, step);
    case _ =>
  }

  /** An expiry batch may run exactly when none of its Inboxes is live. */
  lemma ExpiryIsDue(s: State, batch: set<InboxId>, now: int)
    requires forall x | x in batch :: x in s.db.inboxes && s.db.inboxes[x].active
    ensures RemoveEnabled(s, Expire(batch, now)) <==> forall x | x in batch :: !Live(s.db, x, now)
  {
  }

  /** A committing delivery records its bytes for its own messages and no other. */
  lemma CommitsRecord(c: Config, s: State, d: nat, a: DeliveryStep)
    requires a.CommitRows? && CommitEnabled(c, s, d, a)
    ensures var t := DeliverNext(c, s, d, a);
            && (forall m | m in a.ids :: m in t.delivered && t.delivered[m] == s.deliveries[d].raw)
            && (forall m | m !in a.ids :: (m in t.delivered <==> m in s.delivered) && (m in s.delivered ==> t.delivered[m] == s.delivered[m]))
            && Commit(s.db, c.limits, DeliveryOf(c, s.deliveries[d].raw, a), a.now, a.ids) == Ok(t.db)
            && DeliveryOf(c, s.deliveries[d].raw, a) == Delivery(ContentRef(c.digest(s.deliveries[d].raw), |s.deliveries[d].raw|), a.sender, a.recipients, a.receivedAt)
  {
  }

  /** A sweep works through its listing one task at a time: only unlinking removes a file,
      that of the first task, and only acknowledging touches the queue, its row. */
  lemma SweepsProceed(c: Config, s: State, w: nat, a: SweepStep)
    requires SweepEnabled(c, s, w, a)
    ensures var t := SweepNext(c, s, w, a);
            && OtherSweepsKept(s, t, w)
            && t.deliveries == s.deliveries && t.delivered == s.delivered && t.acked == s.acked
            && t.withdrawn == s.withdrawn && t.events == s.events
            && t.db.inboxes == s.db.inboxes && t.db.contents == s.db.contents && t.db.messages == s.db.messages
            && (!a.Ack? ==> t.db.queue == s.db.queue)
            && (!a.Unlink? ==> t.objects == s.objects && t.leftovers == s.leftovers)
    ensures var t := SweepNext(c, s, w, a);
            match a
            case List(page) => w in t.sweeps && |t.sweeps[w].tasks| == |page| && t.sweeps[w].stage == Waiting
            case Lock => At(t, w, Locked) && t.sweeps[w].tasks == s.sweeps[w].tasks
            case Check => (if s.sweeps[w].tasks[0].key in s.db.contents then At(t, w, Handled) else At(t, w, Doomed)) && t.sweeps[w].tasks == s.sweeps[w].tasks
            case Unlink(synced) =>
              && t.objects == s.objects - {s.sweeps[w].tasks[0].key}
              && (if synced then At(t, w, Handled) && t.sweeps[w].tasks == s.sweeps[w].tasks else t.sweeps[w] == Sweep(Waiting, s.sweeps[w].tasks[1..]))
            case Skip => t.sweeps[w] == Sweep(Waiting, s.sweeps[w].tasks[1..])
            case Ack =>
              && t.sweeps[w] == Sweep(Waiting, s.sweeps[w].tasks[1..])
              && (forall k | k != s.sweeps[w].tasks[0].key :: (k in t.db.queue <==> k in s.db.queue) && (k in s.db.queue ==> t.db.queue[k] == s.db.queue[k]))
            case End => w !in t.sweeps && s.sweeps[w].tasks == []
  {
  }

  /** A crash can come at any time, and loses the process and nothing else. */
  lemma CrashesLoseOnlyTheProcess(c: Config, s: State)
    ensures Enabled(c, s, Crash) && Next(c, s, Crash) == Crashed(c, s)
    ensures var t := Crashed(c, s);
            && t.db == s.db && t.objects == s.objects && t.deliveries == map[] && t.sweeps == map[]
            && t.delivered == s.delivered && t.acked == s.acked && t.withdrawn == s.withdrawn && t.events == s.events
  {
  }

  ghost predicate LeavesObject(c: Config, p: Phase, k: Key) {
    p.Installed? && c.digest(p.raw) == k
  }

  /** A key becomes a leftover only when a delivery ends, or crashes, between installing its
      object and committing, and stops being one only by being committed or removed. */
  lemma LeftoversAreFailedPuts(c: Config, s: State, a: Action, k: Key)
    requires Enabled(c, s, a)
    ensures var t := Next(c, s, a);
            && (k in t.leftovers && k !in s.leftovers ==>
                  || (a.Deliver? && a.delivery == Abandon && LeavesObject(c, s.deliveries[a.d], k))
                  || (a == Crash && exists d | d in s.deliveries :: LeavesObject(c, s.deliveries[d], k)))
            && (k in s.leftovers && k !in t.leftovers ==>
                  || (a.Deliver? && a.delivery.CommitRows? && k in t.db.contents)
                  || ((a.Retain? || a.Repair?) && k !in t.objects))
            && (a.Deliver? && a.delivery.CommitRows? ==> c.digest(s.deliveries[a.d].raw) !in t.leftovers)
            && (k in s.objects && k !in t.objects ==> k !in t.leftovers)
  {
    match a
    case Retain(w, step) => SweepsProceed(c, s, w, step);
    case _ =>
  }
}
