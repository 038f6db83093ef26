/** Safety of the content lifecycle over every run: committed rows keep their
    objects, acknowledged mail keeps its bytes, and quotas hold. */
module LifecycleSafety {
  import opened Common
  import opened Database
  import opened Quota
  import opened Lifecycle

  /** Object files carry the bytes they are named by, and every content row has
      its object at the recorded size. */
  ghost predicate Backed(c: Config, s: State) {
    && (forall k | k in s.objects :: c.digest(s.objects[k]) == k)
    && (forall k | k in s.db.contents :: k in s.objects && |s.objects[k]| == s.db.contents[k])
  }

  /** A leased, installed object stays in place until the lease is released. */
  ghost predicate LeasesHold(c: Config, s: State) {
    forall d | d in s.deliveries && s.deliveries[d].Installed? ::
      var raw := s.deliveries[d].raw;
      c.digest(raw) in s.objects && |s.objects[c.digest(raw)]| == |raw|
  }

  /** The write lock excludes every lease and every other holder, and a doomed
      object is still unreferenced. */
  ghost predicate Fenced(s: State) {
    && (WriteLocked(s) ==> s.deliveries == map[])
    && (forall v, w | v in s.sweeps && w in s.sweeps
          && s.sweeps[v].stage in {Locked, Doomed} && s.sweeps[w].stage in {Locked, Doomed} :: v == w)
    && (forall w | At(s, w, Doomed) :: s.sweeps[w].tasks[0].key !in s.db.contents)
  }

  /** Every message row remembers the bytes it was delivered with, and only
      withdrawing removes a delivered message. */
  ghost predicate Remembered(c: Config, s: State) {
    && (forall r | r in s.db.messages :: r.id in s.delivered && c.digest(s.delivered[r.id]) == r.key && r.id !in s.withdrawn)
    && (forall m | m in s.delivered && m !in s.withdrawn :: exists r | r in s.db.messages :: r.id == m)
    && s.acked <= s.delivered.Keys && s.withdrawn <= s.delivered.Keys
    && (forall d | d in s.deliveries && s.deliveries[d].Committed? ::
          forall m | m in s.deliveries[d].ids :: m in s.delivered)
  }

  ghost predicate Safe(c: Config, s: State) {
    Integrity(s.db) && Backed(c, s) && LeasesHold(c, s) && Fenced(s) && Remembered(c, s)
  }

  lemma WithdrawnKeepsSafe(c: Config, s: State, inboxes: set<InboxId>, ids: set<MessageId>)
    requires Safe(c, s)
    ensures Safe(c, Withdrawn(s, inboxes, ids))
  {
    WithdrawKeepsIntegrity(s.db, inboxes, ids);
    var t := Withdrawn(s, inboxes, ids);
    var dropped := set r | r in s.db.messages && Dropped(r, inboxes, ids) :: r.id;
    assert t.sweeps == s.sweeps && t.db.contents.Keys <= s.db.contents.Keys;
    assert Fenced(t) by {
      assert forall w :: At(t, w, Doomed) ==> At(s, w, Doomed);
    }
    forall r | r in t.db.messages ensures r.id !in dropped {
      assert r in s.db.messages && !Dropped(r, inboxes, ids);
    }
    forall m | m in t.delivered && m !in t.withdrawn ensures exists r | r in t.db.messages :: r.id == m {
      var r :| r in s.db.messages && r.id == m;
      assert Dropped(r, inboxes, ids) ==> r.id in dropped;
      assert r in t.db.messages;
    }
  }

  /** The rows a commit adds, in terms of the state before it. */
  lemma CommitFacts(c: Config, s: State, d: nat, a: DeliveryStep)
    requires a.CommitRows? && CommitEnabled(c, s, d, a) && Remembered(c, s)
    ensures var t := Recorded(c, s, d, a);
            var raw := s.deliveries[d].raw;
            && t.db.contents == s.db.contents[c.digest(raw) := |raw|]
            && (forall r | r in t.db.messages :: r in s.db.messages || (r.id in a.ids && r.key == c.digest(raw)))
            && (forall r | r in s.db.messages :: r in t.db.messages)
            && (forall m | m in a.ids :: exists r | r in t.db.messages :: r.id == m)
  {
    var t := Recorded(c, s, d, a);
    var dv := DeliveryOf(c, s.deliveries[d].raw, a);
    var rows := NewRows(dv, a.ids);
    NewRowsAreKeyed(dv, a.ids);
    assert t.db.messages == s.db.messages + rows;
    forall m | m in a.ids ensures exists r | r in t.db.messages :: r.id == m {
      var i :| 0 <= i < |a.ids| && a.ids[i] == m;
      assert rows[i] in t.db.messages;
    }
  }

  lemma CommitKeepsFiles(c: Config, s: State, d: nat, a: DeliveryStep)
    requires Safe(c, s) && a.CommitRows? && CommitEnabled(c, s, d, a)
    ensures var t := Recorded(c, s, d, a); Backed(c, t) && LeasesHold(c, t) && Fenced(t)
  {
    var t := Recorded(c, s, d, a);
    CommitFacts(c, s, d, a);
    assert s.deliveries != map[] && !WriteLocked(s);
    assert forall w | w in t.sweeps :: t.sweeps[w].stage !in {Locked, Doomed};
  }

  lemma CommitKeepsRemembered(c: Config, s: State, d: nat, a: DeliveryStep)
    requires Remembered(c, s) && a.CommitRows? && CommitEnabled(c, s, d, a)
    ensures Remembered(c, Recorded(c, s, d, a))
  {
    var t := Recorded(c, s, d, a);
    CommitFacts(c, s, d, a);
    forall m | m in t.delivered && m !in t.withdrawn ensures exists r | r in t.db.messages :: r.id == m {
      if m !in a.ids {
        var r :| r in s.db.messages && r.id == m;
        assert r in t.db.messages;
      }
    }
    assert forall e | e in t.deliveries && e != d :: t.deliveries[e] == s.deliveries[e];
  }

  lemma CommitKeepsSafe(c: Config, s: State, d: nat, a: DeliveryStep)
    requires Safe(c, s) && a.CommitRows? && CommitEnabled(c, s, d, a)
    ensures Safe(c, Recorded(c, s, d, a))
  {
    assert FreshIds(s.db, a.ids);
    CommitKeepsIntegrity(s.db, c.limits, DeliveryOf(c, s.deliveries[d].raw, a), a.now, a.ids);
    CommitKeepsFiles(c, s, d, a);
    CommitKeepsRemembered(c, s, d, a);
  }

  lemma DeliverKeepsFiles(c: Config, s: State, d: nat, a: DeliveryStep)
    requires Backed(c, s) && LeasesHold(c, s) && DeliverEnabled(c, s, d, a) && !a.CommitRows?
    ensures var t := DeliverNext(c, s, d, a); Backed(c, t) && LeasesHold(c, t)
  {
    var t := DeliverNext(c, s, d, a);
    assert t.db == s.db;
  }

  lemma DeliverKeepsFence(c: Config, s: State, d: nat, a: DeliveryStep)
    requires Fenced(s) && DeliverEnabled(c, s, d, a) && !a.CommitRows?
    ensures Fenced(DeliverNext(c, s, d, a))
  {
  }

  lemma DeliverKeepsRemembered(c: Config, s: State, d: nat, a: DeliveryStep)
    requires Remembered(c, s) && DeliverEnabled(c, s, d, a) && !a.CommitRows?
    ensures Remembered(c, DeliverNext(c, s, d, a))
  {
  }

  lemma DeliverKeepsSafe(c: Config, s: State, d: nat, a: DeliveryStep)
    requires Safe(c, s) && DeliverEnabled(c, s, d, a)
    ensures Safe(c, DeliverNext(c, s, d, a))
  {
    if a.CommitRows? {
      CommitKeepsSafe(c, s, d, a);
    } else {
      DeliverKeepsFiles(c, s, d, a);
      DeliverKeepsFence(c, s, d, a);
      DeliverKeepsRemembered(c, s, d, a);
    }
  }

  /** Sweep steps: only Unlink touches a file, and only one that is unreferenced
      while the write lock keeps every delivery out. */
  lemma UnlinkKeepsFiles(c: Config, s: State, w: nat, synced: bool)
    requires Safe(c, s) && At(s, w, Doomed)
    ensures var t := SweepNext(c, s, w, Unlink(synced)); Backed(c, t) && LeasesHold(c, t)
  {
  }

  predicate Holding(s: State, w: nat) {
    w in s.sweeps && (s.sweeps[w].stage.Locked? || s.sweeps[w].stage.Doomed?)
  }

  /** Only sweep `w` changed; if it holds the lock now, it took it fairly. */
  lemma FenceFrame(s: State, t: State, w: nat)
    requires Fenced(s)
    requires t.deliveries == s.deliveries && t.db.contents == s.db.contents
    requires forall v | v in t.sweeps && v != w :: v in s.sweeps && t.sweeps[v] == s.sweeps[v]
    requires Holding(t, w) ==> s.deliveries == map[] && (Holding(s, w) || !WriteLocked(s))
    requires At(t, w, Doomed) ==> t.sweeps[w].tasks[0].key !in s.db.contents
    ensures Fenced(t)
  {
  }

  lemma SweepKeepsFence(c: Config, s: State, w: nat, a: SweepStep)
    requires Fenced(s) && SweepEnabled(c, s, w, a)
    ensures Fenced(SweepNext(c, s, w, a))
  {
    var t := SweepNext(c, s, w, a);
    match a
    case Check =>
      assert Holding(s, w);
      FenceFrame(s, t, w);
    case _ => FenceFrame(s, t, w);
  }

  lemma SweepKeepsSafe(c: Config, s: State, w: nat, a: SweepStep)
    requires Safe(c, s) && SweepEnabled(c, s, w, a)
    ensures Safe(c, SweepNext(c, s, w, a))
  {
    SweepKeepsFence(c, s, w, a);
    if a.Unlink? {
      UnlinkKeepsFiles(c, s, w, a.synced);
    }
  }

  lemma CrashKeepsSafe(c: Config, s: State)
    requires Safe(c, s)
    ensures Safe(c, Crashed(c, s))
  {
  }

  lemma RepairKeepsSafe(c: Config, s: State, key: Key)
    requires Safe(c, s) && Enabled(c, s, Repair(key))
    ensures Safe(c, WithoutObject(s, key))
  {
  }

  lemma CreateKeepsSafe(c: Config, s: State, a: Action)
    requires Safe(c, s) && a.CreateInbox? && Enabled(c, s, a)
    ensures Safe(c, Next(c, s, a))
  {
    var t := Next(c, s, a);
    assert t.db.messages == s.db.messages && t.db.contents == s.db.contents && t.db.queue == s.db.queue;
    assert t.sweeps == s.sweeps && t.deliveries == s.deliveries;
  }

  /** Every step of the service keeps the safety invariant. */
  lemma StepKeepsSafe(c: Config, s: State, a: Action)
    requires Safe(c, s) && Enabled(c, s, a)
    ensures Safe(c, Next(c, s, a))
  {
    match a
    case Deliver(d, step) => DeliverKeepsSafe(c, s, d, step);
    case Remove(how) => WithdrawnKeepsSafe(c, s, Inboxes(how), Ids(how));
    case Retain(w, step) => SweepKeepsSafe(c, s, w, step);
    case CreateInbox(_, _) => CreateKeepsSafe(c, s, a);
    case Crash => CrashKeepsSafe(c, s);
    case Repair(key) => RepairKeepsSafe(c, s, key);
  }

  lemma {:induction false} RunsAreSafe(c: Config, states: seq<State>, actions: seq<Action>, n: nat)
    requires Run(c, states, actions) && n < |states|
    ensures Safe(c, states[n])
  {
    if n > 0 {
      RunsAreSafe(c, states, actions, n - 1);
      StepKeepsSafe(c, states[n - 1], actions[n - 1]);
    }
  }

  /** In every interleaving, with any number of sweeps and crashes, every committed
      content row has its object in the store, under its digest and size. */
  lemma CommittedContentIsStored(c: Config, states: seq<State>, actions: seq<Action>, n: nat, k: Key)
    requires Run(c, states, actions) && n < |states|
    requires k in states[n].db.contents
    ensures k in states[n].objects
    ensures c.digest(states[n].objects[k]) == k && |states[n].objects[k]| == states[n].db.contents[k]
  {
    RunsAreSafe(c, states, actions, n);
  }

  /** The withdrawal names the message or its Inbox; an expiry only an expired Inbox. */
  ghost predicate Covers(db: Db, how: Withdrawal, r: MessageRow) {
    match how
    case DeleteMessage(inbox, id, _) => id == r.id && inbox == r.inbox
    case DeleteInbox(inbox, _) => inbox == r.inbox
    case Expire(batch, now) => r.inbox in batch && r.inbox in db.inboxes && db.inboxes[r.inbox].expiresAt <= now
  }

  lemma WithdrawnCovers(s: State, how: Withdrawal, r: MessageRow)
    requires RemoveEnabled(s, how) && Integrity(s.db)
    requires r in s.db.messages && Dropped(r, Inboxes(how), Ids(how))
    ensures Covers(s.db, how, r)
  {
  }

  lemma DeliverHistory(c: Config, s: State, d: nat, a: DeliveryStep)
    requires DeliverEnabled(c, s, d, a)
    ensures var t := DeliverNext(c, s, d, a);
            && t.withdrawn == s.withdrawn && s.acked <= t.acked
            && forall m | m in s.delivered :: m in t.delivered && t.delivered[m] == s.delivered[m]
  {
  }

  lemma SweepHistory(c: Config, s: State, w: nat, a: SweepStep)
    requires SweepEnabled(c, s, w, a)
    ensures var t := SweepNext(c, s, w, a);
            t.withdrawn == s.withdrawn && s.acked == t.acked && t.delivered == s.delivered
  {
  }

  /** A message is withdrawn by nothing but deleting it, deleting its Inbox, or its
      Inbox expiring; delivered bytes and acknowledgements are never forgotten. */
  lemma OnlyWithdrawingWithdraws(c: Config, s: State, a: Action, m: MessageId)
    requires Integrity(s.db) && Enabled(c, s, a) && m in s.delivered
    ensures m in Next(c, s, a).delivered && Next(c, s, a).delivered[m] == s.delivered[m]
    ensures m in s.acked ==> m in Next(c, s, a).acked
    ensures m in Next(c, s, a).withdrawn && m !in s.withdrawn ==>
              a.Remove? && exists r | r in s.db.messages :: r.id == m && Covers(s.db, a.how, r)
  {
    match a
    case Deliver(d, step) => DeliverHistory(c, s, d, step);
    case Retain(w, step) => SweepHistory(c, s, w, step);
    case Remove(how) =>
      if m in Next(c, s, a).withdrawn && m !in s.withdrawn {
        var r :| r in s.db.messages && r.id == m && Dropped(r, Inboxes(how), Ids(how));
        WithdrawnCovers(s, how, r);
      }
    case _ =>
  }

  lemma QuotaFrame(before: Db, after: Db, limits: Limits)
    requires WithinQuota(before, limits)
    requires after.messages == before.messages && after.contents == before.contents
    ensures WithinQuota(after, limits)
  {
  }

  lemma SweepKeepsRows(c: Config, s: State, w: nat, a: SweepStep)
    requires SweepEnabled(c, s, w, a)
    ensures SweepNext(c, s, w, a).db.messages == s.db.messages && SweepNext(c, s, w, a).db.contents == s.db.contents
  {
  }

  lemma StepKeepsQuota(c: Config, s: State, a: Action)
    requires Safe(c, s) && Enabled(c, s, a) && WithinQuota(s.db, c.limits)
    ensures WithinQuota(Next(c, s, a).db, c.limits)
  {
    var t := Next(c, s, a);
    if a.Deliver? && a.delivery.CommitRows? {
      CommitKeepsQuota(s.db, c.limits, DeliveryOf(c, s.deliveries[a.d].raw, a.delivery), a.delivery.now, a.delivery.ids);
    } else if a.Remove? {
      WithdrawKeepsQuota(s.db, c.limits, Inboxes(a.how), Ids(a.how));
    } else if a.Retain? {
      SweepKeepsRows(c, s, a.w, a.sweep);
      QuotaFrame(s.db, t.db, c.limits);
    } else {
      QuotaFrame(s.db, t.db, c.limits);
    }
  }

  /** Starting from nothing, no Inbox ever exceeds its limits. */
  lemma {:induction false} RunsStayWithinQuota(c: Config, states: seq<State>, actions: seq<Action>, n: nat)
    requires Run(c, states, actions) && n < |states|
    requires c.limits.maxMessages >= 0 && c.limits.maxBytes >= 0
    ensures WithinQuota(states[n].db, c.limits)
  {
    if n > 0 {
      RunsStayWithinQuota(c, states, actions, n - 1);
      RunsAreSafe(c, states, actions, n - 1);
      StepKeepsQuota(c, states[n - 1], actions[n - 1]);
    }
  }
}
