/** Garbage accounting of the content lifecycle: with one sweep at a time no
    stored object is ever forgotten; with two, a stale acknowledgement can lose one. */
module LifecycleAccounting {
  import opened Database
  import opened Lifecycle
  import opened LifecycleSafety

  ghost predicate InFlight(c: Config, s: State, k: Key) {
    exists d | d in s.deliveries :: s.deliveries[d].Installed? && c.digest(s.deliveries[d].raw) == k
  }

  /** Accounted for without a deletion task: referenced, leased, or left by a failed put. */
  ghost predicate Owned(c: Config, s: State, k: Key) {
    k in s.db.contents || k in s.leftovers || InFlight(c, s, k)
  }

  ghost predicate NothingForgotten(c: Config, s: State) {
    forall k | k in s.objects :: Owned(c, s, k) || k in s.db.queue
  }

  /** A listed task is still queued, and its row's generation has grown by exactly
      the orphanings of that content since the listing. */
  predicate Tracks(s: State, task: Snapshot) {
    && task.key in s.db.queue
    && task.generation <= s.db.queue[task.key].generation
    && s.db.queue[task.key].generation - task.generation == Event(s, task.key) - task.event
  }

  ghost predicate ListingSound(s: State) {
    && (forall v, w | v in s.sweeps && w in s.sweeps :: v == w)
    && (forall w | w in s.sweeps :: forall i | 0 <= i < |s.sweeps[w].tasks| :: Tracks(s, s.sweeps[w].tasks[i]))
    && (forall w | w in s.sweeps ::
          forall i, j | 0 <= i < j < |s.sweeps[w].tasks| :: s.sweeps[w].tasks[i].key != s.sweeps[w].tasks[j].key)
  }

  /** Before acknowledging: unless the content was orphaned again, its object is
      gone or has another owner. */
  ghost predicate SafeToAck(c: Config, s: State) {
    forall w | At(s, w, Handled) ::
      var task := s.sweeps[w].tasks[0];
      task.key in s.db.queue && s.db.queue[task.key].generation == task.generation ==>
        task.key !in s.objects || Owned(c, s, task.key)
  }

  ghost predicate Tidy(c: Config, s: State) {
    NothingForgotten(c, s) && ListingSound(s) && SafeToAck(c, s)
  }

  /** Ownership only grows, the queue keeps its rows: what deliveries do. */
  lemma TidyFrame(c: Config, s: State, t: State)
    requires Tidy(c, s)
    requires t.db.queue == s.db.queue && t.sweeps == s.sweeps && t.events == s.events
    requires forall k | Owned(c, s, k) :: Owned(c, t, k)
    requires forall k | k in t.objects :: k in s.objects || Owned(c, t, k)
    ensures Tidy(c, t)
  {
  }

  lemma DeliverOwns(c: Config, s: State, d: nat, a: DeliveryStep, k: Key)
    requires DeliverEnabled(c, s, d, a) && Owned(c, s, k)
    ensures Owned(c, DeliverNext(c, s, d, a), k)
  {
    var t := DeliverNext(c, s, d, a);
    if k in s.db.contents || k in s.leftovers {
    } else {
      var e :| e in s.deliveries && s.deliveries[e].Installed? && c.digest(s.deliveries[e].raw) == k;
      if e != d {
        assert t.deliveries[e] == s.deliveries[e];
      }
    }
  }

  lemma DeliverKeepsTidy(c: Config, s: State, d: nat, a: DeliveryStep)
    requires Tidy(c, s) && DeliverEnabled(c, s, d, a)
    ensures Tidy(c, DeliverNext(c, s, d, a))
  {
    var t := DeliverNext(c, s, d, a);
    forall k | Owned(c, s, k) ensures Owned(c, t, k) { DeliverOwns(c, s, d, a, k); }
    forall k | k in t.objects ensures k in s.objects || Owned(c, t, k) {
      if k !in s.objects {
        assert a.Install? && t.deliveries[d].Installed?;
      }
    }
    TidyFrame(c, s, t);
  }

  /** Withdrawing changes ownership of orphans only, and numbers exactly those. */
  lemma WithdrawnOwns(c: Config, s: State, inboxes: set<InboxId>, ids: set<MessageId>, k: Key)
    ensures var t := Withdrawn(s, inboxes, ids);
            var gone := Orphans(s.db, inboxes, ids);
            && (Owned(c, s, k) && k !in gone ==> Owned(c, t, k))
            && (Owned(c, t, k) ==> Owned(c, s, k))
            && (k in gone ==> Event(t, k) == Event(s, k) + 1 && k in t.db.queue
                              && t.db.queue[k].generation == (if k in s.db.queue then s.db.queue[k].generation else 0) + 1)
            && (k !in gone ==> Event(t, k) == Event(s, k)
                               && (k in t.db.queue <==> k in s.db.queue)
                               && (k in s.db.queue ==> t.db.queue[k] == s.db.queue[k]))
  {
  }

  lemma WithdrawnTracks(c: Config, s: State, inboxes: set<InboxId>, ids: set<MessageId>, task: Snapshot)
    requires Tracks(s, task)
    ensures Tracks(Withdrawn(s, inboxes, ids), task)
  {
  }

  lemma WithdrawnKeepsTidy(c: Config, s: State, inboxes: set<InboxId>, ids: set<MessageId>)
    requires Tidy(c, s)
    ensures Tidy(c, Withdrawn(s, inboxes, ids))
  {
    var t := Withdrawn(s, inboxes, ids);
    forall task | Tracks(s, task) ensures Tracks(t, task) { WithdrawnTracks(c, s, inboxes, ids, task); }
    forall k | k in t.objects ensures Owned(c, t, k) || k in t.db.queue { WithdrawnOwns(c, s, inboxes, ids, k); }
    forall w | At(t, w, Handled)
      ensures var task := t.sweeps[w].tasks[0];
              task.key in t.db.queue && t.db.queue[task.key].generation == task.generation ==>
                task.key !in t.objects || Owned(c, t, task.key)
    {
      assert At(s, w, Handled);
      assert Tracks(s, s.sweeps[w].tasks[0]);
      WithdrawnOwns(c, s, inboxes, ids, s.sweeps[w].tasks[0].key);
    }
  }

  /** The reference check finds an owner, or dooms the object. */
  lemma CheckKeepsTidy(c: Config, s: State, w: nat, a: SweepStep)
    requires Tidy(c, s) && SweepEnabled(c, s, w, a) && (a.Lock? || a.Check?)
    ensures Tidy(c, SweepNext(c, s, w, a))
  {
    var t := SweepNext(c, s, w, a);
    assert t.db == s.db && t.objects == s.objects && t.leftovers == s.leftovers && t.deliveries == s.deliveries;
    forall k ensures Owned(c, s, k) == Owned(c, t, k) {
      assert InFlight(c, t, k) <==> InFlight(c, s, k);
    }
    assert forall task | Tracks(s, task) :: Tracks(t, task);
    assert t.sweeps[w].tasks == s.sweeps[w].tasks;
    assert forall v | v in t.sweeps :: v == w;
  }

  lemma UnlinkKeepsTidy(c: Config, s: State, w: nat)
    requires Tidy(c, s) && At(s, w, Doomed)
    ensures Tidy(c, SweepNext(c, s, w, Unlink(true)))
  {
    var t := SweepNext(c, s, w, Unlink(true));
    assert t.db == s.db && t.deliveries == s.deliveries;
    forall k | k in t.objects && Owned(c, s, k) ensures Owned(c, t, k) {
      assert InFlight(c, t, k) <==> InFlight(c, s, k);
    }
    assert forall task | Tracks(s, task) :: Tracks(t, task);
    assert t.sweeps[w].tasks == s.sweeps[w].tasks;
    assert forall v | v in t.sweeps :: v == w;
  }

  lemma ListKeepsTidy(c: Config, s: State, w: nat, page: seq<Key>)
    requires c.exclusive && Tidy(c, s) && SweepEnabled(c, s, w, List(page))
    ensures Tidy(c, SweepNext(c, s, w, List(page)))
  {
  }

  /** Moving on with `row` possibly acknowledged away: `k` is the first task's key. */
  lemma AdvanceKeepsTidy(c: Config, s: State, w: nat, acknowledge: bool)
    requires Tidy(c, s) && w in s.sweeps && s.sweeps[w].tasks != []
    requires acknowledge ==> At(s, w, Handled)
    ensures var task := s.sweeps[w].tasks[0];
            Tidy(c, Advanced(s, w).(db := if acknowledge then Acknowledge(s.db, task.key, task.generation) else s.db))
  {
    var task := s.sweeps[w].tasks[0];
    var t := Advanced(s, w).(db := if acknowledge then Acknowledge(s.db, task.key, task.generation) else s.db);
    assert forall v | v in t.sweeps :: v == w;
    forall k | Owned(c, s, k) ensures Owned(c, t, k) {
      assert InFlight(c, t, k) <==> InFlight(c, s, k);
    }
    forall i | 0 <= i < |t.sweeps[w].tasks| ensures Tracks(t, t.sweeps[w].tasks[i]) {
      assert t.sweeps[w].tasks[i] == s.sweeps[w].tasks[i + 1];
      assert Tracks(s, s.sweeps[w].tasks[i + 1]);
    }
  }

  lemma StepKeepsTidy(c: Config, s: State, a: Action)
    requires c.exclusive && Tidy(c, s) && Integrity(s.db) && Enabled(c, s, a)
    ensures Tidy(c, Next(c, s, a))
  {
    match a
    case CreateInbox(_, _) =>
      forall k | Owned(c, s, k) ensures Owned(c, Next(c, s, a), k) { assert InFlight(c, Next(c, s, a), k) <==> InFlight(c, s, k); }
      TidyFrame(c, s, Next(c, s, a));
    case Deliver(d, step) => DeliverKeepsTidy(c, s, d, step);
    case Remove(how) => WithdrawnKeepsTidy(c, s, Inboxes(how), Ids(how));
    case Retain(w, step) => SweepKeepsTidy(c, s, w, step);
    case Crash =>
    case Repair(key) =>
      forall k | Owned(c, s, k) && k != key ensures Owned(c, Next(c, s, a), k) { assert !InFlight(c, s, k); }
  }

  lemma SweepKeepsTidy(c: Config, s: State, w: nat, a: SweepStep)
    requires c.exclusive && Tidy(c, s) && SweepEnabled(c, s, w, a)
    ensures Tidy(c, SweepNext(c, s, w, a))
  {
    match a
    case List(page) => ListKeepsTidy(c, s, w, page);
    case Unlink(synced) =>
      var t := SweepNext(c, s, w, Unlink(true));
      UnlinkKeepsTidy(c, s, w);
      AdvanceKeepsTidy(c, t, w, false);
      assert !synced ==> SweepNext(c, s, w, a) == Advanced(t, w).(db := t.db);
    case Skip => AdvanceKeepsTidy(c, s, w, false);
    case Ack => AdvanceKeepsTidy(c, s, w, true);
    case End =>
      forall k | Owned(c, s, k) ensures Owned(c, SweepNext(c, s, w, a), k) {
        assert InFlight(c, SweepNext(c, s, w, a), k) <==> InFlight(c, s, k);
      }
    case _ => CheckKeepsTidy(c, s, w, a);
  }

  lemma {:induction false} RunsAreTidy(c: Config, states: seq<State>, actions: seq<Action>, n: nat)
    requires c.exclusive && Run(c, states, actions) && n < |states|
    ensures Tidy(c, states[n])
  {
    if n > 0 {
      RunsAreTidy(c, states, actions, n - 1);
      RunsAreSafe(c, states, actions, n - 1);
      StepKeepsTidy(c, states[n - 1], actions[n - 1]);
    }
  }

  /** With one sweep at a time, in every run, every stored object is referenced by
      a content row, leased by an in-flight delivery, queued for deletion, or left
      by a put whose commit failed. */
  lemma NoObjectIsForgotten(c: Config, states: seq<State>, actions: seq<Action>, n: nat, k: Key)
    requires c.exclusive && Run(c, states, actions) && n < |states| && k in states[n].objects
    ensures || k in states[n].db.contents
            || InFlight(c, states[n], k)
            || k in states[n].db.queue
            || k in states[n].leftovers
  {
    RunsAreTidy(c, states, actions, n);
  }

  /** An acknowledgement removes the queue row exactly when the content has not
      been orphaned again since the sweep listed it, however often it was
      re-delivered and re-deleted in between. */
  lemma AcknowledgementIsExact(c: Config, states: seq<State>, actions: seq<Action>, n: nat, w: nat)
    requires c.exclusive && Run(c, states, actions) && n < |states| && At(states[n], w, Handled)
    ensures var s := states[n];
            var task := s.sweeps[w].tasks[0];
            var after := SweepNext(c, s, w, Ack).db;
            && task.key in s.db.queue
            && (task.key !in after.queue <==> Event(s, task.key) == task.event)
            && (task.key in after.queue ==> after == s.db)
            && (task.key !in after.queue ==> task.key !in s.objects || Owned(c, s, task.key))
  {
    RunsAreTidy(c, states, actions, n);
    assert Tracks(states[n], states[n].sweeps[w].tasks[0]);
  }
}
