/** Why the retention sweep must be exclusive: generations restart at 1 once a
    task is acknowledged, so a second sweep holding an old listing can acknowledge
    a newer task away. */
module LifecycleTwoSweeps {
  import opened Common
  import opened Database
  import opened Lifecycle
  import opened LifecycleAccounting
  import ContentKey

  ghost predicate Leads(c: Config, s: State, actions: seq<Action>, t: State)
    decreases |actions|
  {
    if actions == [] then s == t
    else Enabled(c, s, actions[0]) && Leads(c, Next(c, s, actions[0]), actions[1..], t)
  }

  ghost predicate Reachable(c: Config, t: State) {
    exists actions :: Leads(c, INITIAL, actions, t)
  }

  lemma {:induction false} LeadsOn(c: Config, s: State, actions: seq<Action>, t: State, a: Action)
    requires Leads(c, s, actions, t) && Enabled(c, t, a)
    ensures Leads(c, s, actions + [a], Next(c, t, a))
    decreases |actions|
  {
    if actions == [] {
      assert (actions + [a])[1..] == [];
    } else {
      LeadsOn(c, Next(c, s, actions[0]), actions[1..], t, a);
      assert (actions + [a])[1..] == actions[1..] + [a];
    }
  }

  lemma {:induction false} LeadsIsRun(c: Config, s: State, actions: seq<Action>, t: State) returns (states: seq<State>)
    requires Leads(c, s, actions, t)
    ensures |states| == |actions| + 1 && states[0] == s && states[|actions|] == t
    ensures forall i | 0 <= i < |actions| ::
              Enabled(c, states[i], actions[i]) && states[i + 1] == Next(c, states[i], actions[i])
    decreases |actions|
  {
    if actions == [] {
      states := [s];
    } else {
      var rest := LeadsIsRun(c, Next(c, s, actions[0]), actions[1..], t);
      states := [s] + rest;
    }
  }

  lemma Step(c: Config, s: State, a: Action)
    requires Reachable(c, s) && Enabled(c, s, a)
    ensures Reachable(c, Next(c, s, a))
  {
    var actions :| Leads(c, INITIAL, actions, s);
    LeadsOn(c, INITIAL, actions, s, a);
  }

  /** One live Inbox (number 0, expiring at time 1), no mail, nothing in flight. */
  ghost predicate Quiet(s: State) {
    && s.db.inboxes == map[0 := Inbox(true, 1)] && s.db.contents == map[] && s.db.messages == []
    && s.deliveries == map[] && s.leftovers == {} && !WriteLocked(s)
  }

  ghost predicate Fits(c: Config, raw: Raw) {
    ContentKey.Valid(c.digest(raw)) && c.limits.maxMessages >= 1 && c.limits.maxBytes >= |raw|
  }

  function CommitStep(m: MessageId): DeliveryStep { CommitRows("", [0], 0, 0, [m]) }

  lemma CommitWhenQuiet(c: Config, db: Db, raw: Raw, m: MessageId)
    requires Fits(c, raw)
    requires db.inboxes == map[0 := Inbox(true, 1)] && db.contents == map[] && db.messages == []
    ensures Commit(db, c.limits, DeliveryOf(c, raw, CommitStep(m)), 0, [m])
         == Ok(db.(contents := map[c.digest(raw) := |raw|],
                   messages := [MessageRow(m, 0, c.digest(raw), "", 0)]))
  {
    var d := DeliveryOf(c, raw, CommitStep(m));
    assert Live(db, 0, 0) && ValidDelivery(d);
    assert QuotaError(db, c.limits, [], |raw|) == Ok(());
    assert d.recipients[1..] == [];
    assert QuotaError(db, c.limits, d.recipients, |raw|) == Ok(());
    assert NewRows(d, [m]) == [MessageRow(m, 0, c.digest(raw), "", 0)];
    assert db.messages + NewRows(d, [m]) == [MessageRow(m, 0, c.digest(raw), "", 0)];
  }

  /** Lease and install `raw`. */
  lemma Stored(c: Config, s: State, raw: Raw) returns (t: State)
    requires Reachable(c, s) && Quiet(s) && c.digest(raw) !in s.objects
    ensures Reachable(c, t)
    ensures t == s.(deliveries := map[0 := Installed(raw)], objects := s.objects[c.digest(raw) := raw])
  {
    Step(c, s, Deliver(0, Begin(raw)));
    var s1 := DeliverNext(c, s, 0, Begin(raw));
    assert s1 == s.(deliveries := map[0 := Storing(raw)]);
    Step(c, s1, Deliver(0, Install));
    t := DeliverNext(c, s1, 0, Install);
  }

  /** Commit the installed `raw` as message `m` and release. */
  lemma Delivered(c: Config, s: State, raw: Raw, m: MessageId) returns (t: State)
    requires Reachable(c, s) && Fits(c, raw) && m !in s.delivered
    requires s.db.inboxes == map[0 := Inbox(true, 1)] && s.db.contents == map[] && s.db.messages == []
    requires s.deliveries == map[0 := Installed(raw)] && s.leftovers == {}
    ensures Reachable(c, t) && t.sweeps == s.sweeps && t.deliveries == map[] && t.leftovers == {}
    ensures t.objects == s.objects && t.delivered.Keys == s.delivered.Keys + {m}
    ensures t.db == s.db.(contents := map[c.digest(raw) := |raw|],
                          messages := [MessageRow(m, 0, c.digest(raw), "", 0)])
  {
    RowsRecorded(c, s, raw, m);
    Step(c, s, Deliver(0, CommitStep(m)));
    var u := Recorded(c, s, 0, CommitStep(m));
    Step(c, u, Deliver(0, Finish));
    t := u.(deliveries := u.deliveries - {0}, acked := u.acked + set x | x in u.deliveries[0].ids);
  }

  lemma RowsRecorded(c: Config, s: State, raw: Raw, m: MessageId)
    requires Fits(c, raw) && m !in s.delivered
    requires s.db.inboxes == map[0 := Inbox(true, 1)] && s.db.contents == map[] && s.db.messages == []
    requires s.deliveries == map[0 := Installed(raw)] && s.leftovers == {}
    ensures CommitEnabled(c, s, 0, CommitStep(m))
    ensures var u := Recorded(c, s, 0, CommitStep(m));
            && u.sweeps == s.sweeps && u.objects == s.objects && u.leftovers == {}
            && u.deliveries == map[0 := Committed(raw, [m])]
            && u.delivered.Keys == s.delivered.Keys + {m}
            && u.db == s.db.(contents := map[c.digest(raw) := |raw|],
                             messages := [MessageRow(m, 0, c.digest(raw), "", 0)])
  {
    CommitWhenQuiet(c, s.db, raw, m);
  }

  /** Deliver `raw` as message `m`, then delete the message. */
  lemma DeliverThenDelete(c: Config, s: State, raw: Raw, m: MessageId) returns (t: State)
    requires Reachable(c, s) && Quiet(s) && Fits(c, raw) && m !in s.delivered
    requires c.digest(raw) !in s.objects
    ensures Reachable(c, t) && Quiet(t) && t.sweeps == s.sweeps
    ensures t.objects == s.objects[c.digest(raw) := raw]
    ensures t.db.queue == Enqueue(s.db.queue, c.digest(raw), |raw|)
    ensures t.delivered.Keys == s.delivered.Keys + {m}
  {
    var installed := Stored(c, s, raw);
    var u := Delivered(c, installed, raw, m);
    var row := MessageRow(m, 0, c.digest(raw), "", 0);
    DeleteOnly(u, row);
    assert row in u.db.messages;
    Step(c, u, Remove(DeleteMessage(0, m, 0)));
    t := Withdrawn(u, {}, {m});
  }

  lemma DeleteOnly(s: State, row: MessageRow)
    requires s.db.messages == [row] && s.db.contents.Keys == {row.key}
    ensures var t := Withdrawn(s, {}, {row.id});
            && t.db == s.db.(contents := map[], messages := [],
                             queue := Enqueue(s.db.queue, row.key, s.db.contents[row.key]))
            && t.deliveries == s.deliveries && t.leftovers == s.leftovers && t.sweeps == s.sweeps
            && t.objects == s.objects && t.delivered == s.delivered
  {
    assert s.db.messages[1..] == [] && Keep([], {}, {row.id}) == [];
    assert row in s.db.messages && Dropped(row, {}, {row.id});
    assert Orphans(s.db, {}, {row.id}) == {row.key};
  }

  /** A sweep takes its only task through lock and check. */
  lemma DoomedTask(c: Config, s: State, w: nat, task: Snapshot) returns (t: State)
    requires Reachable(c, s) && Quiet(s) && w in s.sweeps && s.sweeps[w] == Sweep(Waiting, [task])
    ensures Reachable(c, t) && t == s.(sweeps := s.sweeps[w := Sweep(Doomed, [task])])
  {
    Step(c, s, Retain(w, Lock));
    var locked := Staged(s, w, Locked);
    Step(c, locked, Retain(w, Check));
    t := Staged(locked, w, Doomed);
  }

  /** ... and unlinks its object. */
  lemma Unlinked(c: Config, s: State, w: nat, task: Snapshot) returns (t: State)
    requires Reachable(c, s) && Quiet(s) && w in s.sweeps && s.sweeps[w] == Sweep(Waiting, [task])
    ensures Reachable(c, t) && Quiet(t)
    ensures t == s.(objects := s.objects - {task.key}, sweeps := s.sweeps[w := Sweep(Handled, [task])])
  {
    var doomed := DoomedTask(c, s, w, task);
    Step(c, doomed, Retain(w, Unlink(true)));
    t := WithoutObject(Staged(doomed, w, Handled), task.key);
  }

  /** Two sweeps list the same task; the first completes it, the second has done
      everything but acknowledge. */
  lemma StaleSweep(c: Config, raw: Raw) returns (s: State, task: Snapshot)
    requires !c.exclusive && Fits(c, raw)
    ensures Reachable(c, s) && Quiet(s) && s.delivered.Keys == {0}
    ensures task.key == c.digest(raw) && task.generation == 1 && At(s, 1, Handled) && s.sweeps[1].tasks == [task]
    ensures s.objects == map[] && s.db.queue == map[]
  {
    var k := c.digest(raw);
    assert Leads(c, INITIAL, [], INITIAL);
    Step(c, INITIAL, CreateInbox(0, 1));
    var s1 := DeliverThenDelete(c, Next(c, INITIAL, CreateInbox(0, 1)), raw, 0);
    task := Snapshot(k, 1, Event(s1, k));
    var s3 := ListedTwice(c, s1, task);
    var s4 := Unlinked(c, s3, 0, task);
    Step(c, s4, Retain(0, Ack));
    var s5 := SweepNext(c, s4, 0, Ack);
    s := Unlinked(c, s5, 1, task);
  }

  lemma ListedTwice(c: Config, s: State, task: Snapshot) returns (t: State)
    requires !c.exclusive && Reachable(c, s) && s.sweeps == map[]
    requires task.key in s.db.queue && task == Snapshot(task.key, s.db.queue[task.key].generation, Event(s, task.key))
    ensures Reachable(c, t)
    ensures t == s.(sweeps := map[0 := Sweep(Waiting, [task]), 1 := Sweep(Waiting, [task])])
  {
    Step(c, s, Retain(0, List([task.key])));
    var u := s.(sweeps := map[0 := Sweep(Waiting, [task])]);
    assert Listing(s, [task.key]) == [task];
    assert SweepNext(c, s, 0, List([task.key])) == u;
    Step(c, u, Retain(1, List([task.key])));
    assert Listing(u, [task.key]) == [task];
    t := SweepNext(c, u, 1, List([task.key]));
  }

  /** Without exclusion, whatever the digest and limits, a run of two sweeps ends
      with an object that nothing owns and no task will ever remove. */
  lemma TwoSweepsCanForget(c: Config, raw: Raw) returns (s: State)
    requires !c.exclusive && Fits(c, raw)
    ensures Reachable(c, s)
    ensures c.digest(raw) in s.objects && !Owned(c, s, c.digest(raw)) && c.digest(raw) !in s.db.queue
  {
    var stale, task := StaleSweep(c, raw);
    var t := DeliverThenDelete(c, stale, raw, 1);
    Step(c, t, Retain(1, Ack));
    s := SweepNext(c, t, 1, Ack);
  }

  /** Exclusion is exactly what garbage accounting needs. */
  lemma ExclusiveIffNothingForgotten(c: Config, raw: Raw)
    requires Fits(c, raw)
    ensures c.exclusive <==> forall s | Reachable(c, s) :: NothingForgotten(c, s)
  {
    if c.exclusive {
      forall s | Reachable(c, s) ensures NothingForgotten(c, s) {
        var actions :| Leads(c, INITIAL, actions, s);
        var states := LeadsIsRun(c, INITIAL, actions, s);
        RunsAreTidy(c, states, actions, |actions|);
      }
    } else {
      var s := TwoSweepsCanForget(c, raw);
      assert !NothingForgotten(c, s);
    }
  }
}
