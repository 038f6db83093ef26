/** Acknowledged mail keeps its bytes, in every run whose deliveries do not collide. */
module LifecycleBytes {
  import opened Common
  import opened Database
  import opened Lifecycle
  import opened LifecycleSafety

  /** Some delivery among the first n actions began with these bytes. */
  ghost predicate Begun(actions: seq<Action>, n: nat, raw: Raw) {
    exists i | 0 <= i < n && i < |actions| :: actions[i].Deliver? && actions[i].delivery == Begin(raw)
  }

  /** Everything in flight, stored or remembered came in with a delivery. */
  ghost predicate Sourced(actions: seq<Action>, n: nat, s: State) {
    && (forall d | d in s.deliveries :: Begun(actions, n, s.deliveries[d].raw))
    && (forall k | k in s.objects :: Begun(actions, n, s.objects[k]))
    && (forall m | m in s.delivered :: Begun(actions, n, s.delivered[m]))
  }

  /** Some delivery in flight carries these bytes. */
  predicate Carried(s: State, raw: Raw) {
    exists d | d in s.deliveries :: s.deliveries[d].raw == raw
  }

  /** A step brings in no bytes but those a delivery begins with. */
  ghost predicate BringsOnly(s: State, t: State, brought: set<Raw>) {
    && (forall d | d in t.deliveries :: t.deliveries[d].raw in brought || Carried(s, t.deliveries[d].raw))
    && (forall k | k in t.objects :: (k in s.objects && t.objects[k] == s.objects[k]) || Carried(s, t.objects[k]))
    && (forall m | m in t.delivered :: (m in s.delivered && t.delivered[m] == s.delivered[m]) || Carried(s, t.delivered[m]))
  }

  function Brought(a: Action): set<Raw> {
    if a.Deliver? && a.delivery.Begin? then {a.delivery.raw} else {}
  }

  lemma DeliverBrings(c: Config, s: State, d: nat, a: DeliveryStep)
    requires DeliverEnabled(c, s, d, a)
    ensures BringsOnly(s, DeliverNext(c, s, d, a), if a.Begin? then {a.raw} else {})
  {
  }

  lemma SweepBrings(c: Config, s: State, w: nat, a: SweepStep)
    requires SweepEnabled(c, s, w, a)
    ensures BringsOnly(s, SweepNext(c, s, w, a), {})
  {
  }

  lemma StepBrings(c: Config, s: State, a: Action)
    requires Enabled(c, s, a)
    ensures BringsOnly(s, Next(c, s, a), Brought(a))
  {
    match a
    case Deliver(d, step) => DeliverBrings(c, s, d, step);
    case Retain(w, step) => SweepBrings(c, s, w, step);
    case _ =>
  }

  lemma BegunLater(actions: seq<Action>, n: nat, raw: Raw)
    requires Begun(actions, n, raw)
    ensures Begun(actions, n + 1, raw)
  {
  }

  lemma SourcedStep(actions: seq<Action>, n: nat, s: State, t: State)
    requires n < |actions| && Sourced(actions, n, s)
    requires BringsOnly(s, t, Brought(actions[n]))
    ensures Sourced(actions, n + 1, t)
  {
    forall raw | Begun(actions, n, raw) ensures Begun(actions, n + 1, raw) { BegunLater(actions, n, raw); }
    if actions[n].Deliver? && actions[n].delivery.Begin? {
      assert Begun(actions, n + 1, actions[n].delivery.raw);
    }
  }

  lemma {:induction false} RunsAreSourced(c: Config, states: seq<State>, actions: seq<Action>, n: nat)
    requires Run(c, states, actions) && n < |states|
    ensures Sourced(actions, n, states[n])
  {
    if n > 0 {
      RunsAreSourced(c, states, actions, n - 1);
      StepBrings(c, states[n - 1], actions[n - 1]);
      SourcedStep(actions, n - 1, states[n - 1], states[n]);
    }
  }

  /** No two of the byte strings that deliveries began with share a digest. */
  ghost predicate NoCollision(c: Config, actions: seq<Action>) {
    forall x, y | Begun(actions, |actions|, x) && Begun(actions, |actions|, y) && c.digest(x) == c.digest(y) :: x == y
  }

  lemma BegunByTheEnd(actions: seq<Action>, n: nat, raw: Raw)
    requires Begun(actions, n, raw)
    ensures Begun(actions, |actions|, raw)
  {
  }

  /** Mail answered with 250 can be read back byte for byte from its message row's
      object until that message is deleted or expires, in every run whose deliveries
      do not collide. */
  lemma AcknowledgedMailKeepsItsBytes(c: Config, states: seq<State>, actions: seq<Action>, n: nat, m: MessageId)
    requires Run(c, states, actions) && n < |states| && NoCollision(c, actions)
    requires m in states[n].acked
    ensures m in states[n].delivered
    ensures m !in states[n].withdrawn ==>
              exists r | r in states[n].db.messages ::
                && r.id == m && r.key in states[n].objects
                && states[n].objects[r.key] == states[n].delivered[m]
  {
    RunsAreSafe(c, states, actions, n);
    RunsAreSourced(c, states, actions, n);
    var s := states[n];
    if m !in s.withdrawn {
      var r :| r in s.db.messages && r.id == m;
      assert r.key in s.objects && c.digest(s.objects[r.key]) == c.digest(s.delivered[m]);
      BegunByTheEnd(actions, n, s.objects[r.key]);
      BegunByTheEnd(actions, n, s.delivered[m]);
    }
  }
}
