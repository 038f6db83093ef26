/** The token bucket that limits Inbox creation, in exact arithmetic: times in
    seconds, tokens as rationals. */
module RateLimiter {
  datatype Bucket = Bucket(tokens: real, updated: real)

  /** `evicts` switches the periodic clean-up, for comparison. */
  datatype Config = Config(perMinute: int, burst: int, evicts: bool)

  /** Tokens that `seconds` bring: the rate is perMinute / 60. */
  function Gain(perMinute: int, seconds: real): real { seconds * (perMinute as real / 60.0) }

  function Capacity(c: Config): real { c.burst as real }

  datatype State = State(entries: map<string, Bucket>, calls: nat)
  datatype Call = Call(key: string, now: real)

  const START := State(map[], 0)
  const RETENTION: real := 600.0

  function Min(a: real, b: real): real { if a < b then a else b }

  /** Entries not touched for ten minutes go, every 1024th call. */
  function Survivors(entries: map<string, Bucket>, now: real): map<string, Bucket> {
    map k | k in entries && !(entries[k].updated < now - RETENTION) :: entries[k]
  }

  function Kept(c: Config, s: State, now: real): map<string, Bucket> {
    if c.evicts && (s.calls + 1) % 1024 == 0 then Survivors(s.entries, now) else s.entries
  }

  /** The key's bucket at `now`, refilled; a full one if there is none. */
  function Refilled(c: Config, entries: map<string, Bucket>, key: string, now: real): Bucket {
    if key in entries
    then Bucket(Min(Capacity(c), entries[key].tokens + Gain(c.perMinute, now - entries[key].updated)), now)
    else Bucket(Min(Capacity(c), Capacity(c) + Gain(c.perMinute, now - now)), now)
  }

  function Admits(c: Config, s: State, call: Call): bool {
    !(Refilled(c, Kept(c, s, call.now), call.key, call.now).tokens < 1.0)
  }

  function Next(c: Config, s: State, call: Call): State {
    var kept := Kept(c, s, call.now);
    var b := Refilled(c, kept, call.key, call.now);
    State(kept[call.key := if Admits(c, s, call) then b.(tokens := b.tokens - 1.0) else b], s.calls + 1)
  }

  class Limiter {
    const config: Config
    var entries: map<string, Bucket>
    var calls: nat

    constructor (perMinute: int, burst: int)
      ensures config == Config(perMinute, burst, true) && Current() == START
    {
      config := Config(perMinute, burst, true);
      entries, calls := map[], 0;
    }

    function Current(): State
      reads this
    {
      State(entries, calls)
    }

    /** The eviction loop over the table. */
    method Evict(now: real)
      modifies this`entries
      ensures entries == Survivors(old(entries), now)
    {
      var pending := entries.Keys;
      while pending != {}
        invariant pending <= old(entries).Keys
        invariant entries == map k | k in old(entries) && (k in pending || !(old(entries)[k].updated < now - RETENTION)) :: old(entries)[k]
        decreases pending
      {
        var k :| k in pending;
        if entries[k].updated < now - RETENTION { entries := entries - {k}; }
        pending := pending - {k};
      }
    }

    method Allow(key: string, now: real) returns (ok: bool)
      requires config.evicts
      modifies this
      ensures Current() == Next(config, old(Current()), Call(key, now))
      ensures ok == Admits(config, old(Current()), Call(key, now))
    {
      calls := calls + 1;
      if calls % 1024 == 0 { Evict(now); }
      var state := if key in entries then entries[key] else Bucket(Capacity(config), now);
      state := state.(tokens := Min(Capacity(config), state.tokens + Gain(config.perMinute, now - state.updated)));
      state := state.(updated := now);
      ok := !(state.tokens < 1.0);
      if ok { state := state.(tokens := state.tokens - 1.0); }
      entries := entries[key := state];
    }
  }

  lemma GainSum(perMinute: int, a: real, b: real)
    ensures Gain(perMinute, a) + Gain(perMinute, b) == Gain(perMinute, a + b)
  {
  }

  lemma GainNonNegative(perMinute: int, seconds: real)
    requires perMinute >= 0 && seconds >= 0.0
    ensures Gain(perMinute, seconds) >= 0.0
  {
  }

  lemma GainOfRetention(perMinute: int)
    ensures Gain(perMinute, RETENTION) == (10 * perMinute) as real
    ensures Gain(perMinute, 0.0) == 0.0
  {
  }

  // ----- runs ------------------------------------------------------------------------

  function After(c: Config, s: State, calls: seq<Call>): State {
    if calls == [] then s else Next(c, After(c, s, calls[..|calls| - 1]), calls[|calls| - 1])
  }

  /** Requests of `key` admitted over the calls. */
  function Admitted(c: Config, s: State, calls: seq<Call>, key: string): nat {
    if calls == [] then 0
    else
      var front, last := calls[..|calls| - 1], calls[|calls| - 1];
      Admitted(c, s, front, key) + if last.key == key && Admits(c, After(c, s, front), last) then 1 else 0
  }

  predicate Positive(c: Config) {
    c.perMinute >= 0 && c.burst >= 0
  }

  /** No call of the stretch evicts the key. */
  predicate Undisturbed(c: Config, s: State, calls: seq<Call>, key: string) {
    calls == [] ||
    (var front, last := calls[..|calls| - 1], calls[|calls| - 1];
     && Undisturbed(c, s, front, key)
     && (key in After(c, s, front).entries ==> key in Kept(c, After(c, s, front), last.now)))
  }

  /** Admissions so far, plus the tokens left, plus what time may still bring, never
      exceed a full bucket plus the refill since the first call. */
  lemma {:induction false} Potential(c: Config, s: State, calls: seq<Call>, key: string, horizon: real)
    requires Positive(c) && calls != [] && calls[0].key == key && Undisturbed(c, s, calls, key)
    ensures key in After(c, s, calls).entries
    ensures var b := After(c, s, calls).entries[key];
            Admitted(c, s, calls, key) as real + b.tokens + Gain(c.perMinute, horizon - b.updated)
              <= Capacity(c) + Gain(c.perMinute, horizon - calls[0].now)
  {
    var front, last := calls[..|calls| - 1], calls[|calls| - 1];
    if front == [] {
      assert After(c, s, front) == s && Admitted(c, s, front, key) == 0;
    } else {
      assert front[0] == calls[0];
      Potential(c, s, front, key, horizon);
      if last.key == key {
        Refill(c, After(c, s, front).entries[key], last.now, horizon);
      }
    }
  }

  /** Refilling never gains more than time brings. */
  lemma Refill(c: Config, b: Bucket, now: real, horizon: real)
    ensures Min(Capacity(c), b.tokens + Gain(c.perMinute, now - b.updated)) + Gain(c.perMinute, horizon - now)
         <= b.tokens + Gain(c.perMinute, horizon - b.updated)
  {
    GainSum(c.perMinute, now - b.updated, horizon - now);
  }

  /** In any stretch without eviction of the key, at most burst + rate x elapsed
      requests pass, even if timestamps arrive out of order under the lock. */
  lemma {:induction false} BucketBound(c: Config, s: State, calls: seq<Call>, key: string, horizon: real)
    requires Positive(c) && calls != [] && calls[0].key == key && Undisturbed(c, s, calls, key)
    requires forall i | 0 <= i < |calls| && calls[i].key == key :: calls[i].now <= horizon
    ensures Admitted(c, s, calls, key) as real <= Capacity(c) + Gain(c.perMinute, horizon - calls[0].now)
  {
    var front, last := calls[..|calls| - 1], calls[|calls| - 1];
    if last.key == key && Admits(c, After(c, s, front), last) {
      Potential(c, s, calls, key, horizon);
      var b := After(c, s, calls).entries[key];
      assert b.tokens >= 0.0 && b.updated == last.now;
      GainNonNegative(c.perMinute, horizon - b.updated);
    } else if front != [] {
      assert front[0] == calls[0];
      forall i | 0 <= i < |front| && front[i].key == key ensures front[i].now <= horizon {
        assert front[i] == calls[i];
      }
      BucketBound(c, s, front, key, horizon);
    } else {
      GainNonNegative(c.perMinute, horizon - calls[0].now);
      assert Admitted(c, s, front, key) == 0;
    }
  }

  // ----- eviction ----------------------------------------------------------------------

  predicate Ordered(calls: seq<Call>) {
    forall i, j | 0 <= i < j < |calls| :: calls[i].now <= calls[j].now
  }

  /** Ten minutes refill a whole bucket. */
  predicate RetentionSuffices(c: Config) {
    c.perMinute >= 0 && 0 <= c.burst <= 10 * c.perMinute
  }

  function Eager(c: Config): Config { c.(evicts := true) }
  function Patient(c: Config): Config { c.(evicts := false) }

  /** The limiter that evicts against the one that never does: same buckets, except
      for some the first has dropped that are due to be full. */
  ghost predicate Alike(c: Config, e: State, p: State, now: real) {
    && e.calls == p.calls
    && (forall k | k in e.entries :: k in p.entries && e.entries[k] == p.entries[k])
    && (forall k | k in p.entries :: 0.0 <= p.entries[k].tokens <= Capacity(c) && p.entries[k].updated <= now)
    && (forall k | k in p.entries && k !in e.entries :: p.entries[k].updated < now - RETENTION)
  }

  lemma FullAgain(c: Config, b: Bucket, now: real)
    requires RetentionSuffices(c) && b.tokens >= 0.0 && b.updated < now - RETENTION
    ensures Min(Capacity(c), b.tokens + Gain(c.perMinute, now - b.updated)) == Capacity(c)
  {
    GainSum(c.perMinute, RETENTION, now - b.updated - RETENTION);
    GainNonNegative(c.perMinute, now - b.updated - RETENTION);
    GainOfRetention(c.perMinute);
  }

  /** Both limiters see the same refilled bucket for the calling key. */
  lemma SameBucket(c: Config, e: State, p: State, before: real, call: Call)
    requires RetentionSuffices(c) && Alike(c, e, p, before) && before <= call.now
    ensures var b := Refilled(Patient(c), p.entries, call.key, call.now);
            && Refilled(Eager(c), Kept(Eager(c), e, call.now), call.key, call.now) == b
            && 0.0 <= b.tokens <= Capacity(c)
  {
    var kept := Kept(Eager(c), e, call.now);
    var k := call.key;
    GainOfRetention(c.perMinute);
    if k in p.entries {
      GainNonNegative(c.perMinute, call.now - p.entries[k].updated);
      if k !in kept {
        FullAgain(c, p.entries[k], call.now);
      }
    }
  }

  lemma KeptAlike(c: Config, e: State, p: State, before: real, now: real)
    requires Alike(c, e, p, before) && before <= now
    ensures Alike(c, e.(entries := Kept(Eager(c), e, now)), p, now)
  {
  }

  lemma AlikeStep(c: Config, e: State, p: State, before: real, call: Call)
    requires RetentionSuffices(c) && Alike(c, e, p, before) && before <= call.now
    ensures Admits(Eager(c), e, call) == Admits(Patient(c), p, call)
    ensures Alike(c, Next(Eager(c), e, call), Next(Patient(c), p, call), call.now)
  {
    SameBucket(c, e, p, before, call);
    KeptAlike(c, e, p, before, call.now);
  }

  /** With ordered timestamps, eviction is invisible: every request gets the answer
      it would get from a limiter that never forgets. */
  lemma {:induction false} EvictionIsInvisible(c: Config, calls: seq<Call>)
    requires RetentionSuffices(c) && Ordered(calls)
    ensures forall i | 0 <= i < |calls| ::
              Admits(Eager(c), After(Eager(c), START, calls[..i]), calls[i])
                == Admits(Patient(c), After(Patient(c), START, calls[..i]), calls[i])
    ensures calls != [] ==>
              Alike(c, After(Eager(c), START, calls), After(Patient(c), START, calls), calls[|calls| - 1].now)
  {
    if calls != [] {
      var n := |calls| - 1;
      var front, last := calls[..n], calls[n];
      EvictionIsInvisible(c, front);
      var e, p := After(Eager(c), START, front), After(Patient(c), START, front);
      var before := if n == 0 then last.now else front[n - 1].now;
      AlikeStep(c, e, p, before, last);
      forall i | 0 <= i < |calls|
        ensures Admits(Eager(c), After(Eager(c), START, calls[..i]), calls[i])
             == Admits(Patient(c), After(Patient(c), START, calls[..i]), calls[i])
      {
        if i < n {
          assert calls[..i] == front[..i] && calls[i] == front[i];
        }
      }
    }
  }

  /** The configuration rules (burst at most the rate per minute) imply it. */
  lemma ConfiguredRetentionSuffices(c: Config)
    requires 0 < c.perMinute <= 10000 && 0 < c.burst <= c.perMinute
    ensures RetentionSuffices(c)
  {
  }
}
