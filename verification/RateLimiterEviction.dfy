/** Exactly when the limiter's clean-up is invisible. */
module RateLimiterEviction {
  import opened RateLimiter

  /** Every request gets the answer a limiter that never forgets would give. */
  ghost predicate SameAnswers(c: Config, calls: seq<Call>) {
    forall i | 0 <= i < |calls| ::
      Admits(Eager(c), After(Eager(c), START, calls[..i]), calls[i])
        == Admits(Patient(c), After(Patient(c), START, calls[..i]), calls[i])
  }

  function Repeat(call: Call, n: nat): (calls: seq<Call>)
    ensures |calls| == n && forall i | 0 <= i < n :: calls[i] == call
  {
    seq(n, _ => call)
  }

  lemma RepeatSnoc(call: Call, n: nat)
    requires n > 0
    ensures Repeat(call, n)[..n - 1] == Repeat(call, n - 1)
  {
  }

  lemma {:induction false} Splits(c: Config, s: State, a: seq<Call>, b: seq<Call>, key: string)
    ensures After(c, s, a + b) == After(c, After(c, s, a), b)
    ensures Admitted(c, s, a + b, key) == Admitted(c, s, a, key) + Admitted(c, After(c, s, a), b, key)
    decreases |b|
  {
    if b == [] {
      assert a + b == a;
    } else {
      var n := |b| - 1;
      Splits(c, s, a, b[..n], key);
      assert (a + b)[..|a + b| - 1] == a + b[..n];
      assert (a + b)[|a + b| - 1] == b[n];
    }
  }

  // ----- a run that shows the clean-up ---------------------------------------------------

  /** The key has `tokens` left at time `now`, explicitly or by having no entry. */
  predicate Holds(c: Config, s: State, key: string, now: real, tokens: real) {
    if key in s.entries then s.entries[key] == Bucket(tokens, now) else tokens == Capacity(c)
  }

  lemma HoldsStep(c: Config, s: State, key: string, now: real, tokens: real)
    requires Holds(c, s, key, now, tokens) && 1.0 <= tokens <= Capacity(c)
    ensures Admits(c, s, Call(key, now))
    ensures Holds(c, Next(c, s, Call(key, now)), key, now, tokens - 1.0)
    ensures Next(c, s, Call(key, now)).calls == s.calls + 1
  {
  }

  /** A full bucket admits a whole burst at one instant. */
  lemma {:induction false} Drain(c: Config, s: State, key: string, now: real, n: nat)
    requires Holds(c, s, key, now, Capacity(c)) && n <= c.burst
    ensures var t := After(c, s, Repeat(Call(key, now), n));
            Holds(c, t, key, now, Capacity(c) - n as real) && t.calls == s.calls + n
    ensures Admitted(c, s, Repeat(Call(key, now), n), key) == n
  {
    if n > 0 {
      Drain(c, s, key, now, n - 1);
      RepeatSnoc(Call(key, now), n);
      HoldsStep(c, After(c, s, Repeat(Call(key, now), n - 1)), key, now, Capacity(c) - (n - 1) as real);
    }
  }

  /** Calls of another key leave the bucket of `key` as it was, or drop it. */
  lemma {:induction false} OthersOnly(c: Config, s: State, key: string, other: Call, n: nat)
    requires other.key != key
    ensures var t := After(c, s, Repeat(other, n));
            && t.calls == s.calls + n
            && (key in t.entries ==> key in s.entries && t.entries[key] == s.entries[key])
    ensures Admitted(c, s, Repeat(other, n), key) == 0
  {
    if n > 0 {
      OthersOnly(c, s, key, other, n - 1);
      RepeatSnoc(other, n);
    }
  }

  /** If the last of them is a clean-up call, an old bucket is gone. */
  lemma Forgotten(c: Config, s: State, key: string, other: Call, n: nat)
    requires c.evicts && other.key != key && n > 0 && (s.calls + n) % 1024 == 0
    requires key in s.entries ==> s.entries[key].updated < other.now - RETENTION
    ensures key !in After(c, s, Repeat(other, n)).entries
    ensures Admitted(c, s, Repeat(other, n), key) == 0
  {
    OthersOnly(c, s, key, other, n);
    OthersOnly(c, s, key, other, n - 1);
    RepeatSnoc(other, n);
  }

  const ONE := "a"
  const TWO := "b"

  function Fillers(c: Config): nat
    requires c.burst >= 0
  {
    1024 - c.burst % 1024
  }

  /** A burst, calls of another key until a clean-up, and the same burst again. */
  function Witness(c: Config, later: real): seq<Call>
    requires c.burst >= 0
  {
    Repeat(Call(ONE, 0.0), c.burst) + Repeat(Call(TWO, later), Fillers(c)) + Repeat(Call(ONE, later), c.burst)
  }

  lemma FillersReachCleanup(c: Config)
    requires c.burst > 0
    ensures Fillers(c) > 0 && (c.burst + Fillers(c)) % 1024 == 0
  {
  }

  /** The first burst passes, and the clean-up forgets it. */
  lemma FirstBurst(c: Config, later: real)
    requires c.evicts && c.burst > 0 && later > RETENTION
    ensures var calls := Repeat(Call(ONE, 0.0), c.burst) + Repeat(Call(TWO, later), Fillers(c));
            Admitted(c, START, calls, ONE) == c.burst && ONE !in After(c, START, calls).entries
  {
    var a, b := Repeat(Call(ONE, 0.0), c.burst), Repeat(Call(TWO, later), Fillers(c));
    Drain(c, START, ONE, 0.0, c.burst);
    FillersReachCleanup(c);
    Forgotten(c, After(c, START, a), ONE, Call(TWO, later), Fillers(c));
    Splits(c, START, a, b, ONE);
  }

  lemma EagerAdmitsTwice(c: Config, later: real)
    requires c.evicts && c.burst > 0 && later > RETENTION
    ensures Admitted(c, START, Witness(c, later), ONE) == 2 * c.burst
  {
    var before := Repeat(Call(ONE, 0.0), c.burst) + Repeat(Call(TWO, later), Fillers(c));
    FirstBurst(c, later);
    Drain(c, After(c, START, before), ONE, later, c.burst);
    Splits(c, START, before, Repeat(Call(ONE, later), c.burst), ONE);
  }

  lemma {:induction false} PatientIsUndisturbed(c: Config, s: State, calls: seq<Call>, key: string)
    requires !c.evicts
    ensures Undisturbed(c, s, calls, key)
  {
    if calls != [] { PatientIsUndisturbed(c, s, calls[..|calls| - 1], key); }
  }

  lemma {:induction false} SameCounts(c: Config, calls: seq<Call>, key: string)
    requires SameAnswers(c, calls)
    ensures Admitted(Eager(c), START, calls, key) == Admitted(Patient(c), START, calls, key)
  {
    if calls != [] {
      var n := |calls| - 1;
      forall i | 0 <= i < n
        ensures Admits(Eager(c), After(Eager(c), START, calls[..n][..i]), calls[..n][i])
             == Admits(Patient(c), After(Patient(c), START, calls[..n][..i]), calls[..n][i])
      {
        assert calls[..n][..i] == calls[..i] && calls[..n][i] == calls[i];
      }
      SameCounts(c, calls[..n], key);
    }
  }

  lemma WitnessTimes(c: Config, later: real)
    requires c.burst > 0 && later >= 0.0
    ensures Ordered(Witness(c, later)) && Witness(c, later)[0] == Call(ONE, 0.0)
    ensures forall i | 0 <= i < |Witness(c, later)| :: Witness(c, later)[i].now <= later
  {
  }

  /** Just past the retention period, and still short of a full refill. */
  function Later(c: Config): real
    requires c.perMinute >= 0
  {
    RETENTION + 30.0 / (c.perMinute + 1) as real
  }

  lemma Fraction(perMinute: int)
    requires perMinute >= 0
    ensures var e := 30.0 / (perMinute + 1) as real;
            e > 0.0 && Gain(perMinute, e) < 1.0
  {
    var d := (perMinute + 1) as real;
    var e := 30.0 / d;
    assert e * d == 30.0;
    assert e > 0.0;
    assert e * (perMinute as real / 60.0) == (e * perMinute as real) / 60.0;
    assert e * perMinute as real == e * d - e;
  }

  lemma ShortOfFull(c: Config)
    requires Positive(c) && c.burst > 10 * c.perMinute
    ensures Later(c) > RETENTION && Gain(c.perMinute, Later(c)) < Capacity(c)
  {
    var e := 30.0 / (c.perMinute + 1) as real;
    Fraction(c.perMinute);
    GainSum(c.perMinute, RETENTION, e);
    GainOfRetention(c.perMinute);
  }

  lemma PatientAdmitsLess(c: Config, calls: seq<Call>, later: real)
    requires Positive(c) && calls != [] && calls[0] == Call(ONE, 0.0)
    requires forall i | 0 <= i < |calls| :: calls[i].now <= later
    requires Gain(c.perMinute, later) < Capacity(c)
    ensures Admitted(Patient(c), START, calls, ONE) < 2 * c.burst
  {
    PatientIsUndisturbed(Patient(c), START, calls, ONE);
    BucketBound(Patient(c), START, calls, ONE, later);
    assert later - 0.0 == later;
  }

  lemma CountsDiffer(c: Config, calls: seq<Call>, key: string)
    requires Admitted(Eager(c), START, calls, key) != Admitted(Patient(c), START, calls, key)
    ensures !SameAnswers(c, calls)
  {
    if SameAnswers(c, calls) { SameCounts(c, calls, key); }
  }

  /** With a larger burst the clean-up shows: it lets a burst through that the exact
      bucket would refuse. */
  lemma LargeBurstShows(c: Config)
    requires Positive(c) && c.burst > 10 * c.perMinute
    ensures Ordered(Witness(c, Later(c))) && !SameAnswers(c, Witness(c, Later(c)))
  {
    ShortOfFull(c);
    WitnessTimes(c, Later(c));
    EagerAdmitsTwice(Eager(c), Later(c));
    PatientAdmitsLess(c, Witness(c, Later(c)), Later(c));
    assert Witness(Eager(c), Later(c)) == Witness(c, Later(c));
    CountsDiffer(c, Witness(c, Later(c)), ONE);
  }

  /** Eviction is invisible on every ordered run if and only if ten minutes refill a
      whole bucket. */
  lemma EvictionIsInvisibleIff(c: Config)
    requires Positive(c)
    ensures (forall calls | Ordered(calls) :: SameAnswers(c, calls)) <==> c.burst <= 10 * c.perMinute
  {
    if c.burst <= 10 * c.perMinute {
      forall calls | Ordered(calls) ensures SameAnswers(c, calls) {
        EvictionIsInvisible(c, calls);
      }
    } else {
      LargeBurstShows(c);
    }
  }
}
