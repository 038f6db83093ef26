/** What every run of the parse queue keeps. */
module ParseSafety {
  import opened Common
  import opened Database
  import opened ParseQueue
  import opened ParseRuns

  /** Spending the current claim: the row becomes unleased, nothing else moves. */
  lemma SpendKeepsLog(c: Config, s: State, token: Token, row: Row, outcome: Outcome)
    requires Sound(c, s) && Current(s, token)
    requires row.status != Processing && row.attempts >= s.rows[s.claims[token].key].attempts - 1
    requires outcome == Retrying ==>
               row.attempts == s.rows[s.claims[token].key].attempts && s.claims[token].attempt < c.maxAttempts
    ensures LogSound(c, Spend(s, token, row, outcome))
  {
    var t := Spend(s, token, row, outcome);
    var key := s.claims[token].key;
    var e := t.log[|s.log|];
    assert LeaseSound(s, key) && s.rows[key].token == Some(token);
    forall i | 0 <= i < |s.log|
      ensures Spent(t, t.log[i]) && Floor(t, t.log[i]) && t.log[i].claim.token != token
      ensures SameRetry(t.log[i], e) ==> t.log[i].claim.attempt < e.claim.attempt
    {
      assert t.log[i] == s.log[i] && Spent(s, s.log[i]) && Floor(s, s.log[i]);
    }
  }

  lemma SpendKeepsLeases(c: Config, s: State, token: Token, row: Row, outcome: Outcome)
    requires Sound(c, s) && Current(s, token)
    requires row.status != Processing && row.token.None? && row.leaseUntil.None? && row.attempts >= 0
    ensures forall k | k in Spend(s, token, row, outcome).rows :: LeaseSound(Spend(s, token, row, outcome), k)
  {
  }

  lemma FinishKeepsSound(c: Config, s: State, token: Token, status: Status, code: Option<string>, at: int, release: bool, outcome: Outcome)
    requires Sound(c, s) && token in s.claims && status in {Pending, Failed}
    requires outcome == Retrying ==> !release && s.claims[token].attempt < c.maxAttempts
    ensures Sound(c, Finish(s, token, status, code, at, release, outcome))
  {
    if Current(s, token) {
      var key := s.claims[token].key;
      assert LeaseSound(s, key);
      var row := Finished(s.rows[key], status, code, at, release);
      SpendKeepsLog(c, s, token, row, outcome);
      SpendKeepsLeases(c, s, token, row, outcome);
    }
  }

  lemma CompleteKeepsSound(c: Config, s: State, a: Action)
    requires Sound(c, s) && a.Complete? && Enabled(c, s, a)
    ensures Sound(c, Next(c, s, a))
  {
    if Current(s, a.token) {
      var key := s.claims[a.token].key;
      assert LeaseSound(s, key);
      var row := Completed(s.rows[key]);
      SpendKeepsLog(c, s, a.token, row, Completing);
      SpendKeepsLeases(c, s, a.token, row, Completing);
      var u := Spend(s, a.token, row, Completing);
      var t := Next(c, s, a);
      assert t.rows == u.rows && t.log == u.log && t.claims == u.claims;
      assert forall k | k in t.rows :: LeaseSound(u, k);
      assert forall e :: Spent(u, e) ==> Spent(t, e);
      assert forall e :: Floor(u, e) ==> Floor(t, e);
    }
  }

  /** The log is untouched; what it says of spent claims and floors still holds. */
  lemma LogFrame(c: Config, s: State, t: State)
    requires LogSound(c, s) && t.log == s.log
    requires forall i | 0 <= i < |s.log| :: Spent(t, s.log[i]) && Floor(t, s.log[i])
    ensures LogSound(c, t)
  {
  }

  lemma TakeKeepsLog(c: Config, s: State, a: Action, e: Event)
    requires Sound(c, s) && a.Take? && Enabled(c, s, a) && Spent(s, e) && Floor(s, e)
    ensures Spent(Next(c, s, a), e) && Floor(Next(c, s, a), e)
  {
    assert LeaseSound(s, a.key);
  }

  lemma TakeKeepsLeases(c: Config, s: State, a: Action, k: Key)
    requires Sound(c, s) && a.Take? && Enabled(c, s, a) && k in s.rows
    ensures LeaseSound(Next(c, s, a), k)
  {
    assert LeaseSound(s, k);
  }

  lemma TakeKeepsSound(c: Config, s: State, a: Action)
    requires Sound(c, s) && a.Take? && Enabled(c, s, a)
    ensures Sound(c, Next(c, s, a))
  {
    var t := Next(c, s, a);
    forall k | k in t.rows ensures LeaseSound(t, k) { TakeKeepsLeases(c, s, a, k); }
    forall i | 0 <= i < |s.log| ensures Spent(t, s.log[i]) && Floor(t, s.log[i]) { TakeKeepsLog(c, s, a, s.log[i]); }
    LogFrame(c, s, t);
    assert LeaseSound(s, a.key);
  }

  lemma RowsKeepLog(c: Config, s: State, a: Action, e: Event)
    requires (a.Insert? || a.Delete?) && Enabled(c, s, a) && Spent(s, e) && Floor(s, e)
    ensures Spent(Next(c, s, a), e) && Floor(Next(c, s, a), e)
  {
  }

  lemma RowsKeepLeases(c: Config, s: State, a: Action, k: Key)
    requires Sound(c, s) && (a.Insert? || a.Delete?) && Enabled(c, s, a) && k in Next(c, s, a).rows
    ensures LeaseSound(Next(c, s, a), k)
  {
    if k != a.key { assert LeaseSound(s, k); }
  }

  lemma RowsKeepResults(c: Config, s: State, a: Action)
    requires ResultSound(c, s) && (a.Insert? || a.Delete?) && Enabled(c, s, a)
    ensures ResultSound(c, Next(c, s, a))
  {
  }

  lemma RowsKeepSound(c: Config, s: State, a: Action)
    requires Sound(c, s) && (a.Insert? || a.Delete?) && Enabled(c, s, a)
    ensures Sound(c, Next(c, s, a))
  {
    var t := Next(c, s, a);
    forall k | k in t.rows ensures LeaseSound(t, k) { RowsKeepLeases(c, s, a, k); }
    forall i | 0 <= i < |s.log| ensures Spent(t, s.log[i]) && Floor(t, s.log[i]) { RowsKeepLog(c, s, a, s.log[i]); }
    RowsKeepResults(c, s, a);
    LogFrame(c, s, t);
  }

  /** Every step keeps the queue sound. */
  lemma StepKeepsSound(c: Config, s: State, a: Action)
    requires Sound(c, s) && Enabled(c, s, a)
    ensures Sound(c, Next(c, s, a))
  {
    match a
    case Take(_, _, _, _) => TakeKeepsSound(c, s, a);
    case Complete(_, _) => CompleteKeepsSound(c, s, a);
    case Retry(token, code, at) => FinishKeepsSound(c, s, token, Pending, Some(code), at, false, Retrying);
    case Fail(token, code, at) => FinishKeepsSound(c, s, token, Failed, Some(code), at, false, Failing);
    case Release(token, at) => FinishKeepsSound(c, s, token, Pending, None, at, true, Releasing);
    case _ => RowsKeepSound(c, s, a);
  }

  lemma {:induction false} RunsAreSound(c: Config, states: seq<State>, actions: seq<Action>, n: nat)
    requires Run(c, states, actions) && n < |states|
    ensures Sound(c, states[n])
  {
    if n > 0 {
      RunsAreSound(c, states, actions, n - 1);
      StepKeepsSound(c, states[n - 1], actions[n - 1]);
    }
  }

  // ----- claims --------------------------------------------------------------

  /** Each claim has at most one successful outcome. */
  lemma OneOutcomePerClaim(c: Config, states: seq<State>, actions: seq<Action>, n: nat, i: nat, j: nat)
    requires Run(c, states, actions) && n < |states|
    requires i < |states[n].log| && j < |states[n].log|
    requires states[n].log[i].claim.token == states[n].log[j].claim.token
    ensures i == j
  {
    RunsAreSound(c, states, actions, n);
  }

  /** A superseded token changes nothing, and never comes back. */
  lemma SupersededTokensStayDead(c: Config, s: State, a: Action, token: Token)
    requires Sound(c, s) && Enabled(c, s, a)
    requires token in s.claims && !Current(s, token)
    ensures !Current(Next(c, s, a), token) && token in Next(c, s, a).claims
    ensures (a.Complete? || a.Retry? || a.Fail? || a.Release?) && a.token == token ==> Next(c, s, a) == s
  {
  }

  /** Row, incarnation and result of the key are as they were. */
  ghost predicate SameAt(s: State, t: State, key: Key)
    requires key in s.rows
  {
    && key in t.rows && t.rows[key] == s.rows[key] && Incarnation(t, key) == Incarnation(s, key)
    && (key in s.results <==> key in t.results)
    && (key in s.results ==> t.results[key] == s.results[key])
  }

  lemma FinishKeepsOthers(s: State, token: Token, status: Status, code: Option<string>, at: int, release: bool, outcome: Outcome, key: Key)
    requires token in s.claims && key in s.rows && s.rows[key].status != Processing
    ensures SameAt(s, Finish(s, token, status, code, at, release, outcome), key)
  {
  }

  /** A row leaves `parsed` or `failed` only by being deleted; its result stays too. */
  lemma TerminalRowsAreFinal(c: Config, s: State, a: Action, key: Key)
    requires Enabled(c, s, a)
    requires key in s.rows && s.rows[key].status in {Parsed, Failed} && a != Delete(key)
    ensures SameAt(s, Next(c, s, a), key)
  {
    match a
    case Retry(token, code, at) => FinishKeepsOthers(s, token, Pending, Some(code), at, false, Retrying, key);
    case Fail(token, code, at) => FinishKeepsOthers(s, token, Failed, Some(code), at, false, Failing, key);
    case Release(token, at) => FinishKeepsOthers(s, token, Pending, None, at, true, Releasing, key);
    case _ =>
  }

  /** A result exists exactly while its row is parsed, and it was computed from
      bytes of the row's full size and digest. */
  lemma ResultsAreVerified(c: Config, states: seq<State>, actions: seq<Action>, n: nat, key: Key)
    requires Run(c, states, actions) && n < |states|
    ensures var s := states[n];
            && (key in s.results <==> key in s.rows && s.rows[key].status == Parsed)
            && (key in s.results ==> |s.results[key]| == s.rows[key].size && c.digest(s.results[key]) == key)
  {
    RunsAreSound(c, states, actions, n);
  }

  /** A processing row always carries a lease, and from its deadline on anybody can
      take it over, whatever became of its worker. */
  lemma ProcessingRowsAreReclaimable(c: Config, states: seq<State>, actions: seq<Action>, n: nat, key: Key)
    requires Run(c, states, actions) && n < |states|
    requires key in states[n].rows && states[n].rows[key].status == Processing
    ensures states[n].rows[key].leaseUntil.Some?
    ensures forall now, token, lease | now >= states[n].rows[key].leaseUntil.value && token !in states[n].claims && lease > 0 ::
              Enabled(c, states[n], Take(key, token, now, lease))
  {
    RunsAreSound(c, states, actions, n);
    assert LeaseSound(states[n], key);
  }

  // ----- when a row can be claimed again ---------------------------------------

  /** From when on the row can be claimed: exactly from `at`, counting `attempts` so far. */
  ghost predicate WaitsUntil(s: State, key: Key, at: int, attempts: int) {
    && key in s.rows && s.rows[key].attempts == attempts
    && forall now :: Claimable(s.rows[key], now) <==> now >= at
  }

  ghost predicate NeverClaimable(s: State, key: Key) {
    key in s.rows && forall now :: !Claimable(s.rows[key], now)
  }

  /** Inserted content waits to be claimed from its insertion on, without attempts, error or
      result, as a new incarnation; deleted content takes its result along. */
  lemma RowsComeAndGo(c: Config, s: State, a: Action)
    requires Sound(c, s) && Enabled(c, s, a)
    ensures a.Insert? ==>
              var t := Next(c, s, a);
              && WaitsUntil(t, a.key, a.now, 0) && t.rows[a.key].size == a.size && t.rows[a.key].status == Pending
              && t.rows[a.key].token == None && t.rows[a.key].leaseUntil == None && t.rows[a.key].errorCode == None
              && a.key !in t.results && Incarnation(t, a.key) == Incarnation(s, a.key) + 1
    ensures a.Delete? ==> a.key !in Next(c, s, a).rows && a.key !in Next(c, s, a).results
    ensures forall k | k in s.rows && (a.Insert? || a.Delete?) && k != a.key ::
              k in Next(c, s, a).rows && Next(c, s, a).rows[k] == s.rows[k]
  {
  }

  /** A claim holds its row until the lease ends, one attempt further, and is its own. */
  lemma TakenUntilTheDeadline(c: Config, s: State, a: Action)
    requires Enabled(c, s, a) && a.Take?
    ensures var t := Next(c, s, a);
            && WaitsUntil(t, a.key, a.now + a.lease, s.rows[a.key].attempts + 1)
            && Current(t, a.token) && t.claims[a.token] == Claim(a.key, s.rows[a.key].size, a.token, s.rows[a.key].attempts + 1)
  {
  }

  /** A successful retry or release makes the row claimable exactly from the time it names;
      a retry keeps the attempt of its claim and records the error, a release gives the
      attempt back; a failed row is never claimed again. */
  lemma OutcomesWait(c: Config, s: State, a: Action)
    requires Sound(c, s) && Enabled(c, s, a) && (a.Retry? || a.Release? || a.Fail?) && Current(s, a.token)
    ensures var t, claim := Next(c, s, a), s.claims[a.token];
            && (a.Retry? ==> WaitsUntil(t, claim.key, a.at, claim.attempt) && t.rows[claim.key].errorCode == Some(a.code))
            && (a.Release? ==> WaitsUntil(t, claim.key, a.at, claim.attempt - 1) && t.rows[claim.key].errorCode == None)
            && (a.Fail? ==> NeverClaimable(t, claim.key) && t.rows[claim.key].status == Failed && t.rows[claim.key].attempts == claim.attempt
                            && t.rows[claim.key].errorCode == Some(a.code))
            && t.rows[claim.key].token == None && t.rows[claim.key].leaseUntil == None && t.rows[claim.key].size == claim.size
  {
    assert LeaseSound(s, s.claims[a.token].key);
  }

  /** A parsed row is never claimed again, and its result is that of the verified bytes. */
  lemma CompletingIsFinal(c: Config, s: State, a: Action)
    requires Enabled(c, s, a) && a.Complete? && Current(s, a.token)
    ensures var t, key := Next(c, s, a), s.claims[a.token].key;
            && NeverClaimable(t, key) && t.rows[key].status == Parsed && key in t.results && t.results[key] == a.raw
            && t.rows[key].token == None && t.rows[key].leaseUntil == None && t.rows[key].errorCode == None
  {
  }

  /** Releasing the claim just taken leaves the attempt count as it was before. */
  lemma ReleaseUndoesTheAttempt(c: Config, s: State, take: Action, at: int)
    requires Sound(c, s) && Enabled(c, s, take) && take.Take?
    ensures var mid := Next(c, s, take);
            && Enabled(c, mid, Release(take.token, at))
            && WaitsUntil(Next(c, mid, Release(take.token, at)), take.key, at, s.rows[take.key].attempts)
  {
    TakenUntilTheDeadline(c, s, take);
    StepKeepsSound(c, s, take);
    OutcomesWait(c, Next(c, s, take), Release(take.token, at));
  }

  // ----- retries ---------------------------------------------------------------

  predicate RetryOf(e: Event, key: Key, incarnation: nat) {
    e.outcome == Retrying && e.claim.key == key && e.incarnation == incarnation
  }

  /** Log positions, among the first n, of the retries of one incarnation of one row. */
  function Retries(log: seq<Event>, n: nat, key: Key, incarnation: nat): seq<nat>
    requires n <= |log|
  {
    if n == 0 then []
    else
      var rest := Retries(log, n - 1, key, incarnation);
      if RetryOf(log[n - 1], key, incarnation) then rest + [n - 1] else rest
  }

  ghost predicate Increasing(log: seq<Event>) {
    && (forall i | 0 <= i < |log| && log[i].outcome == Retrying :: 1 <= log[i].claim.attempt)
    && (forall i, j | 0 <= i < j < |log| && SameRetry(log[i], log[j]) :: log[i].claim.attempt < log[j].claim.attempt)
  }

  lemma {:induction false} RetriesAre(log: seq<Event>, n: nat, key: Key, incarnation: nat)
    requires n <= |log|
    ensures var r := Retries(log, n, key, incarnation);
            r != [] ==> r[|r| - 1] < n && RetryOf(log[r[|r| - 1]], key, incarnation)
  {
    if n > 0 { RetriesAre(log, n - 1, key, incarnation); }
  }

  /** Strictly increasing attempt numbers from 1 bound how many there can be. */
  lemma {:induction false} RetriesBounded(log: seq<Event>, n: nat, key: Key, incarnation: nat)
    requires Increasing(log) && n <= |log|
    ensures var r := Retries(log, n, key, incarnation);
            r != [] ==> r[|r| - 1] < n && |r| <= log[r[|r| - 1]].claim.attempt
  {
    if n > 0 {
      RetriesBounded(log, n - 1, key, incarnation);
      RetriesAre(log, n - 1, key, incarnation);
      var rest := Retries(log, n - 1, key, incarnation);
      if RetryOf(log[n - 1], key, incarnation) && rest != [] {
        assert SameRetry(log[rest[|rest| - 1]], log[n - 1]);
      }
    }
  }

  /** Over the life of one row at most MaxAttempts - 1 retries succeed, although
      releases lower the attempt counter and takeovers raise it. */
  lemma AtMostMaxAttemptsRetries(c: Config, states: seq<State>, actions: seq<Action>, n: nat, key: Key, incarnation: nat)
    requires Run(c, states, actions) && n < |states| && c.maxAttempts >= 1
    ensures |Retries(states[n].log, |states[n].log|, key, incarnation)| <= c.maxAttempts - 1
  {
    RunsAreSound(c, states, actions, n);
    var log := states[n].log;
    assert forall i | 0 <= i < |log| :: Spent(states[n], log[i]);
    RetriesBounded(log, |log|, key, incarnation);
    RetriesAre(log, |log|, key, incarnation);
  }
}
