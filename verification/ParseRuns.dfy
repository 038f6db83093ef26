/** Every run of the parse queue: any number of workers, crashed workers, takeovers
    of expired leases, outcomes reported late, twice or in conflict, and content
    rows deleted and delivered again. */
module ParseRuns {
  import opened Common
  import opened Database
  import opened ParseQueue

  datatype Config = Config(digest: Raw -> Key, maxAttempts: int)

  datatype Outcome = Completing | Retrying | Failing | Releasing

  /** A successful outcome: the claim it spent and the row incarnation it hit. */
  datatype Event = Event(claim: Claim, incarnation: nat, outcome: Outcome)

  datatype State = State(
    rows: map<Key, Row>,
    results: map<Key, Raw>,        // the bytes each stored parse result was computed from
    incarnations: map<Key, nat>,   // how often each key's row has been inserted
    claims: map<Token, Claim>,     // every claim ever handed out
    born: map<Token, nat>,         // the incarnation each claim was taken on
    log: seq<Event>)

  const INITIAL := State(map[], map[], map[], map[], map[], [])

  datatype Action =
    | Insert(key: Key, size: nat, now: int)
    | Delete(key: Key)
    | Take(key: Key, token: Token, now: int, lease: int)
    | Complete(token: Token, raw: Raw)
    | Retry(token: Token, code: string, at: int)
    | Fail(token: Token, code: string, at: int)
    | Release(token: Token, at: int)

  function Incarnation(s: State, key: Key): nat {
    if key in s.incarnations then s.incarnations[key] else 0
  }

  /** A claim can be finished at any time and again.  Completing is reached only
      through a verified read of the whole object (RawVerifier.ParseClaim), retrying
      only below the attempt limit (processNext). */
  ghost predicate Enabled(c: Config, s: State, a: Action) {
    match a
    case Insert(key, _, _) => key !in s.rows
    case Delete(key) => key in s.rows
    case Take(key, token, now, lease) =>
      key in s.rows && Claimable(s.rows[key], now) && token !in s.claims && lease > 0
    case Complete(token, raw) =>
      token in s.claims && |raw| == s.claims[token].size && c.digest(raw) == s.claims[token].key
    case Retry(token, code, _) => token in s.claims && s.claims[token].attempt < c.maxAttempts && ValidErrorCode(code)
    case Fail(token, code, _) => token in s.claims && ValidErrorCode(code)
    case Release(token, _) => token in s.claims
  }

  /** The token still holds its row. */
  predicate Current(s: State, token: Token) {
    token in s.claims && s.claims[token].key in s.rows && Holds(s.rows[s.claims[token].key], token)
  }

  function Spend(s: State, token: Token, row: Row, outcome: Outcome): State
    requires Current(s, token)
  {
    var claim := s.claims[token];
    s.(rows := s.rows[claim.key := row],
       log := s.log + [Event(claim, Incarnation(s, claim.key), outcome)])
  }

  function Next(c: Config, s: State, a: Action): State
    requires Enabled(c, s, a)
  {
    match a
    case Insert(key, size, now) =>
      s.(rows := s.rows[key := NewRow(size, now)], incarnations := s.incarnations[key := Incarnation(s, key) + 1])
    case Delete(key) => s.(rows := s.rows - {key}, results := s.results - {key})
    case Take(key, token, now, lease) =>
      var row := Claimed(s.rows[key], token, now + lease);
      s.(rows := s.rows[key := row],
         claims := s.claims[token := Claim(key, row.size, token, row.attempts)],
         born := s.born[token := Incarnation(s, key)])
    case Complete(token, raw) =>
      if !Current(s, token) then s
      else
        var key := s.claims[token].key;
        Spend(s, token, Completed(s.rows[key]), Completing).(results := s.results[key := raw])
    case Retry(token, code, at) => Finish(s, token, Pending, Some(code), at, false, Retrying)
    case Fail(token, code, at) => Finish(s, token, Failed, Some(code), at, false, Failing)
    case Release(token, at) => Finish(s, token, Pending, None, at, true, Releasing)
  }

  function Finish(s: State, token: Token, status: Status, code: Option<string>, at: int, release: bool, outcome: Outcome): State
    requires token in s.claims
  {
    if !Current(s, token) then s
    else Spend(s, token, Finished(s.rows[s.claims[token].key], status, code, at, release), outcome)
  }

  ghost predicate Run(c: Config, states: seq<State>, actions: seq<Action>) {
    && |states| == |actions| + 1
    && states[0] == INITIAL
    && forall i | 0 <= i < |actions| ::
         Enabled(c, states[i], actions[i]) && states[i + 1] == Next(c, states[i], actions[i])
  }

  // ----- the invariant ---------------------------------------------------------

  /** A leased row is held by a claim issued on this very incarnation, at the row's
      current attempt number; an unleased row carries no lease. */
  ghost predicate LeaseSound(s: State, key: Key)
    requires key in s.rows
  {
    var row := s.rows[key];
    && (row.status == Processing <==> row.token.Some?)
    && (row.status == Processing <==> row.leaseUntil.Some?)
    && row.attempts >= 0
    && (row.status == Processing ==>
          && row.attempts >= 1
          && row.token.value in s.claims
          && s.claims[row.token.value] == Claim(key, row.size, row.token.value, row.attempts)
          && row.token.value in s.born && s.born[row.token.value] == Incarnation(s, key))
  }

  /** A logged outcome spent its claim for good. */
  ghost predicate Spent(s: State, e: Event) {
    && e.claim.token in s.claims && s.claims[e.claim.token] == e.claim
    && e.incarnation <= Incarnation(s, e.claim.key)
    && (e.claim.key in s.rows ==> !Holds(s.rows[e.claim.key], e.claim.token))
    && e.claim.attempt >= 1
  }

  /** A retry raises the floor of all later attempt numbers of its incarnation. */
  ghost predicate Floor(s: State, e: Event) {
    e.outcome == Retrying && e.claim.key in s.rows && e.incarnation == Incarnation(s, e.claim.key) ==>
      var row := s.rows[e.claim.key];
      if row.status == Processing then e.claim.attempt < row.attempts else e.claim.attempt <= row.attempts
  }

  ghost predicate ResultSound(c: Config, s: State) {
    && (forall k :: k in s.results <==> k in s.rows && s.rows[k].status == Parsed)
    && (forall k | k in s.results :: |s.results[k]| == s.rows[k].size && c.digest(s.results[k]) == k)
  }

  ghost predicate LogSound(c: Config, s: State) {
    && (forall i | 0 <= i < |s.log| :: Spent(s, s.log[i]) && Floor(s, s.log[i]))
    && (forall i | 0 <= i < |s.log| && s.log[i].outcome == Retrying :: s.log[i].claim.attempt < c.maxAttempts)
    && (forall i, j | 0 <= i < j < |s.log| :: s.log[i].claim.token != s.log[j].claim.token)
    && (forall i, j | 0 <= i < j < |s.log| && SameRetry(s.log[i], s.log[j]) ::
          s.log[i].claim.attempt < s.log[j].claim.attempt)
  }

  /** Two retries of the same row incarnation. */
  predicate SameRetry(x: Event, y: Event) {
    x.outcome == Retrying && y.outcome == Retrying && x.claim.key == y.claim.key && x.incarnation == y.incarnation
  }

  ghost predicate Sound(c: Config, s: State) {
    && (forall k | k in s.rows :: LeaseSound(s, k))
    && (forall t | t in s.claims :: s.claims[t].token == t && s.claims[t].attempt >= 1)
    && ResultSound(c, s)
    && LogSound(c, s)
  }
}
