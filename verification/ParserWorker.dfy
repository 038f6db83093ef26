/** One iteration of a parser worker: claim, parse, report. */
module ParserWorker {
  import opened Common
  import opened Database
  import opened ParseQueue
  import opened ParseRuns
  import ParseSafety
  import opened RawVerifier
  import ContentKey

  /** What went wrong, as far as classifyParseError distinguishes it. */
  datatype ParseError =
    | DeadlineExceeded | MessageTooLarge | HeaderTooLarge | TooManyHeaders | TooManyParts | NestingTooDeep
    | PartTooLarge | DecodedTooLarge | SourceUnavailable | ContentCorrupt | OtherError

  /** Stored code and whether the failure is permanent. */
  function Classify(e: ParseError): (string, bool) {
    match e
    case DeadlineExceeded => ("parse_timeout", false)
    case MessageTooLarge => ("message_too_large", true)
    case HeaderTooLarge => ("header_too_large", true)
    case TooManyHeaders => ("too_many_headers", true)
    case TooManyParts => ("too_many_parts", true)
    case NestingTooDeep => ("nesting_too_deep", true)
    case PartTooLarge => ("part_too_large", true)
    case DecodedTooLarge => ("decoded_content_too_large", true)
    case SourceUnavailable => ("content_unavailable", false)
    case ContentCorrupt => ("content_corrupt", true)
    case OtherError => ("invalid_mime", true)
  }

  /** Every classified failure can be stored: the queue never refuses its code. */
  lemma ClassifiedCodesAreStorable(e: ParseError)
    ensures ValidErrorCode(Classify(e).0)
    ensures !Classify(e).1 <==> e == DeadlineExceeded || e == SourceUnavailable
  {
    LimitCodesAreStorable();
    ShapeCodesAreStorable();
    SourceCodesAreStorable();
  }

  /** The stored code tells the failures apart. */
  lemma CodesTellErrorsApart(e: ParseError, f: ParseError)
    ensures Classify(e).0 == Classify(f).0 <==> e == f
  {
    if e != f {
      assert |Classify(e).0| != |Classify(f).0| || Classify(e).0[0] != Classify(f).0[0];
    }
  }

  lemma LimitCodesAreStorable()
    ensures ValidErrorCode("message_too_large") && ValidErrorCode("header_too_large")
    ensures ValidErrorCode("part_too_large") && ValidErrorCode("decoded_content_too_large")
  {
  }

  lemma ShapeCodesAreStorable()
    ensures ValidErrorCode("too_many_headers") && ValidErrorCode("too_many_parts") && ValidErrorCode("nesting_too_deep")
  {
  }

  lemma SourceCodesAreStorable()
    ensures ValidErrorCode("parse_timeout") && ValidErrorCode("content_unavailable")
    ensures ValidErrorCode("content_corrupt") && ValidErrorCode("invalid_mime")
  {
  }

  datatype Decision = DoRelease | DoComplete | DoFail(code: string) | DoRetry(code: string)

  /** Cancellation wins, then success; failures are final when permanent or on the
      last attempt, and retried otherwise. */
  function Decide<Parse>(attempt: int, maxAttempts: int, canceled: bool, parsed: Result<Parse, ParseError>): (d: Decision)
    ensures d.DoRelease? <==> canceled
    ensures d.DoComplete? <==> parsed.Ok? && !canceled
    ensures d.DoRetry? <==>
              && !canceled && parsed.Err? && attempt < maxAttempts
              && (parsed.error == DeadlineExceeded || parsed.error == SourceUnavailable)
  {
    if canceled then DoRelease
    else if parsed.Ok? then DoComplete
    else
      var (code, permanent) := Classify(parsed.error);
      if permanent || attempt >= maxAttempts then DoFail(code) else DoRetry(code)
  }

  /** What the outside does to one attempt: the object's reads, the parser's verdict, the
      drain's budget, closing, cancellation, the parse deadline, and whether the outcome
      reaches the database. */
  datatype Trial = Trial(
    source: Option<seq<Chunk>>, parserReads: nat, verdict: Option<ParseError>, budget: nat,
    closes: bool, canceled: bool, timedOut: bool, stored: bool)

  ghost predicate Possible(t: Trial) {
    t.source.Some? ==> WellFormed(t.source.value)
  }

  /** The error that classifyParseError sees. */
  function ErrorOf(f: Failure, t: Trial): ParseError {
    if t.timedOut then DeadlineExceeded
    else
      match f
      case NotOpened => SourceUnavailable
      case ParserFailed => if t.verdict.Some? then t.verdict.value else OtherError
      case Unverified(e) => if e == SourceFailed then SourceUnavailable else if e == Corrupt then ContentCorrupt else DeadlineExceeded
      case NotClosed => SourceUnavailable
  }

  function Computed<Parse>(results: map<Key, Raw>, parse: Raw -> Parse): map<Key, Parse> {
    map k | k in results :: parse(results[k])
  }

  /** The queue is the tables of the run, with each stored result computed from the bytes
      the run remembers. */
  ghost predicate Represents<Parse>(queue: ParseRepository<Parse>, s: State, parse: Raw -> Parse)
    reads queue
  {
    queue.rows == s.rows && queue.results == Computed(s.results, parse)
  }

  /** The finishing action of a decision. */
  function Finishing(token: Token, d: Decision, raw: Raw, now: int, delay: int): Action {
    match d
    case DoRelease => Release(token, now)
    case DoComplete => Complete(token, raw)
    case DoFail(code) => Fail(token, code, now)
    case DoRetry(code) => Retry(token, code, now + delay)
  }

  /** Two steps of a run from s. */
  ghost predicate Leads(c: Config, s: State, first: Action, second: Option<Action>, t: State) {
    && Enabled(c, s, first)
    && var mid := Next(c, s, first);
       match second
       case None => t == mid
       case Some(a) => Enabled(c, mid, a) && t == Next(c, mid, a)
  }

  const PARSER_REVISION := 1

  /** Take a claim, as a step of the run. */
  method TakeClaim<Parse(==)>(queue: ParseRepository<Parse>, token: Token, now: int, lease: int, parse: Raw -> Parse, ghost c: Config, ghost s: State)
    returns (claim: Option<Claim>, ghost t: State)
    requires lease > 0 && Represents(queue, s, parse) && token !in s.claims
    requires forall k | k in s.rows :: s.rows[k].attempts >= 0
    modifies queue
    ensures Represents(queue, t, parse)
    ensures claim.None? ==> t == s && forall k | k in s.rows :: !Claimable(s.rows[k], now)
    ensures claim.Some? ==>
              && Enabled(c, s, Take(claim.value.key, token, now, lease)) && t == Next(c, s, Take(claim.value.key, token, now, lease))
              && token in t.claims && t.claims[token] == claim.value && claim.value.token == token && claim.value.attempt > 0
              && Current(t, token)
  {
    t := s;
    claim := queue.ClaimContent(token, now, lease);
    if claim.Some? { t := Next(c, s, Take(claim.value.key, token, now, lease)); }
  }

  /** The parser accepts what it reads without trouble, but it is not what was claimed. */
  predicate ReadsDamaged(trial: Trial, claim: Claim, digest: Raw -> string) {
    && trial.source.Some? && trial.verdict.None? && Smooth(trial.source.value, trial.budget)
    && !Matches(digest, claim.key, claim.size, Content(trial.source.value))
  }

  /** A failure that another attempt may mend. */
  function Transient(code: string, attempt: int, maxAttempts: int): Decision {
    if attempt < maxAttempts then DoRetry(code) else DoFail(code)
  }

  /** Open, parse, verify and decide.  Completion is decided only for bytes that matched
      the claim, and on a smooth source for all such bytes the parser accepts. */
  method Attempt(trial: Trial, claim: Claim, digest: Raw -> string, maxAttempts: int) returns (d: Decision, raw: Raw)
    requires Possible(trial)
    ensures d.DoRelease? <==> trial.canceled
    ensures d.DoComplete? ==>
              trial.source.Some? && raw == Content(trial.source.value) && Matches(digest, claim.key, claim.size, raw)
    ensures d.DoFail? || d.DoRetry? ==> ValidErrorCode(d.code)
    ensures d.DoRetry? ==> claim.attempt < maxAttempts
    ensures !trial.canceled && !d.DoComplete? && trial.timedOut ==> d == Transient("parse_timeout", claim.attempt, maxAttempts)
    ensures !trial.canceled && !trial.timedOut && trial.source.None? ==> d == Transient("content_unavailable", claim.attempt, maxAttempts)
    ensures !trial.canceled && !trial.timedOut && trial.source.Some? && trial.verdict.Some? ==>
              var (code, permanent) := Classify(trial.verdict.value);
              d == if permanent then DoFail(code) else Transient(code, claim.attempt, maxAttempts)
    ensures !trial.canceled && !trial.timedOut && ReadsDamaged(trial, claim, digest) ==> d == DoFail("content_corrupt")
    ensures trial.source.Some? && Smooth(trial.source.value, trial.budget) && !trial.canceled ==>
              (d.DoComplete? <==>
                trial.verdict.None? && trial.closes && Matches(digest, claim.key, claim.size, Content(trial.source.value)))
  {
    raw := if trial.source.Some? then Content(trial.source.value) else [];
    var failure := ParseClaim(trial.source, digest, claim.key, claim.size, trial.parserReads, trial.verdict.None?, trial.budget, trial.closes);
    var parsed := if failure.None? then Ok(()) else Err(ErrorOf(failure.value, trial));
    if parsed.Err? { ClassifiedCodesAreStorable(parsed.error); }
    d := Decide(claim.attempt, maxAttempts, trial.canceled, parsed);
  }

  ghost predicate Reportable(c: Config, s: State, claim: Claim, d: Decision, raw: Raw) {
    && claim.token in s.claims && s.claims[claim.token] == claim && Current(s, claim.token) && claim.attempt > 0
    && (d.DoFail? || d.DoRetry? ==> ValidErrorCode(d.code))
    && (d.DoRetry? ==> claim.attempt < c.maxAttempts)
    && (d.DoComplete? ==> |raw| == claim.size && c.digest(raw) == claim.key)
  }

  lemma ResultAdded<Parse>(results: map<Key, Raw>, key: Key, raw: Raw, parse: Raw -> Parse)
    ensures Computed(results[key := raw], parse) == Computed(results, parse)[key := parse(raw)]
  {
  }

  /** Report one outcome for the claim just taken. */
  method Report<Parse(==)>(queue: ParseRepository<Parse>, claim: Claim, d: Decision, raw: Raw, parse: Raw -> Parse,
                       now: int, delay: int, ghost c: Config, ghost s: State)
    requires Represents(queue, s, parse) && now != ZERO_TIME && Reportable(c, s, claim, d, raw)
    modifies queue
    ensures Enabled(c, s, Finishing(claim.token, d, raw, now, delay))
    ensures Represents(queue, Next(c, s, Finishing(claim.token, d, raw, now, delay)), parse)
  {
    if d.DoComplete? {
      ResultAdded(s.results, claim.key, raw, parse);
      var _ := queue.CompleteContent(claim, PARSER_REVISION, parse(raw), now);
    } else if d.DoRelease? {
      var _ := queue.FinishClaim(claim, Pending, None, now, true);
    } else if d.DoFail? {
      var _ := queue.FinishClaim(claim, Failed, Some(d.code), now, false);
    } else {
      var _ := queue.FinishClaim(claim, Pending, Some(d.code), now + delay, false);
    }
  }

  /** processNext: claim, parse under verification, report.  Whatever the outside does,
      its effect on the queue is a stretch of a run: a claim, followed by the one outcome
      the attempt calls for, which completes only on bytes that matched the claim; if the
      outcome cannot be stored the claim stays leased. */
  method ProcessNext<Parse(==)>(queue: ParseRepository<Parse>, token: Token, now: int, lease: int, base: int, max: int,
                            digest: Raw -> string, trials: Key -> Trial, parse: Raw -> Parse, maxAttempts: int,
                            ghost c: Config, ghost s: State)
    returns (claim: Option<Claim>, ghost outcome: Option<Action>, ghost t: State)
    requires lease > 0 && 0 < base <= max && now != ZERO_TIME && forall k :: Possible(trials(k))
    requires c.maxAttempts == maxAttempts && forall raw :: c.digest(raw) == ContentKey.KeyOf(digest(raw))
    requires Represents(queue, s, parse) && token !in s.claims && forall k | k in s.rows :: s.rows[k].attempts >= 0
    modifies queue
    ensures Represents(queue, t, parse)
    ensures claim.None? ==> t == s && forall k | k in s.rows :: !Claimable(s.rows[k], now)
    ensures claim.Some? ==>
              && Leads(c, s, Take(claim.value.key, token, now, lease), outcome, t)
              && (outcome.Some? <==> trials(claim.value.key).stored)
    ensures claim.Some? && Sound(c, s) ==> Waits(t, claim.value, outcome, now + lease)
    ensures claim.Some? && outcome.Some? ==> Fitting(outcome.value, trials(claim.value.key), claim.value, digest, now + base, now + max)
  {
    outcome := None;
    claim, t := TakeClaim(queue, token, now, lease, parse, c, s);
    if claim.None? { return; }
    var trial := trials(claim.value.key);
    assert Possible(trial);
    outcome, t := Conclude(queue, claim.value, trial, now, base, max, digest, parse, maxAttempts, c, t);
    if Sound(c, s) { LeadsWaits(c, s, Take(claim.value.key, token, now, lease), outcome, t); }
  }

  /** Parse the claimed content and report what came of it, if that can be stored. */
  method Conclude<Parse(==)>(queue: ParseRepository<Parse>, claim: Claim, trial: Trial, now: int, base: int, max: int,
                         digest: Raw -> string, parse: Raw -> Parse, maxAttempts: int, ghost c: Config, ghost s: State)
    returns (ghost outcome: Option<Action>, ghost t: State)
    requires 0 < base <= max && now != ZERO_TIME && Possible(trial)
    requires c.maxAttempts == maxAttempts && forall raw :: c.digest(raw) == ContentKey.KeyOf(digest(raw))
    requires Represents(queue, s, parse)
    requires claim.token in s.claims && s.claims[claim.token] == claim && Current(s, claim.token) && claim.attempt > 0
    modifies queue
    ensures Represents(queue, t, parse) && (outcome.Some? <==> trial.stored)
    ensures outcome.None? ==> t == s
    ensures outcome.Some? ==>
              && Finishes(outcome.value, claim.token) && Enabled(c, s, outcome.value) && t == Next(c, s, outcome.value)
              && Fitting(outcome.value, trial, claim, digest, now + base, now + max)
  {
    outcome, t := None, s;
    var d, raw := Attempt(trial, claim, digest, maxAttempts);
    if !trial.stored { return; }
    var delay := RetryDelay(base, max, claim.attempt);
    DelayBounds(base, max, claim.attempt);
    Report(queue, claim, d, raw, parse, now, delay, c, s);
    outcome := Some(Finishing(claim.token, d, raw, now, delay));
    t := Next(c, s, outcome.value);
  }

  /** The action finishes the claim of this token. */
  predicate Finishes(a: Action, token: Token) {
    match a
    case Complete(t, _) => t == token
    case Retry(t, _, _) => t == token
    case Fail(t, _, _) => t == token
    case Release(t, _) => t == token
    case _ => false
  }

  /** When the row can be claimed again: at the time a retry or release names, at the end of
      the lease if nothing could be stored, and otherwise never. */
  ghost predicate Waits(t: State, claim: Claim, outcome: Option<Action>, deadline: int) {
    match outcome
    case None => ParseSafety.WaitsUntil(t, claim.key, deadline, claim.attempt)
    case Some(Retry(_, _, at)) => ParseSafety.WaitsUntil(t, claim.key, at, claim.attempt)
    case Some(Release(_, at)) => ParseSafety.WaitsUntil(t, claim.key, at, claim.attempt - 1)
    case Some(_) => ParseSafety.NeverClaimable(t, claim.key)
  }

  lemma LeadsWaits(c: Config, s: State, take: Action, outcome: Option<Action>, t: State)
    requires Sound(c, s) && take.Take? && Leads(c, s, take, outcome, t)
    requires outcome.Some? ==> Finishes(outcome.value, take.token)
    ensures take.token in t.claims && Waits(t, t.claims[take.token], outcome, take.now + take.lease)
  {
    var mid := Next(c, s, take);
    ParseSafety.TakenUntilTheDeadline(c, s, take);
    ParseSafety.StepKeepsSound(c, s, take);
    if outcome.Some? {
      if outcome.value.Complete? {
        ParseSafety.CompletingIsFinal(c, mid, outcome.value);
      } else {
        ParseSafety.OutcomesWait(c, mid, outcome.value);
      }
    }
  }

  /** The outcome an attempt calls for. */
  ghost predicate Fitting(a: Action, trial: Trial, claim: Claim, digest: Raw -> string, earliest: int, latest: int) {
    && (a.Release? <==> trial.canceled)
    && (a.Complete? ==> trial.source.Some? && a.raw == Content(trial.source.value) && Matches(digest, claim.key, claim.size, a.raw))
    && (a.Retry? ==> earliest <= a.at <= latest)
    && (trial.source.Some? && Smooth(trial.source.value, trial.budget) && !trial.canceled ==>
          (a.Complete? <==>
            trial.verdict.None? && trial.closes && Matches(digest, claim.key, claim.size, Content(trial.source.value))))
  }

  lemma DelayBounds(base: int, max: int, attempt: int)
    requires 0 < base <= max
    ensures base <= Min(max, base * Pow2(if attempt > 1 then attempt - 1 else 0)) <= max
  {
    Pow2Monotone(base, 0, if attempt > 1 then attempt - 1 else 0);
  }
}
