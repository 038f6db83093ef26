/** The fenced content parse queue: claims, lease expiry and takeover, and outcomes
    guarded by the lease token alone. */
module ParseQueue {
  import opened Common
  import opened Database

  type Token = nat

  datatype Status = Pending | Processing | Parsed | Failed

  /** The parse columns of one mail_contents row. */
  datatype Row = Row(size: nat, status: Status, attempts: int, availableAt: int,
                     token: Option<Token>, leaseUntil: Option<int>, errorCode: Option<string>)

  datatype Claim = Claim(key: Key, size: nat, token: Token, attempt: int)

  function NewRow(size: nat, now: int): Row {
    Row(size, Pending, 0, now, None, None, None)
  }

  /** Free, or leased past its deadline. */
  predicate Claimable(row: Row, now: int) {
    || (row.status == Pending && row.availableAt <= now)
    || (row.status == Processing && row.leaseUntil.Some? && row.leaseUntil.value <= now)
  }

  function Claimed(row: Row, token: Token, until: int): Row {
    row.(status := Processing, attempts := row.attempts + 1, token := Some(token), leaseUntil := Some(until))
  }

  /** The fence of every outcome; the lease deadline plays no part in it. */
  predicate Holds(row: Row, token: Token) {
    row.status == Processing && row.token == Some(token)
  }

  function Completed(row: Row): Row {
    row.(status := Parsed, token := None, leaseUntil := None, errorCode := None)
  }

  function Finished(row: Row, status: Status, code: Option<string>, at: int, release: bool): Row {
    row.(status := status,
         attempts := if release then (if row.attempts - 1 > 0 then row.attempts - 1 else 0) else row.attempts,
         availableAt := at, token := None, leaseUntil := None, errorCode := code)
  }

  predicate ValidErrorCode(code: string) {
    && 0 < |code| <= 64
    && 'a' <= code[0] <= 'z'
    && forall i | 1 <= i < |code| :: 'a' <= code[i] <= 'z' || '0' <= code[i] <= '9' || code[i] == '_'
  }

  /** A code is at most 64 characters, a lower-case letter first, then such letters, digits
      and underscores. */
  lemma ErrorCodeCharacters(code: string)
    ensures ValidErrorCode(code) <==>
              1 <= |code| <= 64 && code[0] in LOWER && forall i | 1 <= i < |code| :: code[i] in LOWER || code[i] in DIGITS || code[i] == '_'
  {
    forall c: char ensures (c in LOWER <==> 'a' <= c <= 'z') && (c in DIGITS <==> '0' <= c <= '9') {
      LowerLetters(c);
      DecimalDigits(c);
    }
  }

  datatype QueueError = StaleClaim | InvalidOutcome

  class ParseRepository<Parse> {
    var rows: map<Key, Row>
    var results: map<Key, Parse>

    constructor ()
      ensures rows == map[] && results == map[]
    {
      rows, results := map[], map[];
    }

    /** Lease one claimable row under a fresh token; which one is left open. */
    method ClaimContent(token: Token, now: int, lease: int) returns (claim: Option<Claim>)
      requires lease > 0
      modifies this`rows
      ensures claim.None? <==> forall k | k in old(rows) :: !Claimable(old(rows)[k], now)
      ensures claim.None? ==> rows == old(rows)
      ensures claim.Some? ==>
                var k := claim.value.key;
                && k in old(rows) && Claimable(old(rows)[k], now)
                && rows == old(rows)[k := Claimed(old(rows)[k], token, now + lease)]
                && claim.value == Claim(k, rows[k].size, token, rows[k].attempts)
    {
      var candidates := set k | k in rows && Claimable(rows[k], now);
      if candidates == {} {
        assert forall k | k in rows :: Claimable(rows[k], now) ==> k in candidates;
        return None;
      }
      var k :| k in candidates;
      rows := rows[k := Claimed(rows[k], token, now + lease)];
      return Some(Claim(k, rows[k].size, token, rows[k].attempts));
    }

    /** Store the result and mark the row parsed, in one transaction, if the token holds it. */
    method CompleteContent(claim: Claim, revision: int, parsed: Parse, parsedAt: int) returns (r: Result<(), QueueError>)
      modifies this
      ensures var held := claim.key in old(rows) && Holds(old(rows)[claim.key], claim.token);
              var allowed := claim.attempt > 0 && revision > 0 && parsedAt != ZERO_TIME;
              && r.Ok? == (held && allowed)
              && (r.Err? ==> r.error == if allowed then StaleClaim else InvalidOutcome)
              && rows == (if r.Ok? then old(rows)[claim.key := Completed(old(rows)[claim.key])] else old(rows))
              && results == (if r.Ok? then old(results)[claim.key := parsed] else old(results))
    {
      if claim.attempt <= 0 || revision <= 0 || parsedAt == ZERO_TIME { return Err(InvalidOutcome); }
      if claim.key !in rows || !Holds(rows[claim.key], claim.token) { return Err(StaleClaim); }
      rows := rows[claim.key := Completed(rows[claim.key])];
      results := results[claim.key := parsed];
      return Ok(());
    }

    /** finishClaim, shared by RetryContent, FailContent and ReleaseContent. */
    method FinishClaim(claim: Claim, status: Status, code: Option<string>, at: int, release: bool)
      returns (r: Result<(), QueueError>)
      modifies this`rows
      ensures var held := claim.key in old(rows) && Holds(old(rows)[claim.key], claim.token);
              var allowed := && status in {Pending, Failed} && (status == Failed ==> code.Some?)
                             && (code.Some? ==> ValidErrorCode(code.value)) && claim.attempt > 0;
              && r.Ok? == (held && allowed)
              && (r.Err? ==> r.error == if allowed then StaleClaim else InvalidOutcome)
              && rows == if r.Ok? then old(rows)[claim.key := Finished(old(rows)[claim.key], status, code, at, release)]
                         else old(rows)
    {
      if status != Pending && status != Failed { return Err(InvalidOutcome); }
      if status == Failed && code.None? { return Err(InvalidOutcome); }
      if code.Some? && !ValidErrorCode(code.value) { return Err(InvalidOutcome); }
      if claim.attempt <= 0 { return Err(InvalidOutcome); }
      if claim.key !in rows || !Holds(rows[claim.key], claim.token) { return Err(StaleClaim); }
      rows := rows[claim.key := Finished(rows[claim.key], status, code, at, release)];
      return Ok(());
    }
  }

  /** retryDelay: exponential in the attempt, capped, without ever overshooting. */
  method RetryDelay(base: int, max: int, attempt: int) returns (delay: int)
    requires 0 < base <= max
    ensures delay == Min(max, base * Pow2(if attempt > 1 then attempt - 1 else 0))
  {
    delay := base;
    var current := 1;
    while current < attempt && delay < max
      invariant 1 <= current && (attempt >= 1 ==> current <= attempt) && (attempt < 1 ==> current == 1)
      invariant delay == base * Pow2(current - 1) && base <= delay <= max
      decreases attempt - current
    {
      if delay > max / 2 {
        Pow2Monotone(base, current, attempt - 1);
        return max;
      }
      delay := delay * 2;
      current := current + 1;
    }
    if current < attempt { Pow2Monotone(base, current - 1, attempt - 1); }
    if delay > max { return max; }
  }

  function Min(a: int, b: int): int { if a < b then a else b }

  function Pow2(n: nat): nat {
    if n == 0 then 1 else 2 * Pow2(n - 1)
  }

  lemma {:induction false} Pow2Monotone(base: int, m: nat, n: nat)
    requires m <= n && base > 0
    ensures base * Pow2(m) <= base * Pow2(n)
  {
    if m < n {
      Pow2Monotone(base, m, n - 1);
      assert base * Pow2(n) == 2 * (base * Pow2(n - 1));
    }
  }
}
