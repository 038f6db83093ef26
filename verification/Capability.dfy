/** Inbox capabilities: issue, rotate, revoke, and the lineage they maintain. */
module Capability {
  import opened Common

  type Id = nat
  type InboxId = nat

  datatype Record = Record(inbox: InboxId, kid: string, digest: string, scopes: int,
                           createdAt: int, expiresAt: int, revokedAt: Option<int>, rotatedFrom: Option<Id>)

  datatype Inbox = Inbox(active: bool, expiresAt: int)

  datatype Table = Table(records: map<Id, Record>, inboxes: map<InboxId, Inbox>)

  datatype Problem = NotFound | AlreadyRotated | Unauthenticated | KidConflict | SubjectUnavailable | Lifetime | Rejected

  predicate KidTaken(t: Table, kid: string) {
    exists i | i in t.records :: t.records[i].kid == kid
  }

  /** CreateCapability: only for a live Inbox, within its lifetime, under a new KID. */
  function Create(t: Table, id: Id, inbox: InboxId, kid: string, digest: string, scopes: int, createdAt: int, expiresAt: int)
    : Result<Table, Problem>
  {
    if expiresAt <= createdAt then Err(Lifetime)
    else if inbox !in t.inboxes || !t.inboxes[inbox].active || t.inboxes[inbox].expiresAt <= createdAt then Err(SubjectUnavailable)
    else if expiresAt > t.inboxes[inbox].expiresAt then Err(Lifetime)
    else if KidTaken(t, kid) then Err(KidConflict)
    else Ok(t.(records := t.records[id := Record(inbox, kid, digest, scopes, createdAt, expiresAt, None, None)]))
  }

  function Revoked(t: Table, id: Id, at: int): Table
    requires id in t.records
  {
    t.(records := t.records[id := t.records[id].(revokedAt :=
      if t.records[id].revokedAt.Some? then t.records[id].revokedAt else Some(at))])
  }

  /** The credential was rotated before (rotated_from_id is unique). */
  predicate Succeeded(t: Table, current: Id) {
    exists i | i in t.records :: t.records[i].rotatedFrom == Some(current)
  }

  function Replacement(record: Record, current: Id, kid: string, digest: string, at: int): Record {
    Record(record.inbox, kid, digest, record.scopes, at, record.expiresAt, None, Some(current))
  }

  /** RotateCapability: revoke the current credential and insert its replacement with
      the same Inbox, scopes and expiry, or change nothing. */
  function Rotate(t: Table, current: Id, id: Id, kid: string, digest: string, at: int): Result<Table, Problem> {
    if current !in t.records || t.records[current].inbox !in t.inboxes then Err(NotFound)
    else
      var record := t.records[current];
      if record.revokedAt.Some? then Err(AlreadyRotated)
      else if !t.inboxes[record.inbox].active || at >= record.expiresAt || at >= t.inboxes[record.inbox].expiresAt
      then Err(Unauthenticated)
      else if at < record.createdAt then Err(Rejected)
      else if KidTaken(t, kid) then Err(KidConflict)
      else if Succeeded(t, current) then Err(AlreadyRotated)
      else
        var revoked := Revoked(t, current, at);
        Ok(revoked.(records := revoked.records[id := Replacement(record, current, kid, digest, at)]))
  }

  function Revoke(t: Table, id: Id, at: int): Result<Table, Problem> {
    if id !in t.records then Err(NotFound)
    else if at < t.records[id].createdAt && t.records[id].revokedAt.None? then Err(Rejected)
    else Ok(Revoked(t, id, at))
  }

  /** Deleting an Inbox cascades to its credentials. */
  function DropInboxes(t: Table, gone: set<InboxId>): Table {
    Table(map i | i in t.records && t.records[i].inbox !in gone :: t.records[i], t.inboxes - gone)
  }

  /** resolve: the record a presented KID and digest authenticate as. */
  predicate Authenticates(t: Table, id: Id, kid: string, digest: string, now: int) {
    && id in t.records
    && var r := t.records[id];
       && r.kid == kid && r.digest == digest
       && r.revokedAt.None? && now < r.expiresAt
       && r.inbox in t.inboxes && t.inboxes[r.inbox].active && now < t.inboxes[r.inbox].expiresAt
  }

  ghost predicate KidsUnique(records: map<Id, Record>) {
    forall x, y | x in records && y in records && records[x].kid == records[y].kid :: x == y
  }

  /** Marking one record revoked changes no KID and no lineage link. */
  lemma RevokedKeepsKeys(t: Table, id: Id, at: int, kid: string)
    requires id in t.records
    ensures KidTaken(Revoked(t, id, at), kid) <==> KidTaken(t, kid)
    ensures Succeeded(Revoked(t, id, at), id) <==> Succeeded(t, id)
  {
    var r := Revoked(t, id, at);
    forall i | i in t.records
      ensures i in r.records && r.records[i].kid == t.records[i].kid && r.records[i].rotatedFrom == t.records[i].rotatedFrom
    {
    }
    assert r.records.Keys == t.records.Keys;
  }

  /** Issuing succeeds exactly for a live Inbox, a lifetime that ends after it begins and
      within the Inbox's, and a free KID.  The new credential authenticates exactly until it
      expires, and every other one as before. */
  lemma IssuingIssues(t: Table, id: Id, inbox: InboxId, kid: string, digest: string, scopes: int, createdAt: int, expiresAt: int)
    requires id !in t.records
    ensures Create(t, id, inbox, kid, digest, scopes, createdAt, expiresAt).Ok? <==>
              && inbox in t.inboxes && t.inboxes[inbox].active
              && createdAt < expiresAt <= t.inboxes[inbox].expiresAt && !KidTaken(t, kid)
    ensures Create(t, id, inbox, kid, digest, scopes, createdAt, expiresAt).Ok? ==>
              var n := Create(t, id, inbox, kid, digest, scopes, createdAt, expiresAt).value;
              && (forall k, d, now :: Authenticates(n, id, k, d, now) <==> k == kid && d == digest && now < expiresAt)
              && (forall other, k, d, now | other != id :: Authenticates(n, other, k, d, now) <==> Authenticates(t, other, k, d, now))
              && n.records[id].inbox == inbox && n.records[id].scopes == scopes && n.records[id].rotatedFrom.None?
              && n.inboxes == t.inboxes
  {
  }

  /** No credential outlives its Inbox: it stops authenticating when the Inbox expires, is
      deactivated or goes, and otherwise depends on nothing but its own record. */
  lemma InboxEndsCredentials(t: Table, inbox: InboxId, row: Inbox, id: Id, kid: string, digest: string, now: int)
    requires id in t.records && t.records[id].inbox == inbox
    ensures inbox !in t.inboxes ==> !Authenticates(t, id, kid, digest, now)
    ensures !Authenticates(DropInboxes(t, {inbox}), id, kid, digest, now)
    ensures var n := t.(inboxes := t.inboxes[inbox := row]);
            && (!row.active || row.expiresAt <= now ==> !Authenticates(n, id, kid, digest, now))
            && (row.active && row.expiresAt > now ==>
                  (Authenticates(n, id, kid, digest, now) <==>
                    && t.records[id].kid == kid && t.records[id].digest == digest
                    && t.records[id].revokedAt.None? && t.records[id].expiresAt > now))
  {
  }

  /** Rotation succeeds exactly for a credential that would authenticate at that time, was
      created by then and has no successor, under a free KID. */
  lemma RotationAccepts(t: Table, current: Id, id: Id, kid: string, digest: string, at: int)
    ensures Rotate(t, current, id, kid, digest, at).Ok? <==>
              && current in t.records && Authenticates(t, current, t.records[current].kid, t.records[current].digest, at)
              && at >= t.records[current].createdAt && !KidTaken(t, kid) && !Succeeded(t, current)
    ensures Rotate(t, current, id, kid, digest, at) == Err(KidConflict) ==> KidTaken(t, kid)
  {
  }

  /** Everything about a record but its revocation. */
  predicate SameBut(x: Record, y: Record) {
    x.(revokedAt := None) == y.(revokedAt := None)
  }

  /** Revoking succeeds exactly for a record that exists and is not to be revoked before it
      was created; it keeps an earlier revocation.  From then on nothing authenticates that
      credential, and every other one authenticates as before; no KID, digest, Inbox, scope,
      expiry or lineage link changes. */
  lemma RevokingRevokes(t: Table, id: Id, at: int)
    ensures Revoke(t, id, at).Ok? <==> id in t.records && (t.records[id].revokedAt.Some? || at >= t.records[id].createdAt)
    ensures Revoke(t, id, at).Ok? ==>
              var n := Revoke(t, id, at).value;
              && (forall kid, digest, now :: !Authenticates(n, id, kid, digest, now))
              && (forall other, kid, digest, now | other != id ::
                    Authenticates(n, other, kid, digest, now) <==> Authenticates(t, other, kid, digest, now))
              && n.inboxes == t.inboxes && n.records.Keys == t.records.Keys
              && (forall i | i in t.records :: SameBut(n.records[i], t.records[i]))
              && (forall i | i in t.records && (i != id || t.records[i].revokedAt.Some?) :: n.records[i] == t.records[i])
              && n.records[id].revokedAt == (if t.records[id].revokedAt.Some? then t.records[id].revokedAt else Some(at))
  {
    if Revoke(t, id, at).Ok? {
      var n := Revoke(t, id, at).value;
      assert n.records[id].revokedAt.Some?;
      forall i | i in t.records && (i != id || t.records[i].revokedAt.Some?) ensures n.records[i] == t.records[i] {}
    }
  }

  /** The capability table, changed statement by statement. */
  class Repository {
    var table: Table

    constructor (table: Table)
      ensures this.table == table
    {
      this.table := table;
    }

    /** UPDATE ... SET revoked_at WHERE revoked_at IS NULL, under the check that a
        revocation does not precede its creation. */
    method MarkRevoked(current: Id, at: int) returns (ok: bool)
      requires current in table.records && table.records[current].revokedAt.None?
      modifies this
      ensures ok <==> at >= old(table).records[current].createdAt
      ensures table == if ok then Revoked(old(table), current, at) else old(table)
    {
      if at < table.records[current].createdAt { return false; }
      var record := table.records[current].(revokedAt := Some(at));
      table := table.(records := table.records[current := record]);
      return true;
    }

    /** RevokeCapability: COALESCE(revoked_at, at), under the same check; no row is NotFound. */
    method RevokeCapability(id: Id, at: int) returns (r: Result<(), Problem>)
      modifies this
      ensures var spec := Revoke(old(table), id, at);
              && (r.Ok? <==> spec.Ok?) && (r.Err? ==> r.error == spec.error)
              && table == if r.Ok? then spec.value else old(table)
    {
      if id !in table.records { return Err(NotFound); }
      if table.records[id].revokedAt.Some? { return Ok(()); }
      var marked := MarkRevoked(id, at);
      return if marked then Ok(()) else Err(Rejected);
    }

    /** INSERT under the unique KID and the unique rotated_from_id. */
    method Insert(id: Id, record: Record) returns (problem: Option<Problem>)
      requires id !in table.records && record.rotatedFrom.Some?
      modifies this
      ensures problem == if KidTaken(old(table), record.kid) then Some(KidConflict)
                         else if Succeeded(old(table), record.rotatedFrom.value) then Some(AlreadyRotated)
                         else None
      ensures table == if problem.None? then old(table).(records := old(table).records[id := record]) else old(table)
    {
      if KidTaken(table, record.kid) { return Some(KidConflict); }
      if Succeeded(table, record.rotatedFrom.value) { return Some(AlreadyRotated); }
      table := table.(records := table.records[id := record]);
      return None;
    }

    /** RotateCapability as its transaction runs: lock and check the current row, revoke
        it, insert the replacement, and roll back on any failure.  The old credential is
        revoked before the KID can conflict; the rollback restores it. */
    method RotateCapability(current: Id, id: Id, kid: string, digest: string, at: int) returns (r: Result<Id, Problem>)
      requires id !in table.records
      modifies this
      ensures var spec := Rotate(old(table), current, id, kid, digest, at);
              && (r.Ok? <==> spec.Ok?) && (r.Ok? ==> r.value == id && table == spec.value)
              && (r.Err? ==> r.error == spec.error && table == old(table))
    {
      var begun := table;
      if current !in table.records || table.records[current].inbox !in table.inboxes { return Err(NotFound); }
      var record, inbox := table.records[current], table.inboxes[table.records[current].inbox];
      if record.revokedAt.Some? { return Err(AlreadyRotated); }
      if !inbox.active || at >= record.expiresAt || at >= inbox.expiresAt { return Err(Unauthenticated); }
      RevokedKeepsKeys(table, current, at, kid);
      var revoked := MarkRevoked(current, at);
      if !revoked {
        table := begun;
        return Err(Rejected);
      }
      var problem := Insert(id, Replacement(record, current, kid, digest, at));
      if problem.Some? {
        table := begun;
        return Err(problem.value);
      }
      return Ok(id);
    }

    /** resolve: look the KID up, compare the digest, and check that credential and
        Inbox are live. */
    method Resolve(kid: string, digest: string, now: int) returns (found: Option<Id>)
      requires KidsUnique(table.records)
      ensures found.Some? ==> Authenticates(table, found.value, kid, digest, now)
      ensures found.None? ==> forall i :: !Authenticates(table, i, kid, digest, now)
    {
      var rows := set i | i in table.records && table.records[i].kid == kid;
      if rows == {} {
        assert forall i | i in table.records && table.records[i].kid == kid :: i in rows;
        return None;
      }
      var id :| id in rows;
      if Authenticates(table, id, kid, digest, now) { return Some(id); }
      return None;
    }

    /** CapabilityService.Rotate: resolve the presented credential, then try up to three
        candidates, each its own transaction at its own time.  The rotation is the first
        candidate whose KID is free, or the table is as it was. */
    method Rotate3(kid: string, digest: string, now: int, tries: seq<Candidate>) returns (r: Result<Id, Problem>)
      requires KidsUnique(table.records) && |tries| == 3 && forall n | 0 <= n < 3 :: tries[n].id !in table.records
      modifies this
      ensures r.Err? ==> table == old(table)
      ensures (forall i :: !Authenticates(old(table), i, kid, digest, now)) ==> r == Err(Unauthenticated)
      ensures r.Ok? ==> exists current, n | 0 <= n < 3 ::
                && Authenticates(old(table), current, kid, digest, now)
                && Attempt(old(table), current, tries[n]) == Ok(table) && r.value == tries[n].id
                && Taken(old(table), current, tries[..n])
      ensures r == Err(KidConflict) ==>
                exists current :: Authenticates(old(table), current, kid, digest, now) && Taken(old(table), current, tries)
    {
      var found := Resolve(kid, digest, now);
      if found.None? { return Err(Unauthenticated); }
      var current := found.value;
      for n := 0 to 3
        invariant table == old(table) && Taken(table, current, tries[..n])
      {
        var c := tries[n];
        r := RotateCapability(current, c.id, c.kid, c.digest, c.at);
        if r != Err(KidConflict) {
          assert r.Ok? ==> Attempt(old(table), current, tries[n]) == Ok(table);
          return;
        }
        assert tries[..n + 1] == tries[..n] + [c];
      }
      assert tries[..3] == tries;
      return Err(KidConflict);
    }
  }

  /** A generated replacement and the time it is tried at. */
  datatype Candidate = Candidate(id: Id, kid: string, digest: string, at: int)

  function Attempt(t: Table, current: Id, c: Candidate): Result<Table, Problem> {
    Rotate(t, current, c.id, c.kid, c.digest, c.at)
  }

  predicate Taken(t: Table, current: Id, tries: seq<Candidate>) {
    forall n | 0 <= n < |tries| :: Attempt(t, current, tries[n]) == Err(KidConflict)
  }
}
