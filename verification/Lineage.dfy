/** Rotation lineages over every run of the capability table. */
module Lineage {
  import opened Common
  import opened Capability

  /** Position of a credential: the issued one it descends from, and how many
      rotations away. */
  datatype Place = Place(root: Id, index: nat)

  /** The table, every id ever used and, as history, each credential's place. */
  datatype State = State(table: Table, used: set<Id>, home: map<Id, Place>)

  const EMPTY := State(Table(map[], map[]), {}, map[])

  datatype Action =
    | Issue(id: Id, inbox: InboxId, kid: string, digest: string, scopes: int, createdAt: int, expiresAt: int)
    | Renew(current: Id, id: Id, kid: string, digest: string, at: int)
    | Withdraw(id: Id, at: int)
    | SetInbox(inbox: InboxId, row: Inbox)
    | Drop(gone: set<InboxId>)

  /** Ids are database-generated and never reused. */
  predicate Enabled(s: State, a: Action) {
    (a.Issue? || a.Renew?) ==> a.id !in s.used
  }

  /** The transaction each action runs; a failed one leaves the table alone. */
  function Outcome(t: Table, a: Action): Result<Table, Problem> {
    match a
    case Issue(id, inbox, kid, digest, scopes, createdAt, expiresAt) =>
      Create(t, id, inbox, kid, digest, scopes, createdAt, expiresAt)
    case Renew(current, id, kid, digest, at) => Rotate(t, current, id, kid, digest, at)
    case Withdraw(id, at) => Revoke(t, id, at)
    case SetInbox(inbox, row) => Ok(t.(inboxes := t.inboxes[inbox := row]))
    case Drop(gone) => Ok(DropInboxes(t, gone))
  }

  function Next(s: State, a: Action): State {
    match Outcome(s.table, a)
    case Err(_) => s
    case Ok(t) =>
      match a
      case Issue(id, _, _, _, _, _, _) => State(t, s.used + {id}, s.home[id := Place(id, 0)])
      case Renew(current, id, _, _, _) =>
        var after := if current in s.home then Place(s.home[current].root, s.home[current].index + 1) else Place(id, 0);
        State(t, s.used + {id}, s.home[id := after])
      case Drop(_) => State(t, s.used, map i | i in s.home && i in t.records :: s.home[i])
      case _ => s.(table := t)
  }

  predicate Run(states: seq<State>, actions: seq<Action>) {
    && |states| == |actions| + 1
    && states[0] == EMPTY
    && forall i | 0 <= i < |actions| :: Enabled(states[i], actions[i]) && states[i + 1] == Next(states[i], actions[i])
  }

  // ----- the invariant ---------------------------------------------------------------

  predicate Alike(x: Record, y: Record) {
    x.inbox == y.inbox && x.scopes == y.scopes && x.expiresAt == y.expiresAt
  }

  /** A first member was issued; any other rotated from its predecessor, which is
      revoked and has the same Inbox, scopes and expiry. */
  ghost predicate Linked(records: map<Id, Record>, home: map<Id, Place>, x: Id)
    requires x in records && x in home
  {
    if home[x].index == 0 then home[x].root == x && records[x].rotatedFrom == None
    else
      && records[x].rotatedFrom.Some?
      && var p := records[x].rotatedFrom.value;
         && p in records && p in home && home[p] == Place(home[x].root, home[x].index - 1)
         && Alike(records[x], records[p]) && records[p].revokedAt.Some?
  }

  ghost predicate Sound(s: State) {
    && s.home.Keys == s.table.records.Keys && s.home.Keys <= s.used
    && (forall x {:trigger Linked(s.table.records, s.home, x)} | x in s.table.records ::
          Linked(s.table.records, s.home, x))
    && PlacesDistinct(s.home) && RootsUsed(s.home, s.used)
    && KidsUnique(s.table.records)
  }

  ghost predicate PlacesDistinct(home: map<Id, Place>) {
    forall x, y | x in home && y in home && home[x] == home[y] :: x == y
  }

  ghost predicate RootsUsed(home: map<Id, Place>, used: set<Id>) {
    forall x | x in home :: home[x].root in used
  }

  lemma IssueKeepsLinks(s: State, a: Action, x: Id)
    requires Sound(s) && a.Issue? && Enabled(s, a) && Outcome(s.table, a).Ok? && x in Next(s, a).table.records
    ensures x in Next(s, a).home && Linked(Next(s, a).table.records, Next(s, a).home, x)
  {
    if x in s.table.records { assert Linked(s.table.records, s.home, x); }
  }

  lemma IssueKeepsPlaces(s: State, a: Action)
    requires Sound(s) && a.Issue? && Enabled(s, a) && Outcome(s.table, a).Ok?
    ensures var n := Next(s, a);
            && n.home.Keys == n.table.records.Keys && n.home.Keys <= n.used
            && PlacesDistinct(n.home) && RootsUsed(n.home, n.used) && KidsUnique(n.table.records)
  {
  }

  lemma IssueKeepsSound(s: State, a: Action)
    requires Sound(s) && a.Issue? && Enabled(s, a)
    ensures Sound(Next(s, a))
  {
    if Outcome(s.table, a).Ok? {
      var n := Next(s, a);
      IssueKeepsPlaces(s, a);
      forall x | x in n.table.records ensures Linked(n.table.records, n.home, x) { IssueKeepsLinks(s, a, x); }
    }
  }

  /** Nobody sits where the replacement of a live credential goes: that would make
      the current credential revoked. */
  lemma PlaceIsFree(s: State, current: Id, y: Id)
    requires Sound(s) && current in s.table.records && s.table.records[current].revokedAt.None? && y in s.home
    ensures s.home[y] != Place(s.home[current].root, s.home[current].index + 1)
  {
    assert Linked(s.table.records, s.home, y);
  }

  lemma RenewKeepsLinks(s: State, a: Action, x: Id)
    requires Sound(s) && a.Renew? && Enabled(s, a) && Outcome(s.table, a).Ok?
    requires x in Next(s, a).table.records
    ensures x in Next(s, a).home && Linked(Next(s, a).table.records, Next(s, a).home, x)
  {
    if x in s.table.records {
      assert Linked(s.table.records, s.home, x);
    }
  }

  lemma RenewKeepsKids(t: Table, a: Action)
    requires KidsUnique(t.records) && a.Renew? && a.id !in t.records && Outcome(t, a).Ok?
    ensures KidsUnique(Outcome(t, a).value.records)
  {
  }

  lemma RenewKeepsPlaces(s: State, a: Action)
    requires Sound(s) && a.Renew? && Enabled(s, a) && Outcome(s.table, a).Ok?
    ensures var n := Next(s, a);
            && n.home.Keys == n.table.records.Keys && n.home.Keys <= n.used
            && PlacesDistinct(n.home) && RootsUsed(n.home, n.used)
  {
    var place := Place(s.home[a.current].root, s.home[a.current].index + 1);
    forall y | y in s.home ensures s.home[y] != place {
      PlaceIsFree(s, a.current, y);
    }
    assert Next(s, a).home == s.home[a.id := place];
    assert Next(s, a).table.records.Keys == s.table.records.Keys + {a.id};
  }

  lemma RenewKeepsSound(s: State, a: Action)
    requires Sound(s) && a.Renew? && Enabled(s, a)
    ensures Sound(Next(s, a))
  {
    if Outcome(s.table, a).Ok? {
      var n := Next(s, a);
      RenewKeepsPlaces(s, a);
      RenewKeepsKids(s.table, a);
      assert n.table == Outcome(s.table, a).value;
      forall x | x in n.table.records ensures Linked(n.table.records, n.home, x) {
        RenewKeepsLinks(s, a, x);
      }
    }
  }

  lemma RevokingKeepsLink(s: State, id: Id, at: int, x: Id)
    requires Sound(s) && id in s.table.records && x in s.table.records
    ensures Linked(Revoked(s.table, id, at).records, s.home, x)
  {
    assert Linked(s.table.records, s.home, x);
  }

  lemma RevokingKeepsSound(s: State, a: Action)
    requires Sound(s) && a.Withdraw?
    ensures Sound(Next(s, a))
  {
    if Outcome(s.table, a).Ok? {
      var records := Revoked(s.table, a.id, a.at).records;
      assert records.Keys == s.table.records.Keys;
      forall x | x in records ensures Linked(records, s.home, x) { RevokingKeepsLink(s, a.id, a.at, x); }
      assert KidsUnique(records);
    }
  }

  lemma DropKeepsLink(s: State, a: Action, x: Id)
    requires Sound(s) && a.Drop? && x in Next(s, a).table.records
    ensures x in Next(s, a).home && Linked(Next(s, a).table.records, Next(s, a).home, x)
  {
    assert Linked(s.table.records, s.home, x);
  }

  lemma DropKeepsSound(s: State, a: Action)
    requires Sound(s) && a.Drop?
    ensures Sound(Next(s, a))
  {
    var n := Next(s, a);
    forall x | x in n.table.records ensures Linked(n.table.records, n.home, x) { DropKeepsLink(s, a, x); }
  }

  /** Every transaction keeps every lineage a path with one live end. */
  lemma StepKeepsSound(s: State, a: Action)
    requires Sound(s) && Enabled(s, a)
    ensures Sound(Next(s, a))
  {
    match a
    case Issue(_, _, _, _, _, _, _) => IssueKeepsSound(s, a);
    case Renew(_, _, _, _, _) => RenewKeepsSound(s, a);
    case Withdraw(_, _) => RevokingKeepsSound(s, a);
    case Drop(_) => DropKeepsSound(s, a);
    case SetInbox(_, _) =>
  }

  lemma {:induction false} RunsAreSound(states: seq<State>, actions: seq<Action>, n: nat)
    requires Run(states, actions) && n < |states|
    ensures Sound(states[n])
  {
    if n > 0 {
      RunsAreSound(states, actions, n - 1);
      StepKeepsSound(states[n - 1], actions[n - 1]);
    }
  }

  // ----- what it means on the table alone ------------------------------------------

  /** `id` was reached from `root` by `n` rotations, as rotated_from_id records. */
  ghost predicate Descends(t: Table, root: Id, id: Id, n: nat)
    decreases n
  {
    && id in t.records
    && if n == 0 then id == root
       else t.records[id].rotatedFrom.Some? && Descends(t, root, t.records[id].rotatedFrom.value, n - 1)
  }

  lemma {:induction false} DescentIsPlace(s: State, root: Id, id: Id, n: nat)
    requires Sound(s) && Descends(s.table, root, id, n)
    ensures root in s.home && id in s.home
    ensures s.home[id] == Place(s.home[root].root, s.home[root].index + n)
    ensures Alike(s.table.records[id], s.table.records[root])
    ensures n > 0 ==> s.table.records[root].revokedAt.Some?
    decreases n
  {
    assert Linked(s.table.records, s.home, id);
    if n > 0 {
      DescentIsPlace(s, root, s.table.records[id].rotatedFrom.value, n - 1);
    }
  }

  /** Between two descendants of one credential, one descends from the other. */
  lemma {:induction false} DescentIsLinear(s: State, root: Id, x: Id, m: nat, y: Id, n: nat)
    requires Sound(s) && Descends(s.table, root, x, m) && Descends(s.table, root, y, n) && m <= n
    ensures Descends(s.table, x, y, n - m)
    decreases n
  {
    DescentIsPlace(s, root, x, m);
    DescentIsPlace(s, root, y, n);
    if n > m {
      assert Linked(s.table.records, s.home, y);
      DescentIsLinear(s, root, x, m, s.table.records[y].rotatedFrom.value, n - 1);
    }
  }

  /** In every run: the descendants of one credential form a path, at most one of
      them is unrevoked, and all share Inbox, scopes and expiry. */
  lemma OneLiveDescendant(states: seq<State>, actions: seq<Action>, k: nat, root: Id, x: Id, m: nat, y: Id, n: nat)
    requires Run(states, actions) && k < |states|
    requires Descends(states[k].table, root, x, m) && Descends(states[k].table, root, y, n)
    ensures m == n ==> x == y
    ensures m < n ==> Descends(states[k].table, x, y, n - m)
    ensures Alike(states[k].table.records[x], states[k].table.records[y])
    ensures states[k].table.records[x].revokedAt.None? && states[k].table.records[y].revokedAt.None? ==> x == y
  {
    var s := states[k];
    RunsAreSound(states, actions, k);
    DescentIsPlace(s, root, x, m);
    DescentIsPlace(s, root, y, n);
    if m <= n {
      DescentIsLinear(s, root, x, m, y, n);
      DescentIsPlace(s, x, y, n - m);
    } else {
      DescentIsLinear(s, root, y, n, x, m);
      DescentIsPlace(s, y, x, m - n);
    }
  }

  /** The unique rotated_from_id never refuses a rotation: a live credential has no
      successor. */
  lemma LiveHasNoSuccessor(s: State, current: Id)
    requires Sound(s) && current in s.table.records && s.table.records[current].revokedAt.None?
    ensures !Succeeded(s.table, current)
  {
    forall x | x in s.table.records ensures s.table.records[x].rotatedFrom != Some(current) {
      assert Linked(s.table.records, s.home, x);
    }
  }

  /** Revocation is for good: a revoked credential never authenticates again. */
  lemma RevokedStaysRevoked(s: State, a: Action, id: Id)
    requires Sound(s) && Enabled(s, a) && id in s.used
    requires id !in s.table.records || s.table.records[id].revokedAt.Some?
    ensures var n := Next(s, a);
            && id in n.used
            && (id !in n.table.records || n.table.records[id].revokedAt.Some?)
            && forall kid, digest, now :: !Authenticates(n.table, id, kid, digest, now)
  {
  }

  /** A successful rotation hands the lineage over: the old credential stops
      authenticating and the new one does, with the same Inbox, scopes and expiry. */
  lemma RotationHandsOver(t: Table, current: Id, id: Id, kid: string, digest: string, at: int)
    requires Rotate(t, current, id, kid, digest, at).Ok? && id !in t.records
    ensures var n := Rotate(t, current, id, kid, digest, at).value;
            && Authenticates(n, id, kid, digest, at)
            && (forall k, d, now :: !Authenticates(n, current, k, d, now))
            && Alike(n.records[id], t.records[current]) && n.records[id].createdAt == at
            && n.records[current].revokedAt == Some(at)
            && Descends(n, current, id, 1)
            && forall other, k, d, now | other != current && other != id ::
                 Authenticates(n, other, k, d, now) <==> Authenticates(t, other, k, d, now)
  {
  }
}
