/** Disk capacity: the reservation counter of the content store in 64-bit
    arithmetic, and the free-space floor it defends. */
module Capacity {
  const MAX_INT64: int := 0x7FFF_FFFF_FFFF_FFFF

  newtype int64 = x: int | -0x8000_0000_0000_0000 <= x <= 0x7FFF_FFFF_FFFF_FFFF

  /** Free bytes as the check sees them: an unsigned reading capped at MaxInt64. */
  function Seen(available: nat): (r: int)
    ensures 0 <= r <= available
  {
    if available <= MAX_INT64 then available else MAX_INT64
  }

  /** Enough for the floor, every live reservation and one more. */
  predicate Admits(available: nat, minFree: nat, maxBytes: nat, live: nat) {
    Seen(available) >= minFree + maxBytes * live + maxBytes
  }

  class Reservations {
    const maxBytes: int64
    const minFree: int64
    var reserved: int64
    ghost var live: nat

    constructor (maxBytes: int64, minFree: int64)
      requires maxBytes > 0 && minFree >= 0
      ensures Valid() && live == 0 && this.maxBytes == maxBytes && this.minFree == minFree
    {
      this.maxBytes, this.minFree := maxBytes, minFree;
      reserved, live := 0, 0;
    }

    /** The counter is exactly one maximum-size object per live reservation. */
    ghost predicate Valid()
      reads this
    {
      maxBytes > 0 && minFree >= 0 && reserved as int == maxBytes as int * live
    }

    /** checkCapacityLocked: no subtraction leaves the int64 range. */
    method Check(available: nat) returns (ok: bool)
      requires Valid()
      ensures ok <==> Admits(available, minFree as int, maxBytes as int, live)
    {
      var seen: int64 := if available <= MAX_INT64 then available as int64 else 0x7FFF_FFFF_FFFF_FFFF;
      if seen < minFree { return false; }
      if reserved > seen - minFree { return false; }
      if maxBytes > seen - minFree - reserved { return false; }
      return true;
    }

    /** reserve: the addition cannot overflow once the check has passed. */
    method Reserve(available: nat) returns (ok: bool)
      requires Valid()
      modifies this
      ensures Valid()
      ensures ok <==> Admits(available, minFree as int, maxBytes as int, old(live))
      ensures live == old(live) + if ok then 1 else 0
    {
      ok := Check(available);
      if ok {
        reserved := reserved + maxBytes;
        live := live + 1;
      }
    }

    /** The release closure, which runs once per reservation. */
    method Release()
      requires Valid() && live > 0
      modifies this
      ensures Valid() && live == old(live) - 1
    {
      assert reserved as int == maxBytes as int * (live - 1) + maxBytes as int;
      reserved := reserved - maxBytes;
      live := live - 1;
    }
  }

  // ----- the floor over every run --------------------------------------------------

  datatype Config = Config(maxBytes: nat, minFree: nat)

  predicate ValidConfig(c: Config) {
    0 < c.maxBytes <= MAX_INT64
  }

  /** How much one put may write: io.LimitReader with maxBytes+1, where the sum
      wraps to a negative limit for the largest int64. */
  function CopyLimit(c: Config): nat
    requires ValidConfig(c)
  {
    if c.maxBytes < MAX_INT64 then c.maxBytes + 1 else 0
  }

  /** The file system's bytes: free, in objects, in the staging file of each admitted put,
      and in each staging file no put owns any more. */
  datatype State = State(free: int, stored: nat, puts: seq<nat>, left: seq<nat>)

  datatype Action =
    | Admit               // reserve succeeds
    | Write(i: nat, n: nat)
    | Install(i: nat)     // the staging file becomes an object; its bytes stay
    | Discard(i: nat)     // duplicate, oversized or failed: staging removed first
    | Abandon(i: nat)     // the put ends, but removing its staging file fails
    | Crash               // every put ends and leaves its staging file
    | Prune(i: nat)       // a staging file left behind is removed
    | FreeUp(n: nat)      // an object is deleted

  predicate Enabled(c: Config, s: State, a: Action)
    requires ValidConfig(c)
  {
    match a
    case Admit => s.free >= 0 && Admits(s.free, c.minFree, c.maxBytes, |s.puts|)
    case Write(i, n) => i < |s.puts| && s.puts[i] + n <= CopyLimit(c)
    case Install(i) => i < |s.puts| && s.puts[i] <= c.maxBytes
    case Discard(i) => i < |s.puts|
    case Abandon(i) => i < |s.puts|
    case Crash => true
    case Prune(i) => i < |s.left|
    case FreeUp(n) => n <= s.stored
  }

  function Oversized(c: Config, puts: seq<nat>): nat {
    if puts == [] then 0 else (if puts[0] > c.maxBytes then 1 else 0) + Oversized(c, puts[1..])
  }

  function Without(s: seq<nat>, i: nat): seq<nat>
    requires i < |s|
  {
    s[..i] + s[i + 1..]
  }

  function Next(c: Config, s: State, a: Action): State
    requires ValidConfig(c) && Enabled(c, s, a)
  {
    match a
    case Admit => s.(puts := s.puts + [0])
    case Write(i, n) => s.(free := s.free - n, puts := s.puts[i := s.puts[i] + n])
    case Install(i) => s.(stored := s.stored + s.puts[i], puts := Without(s.puts, i))
    case Discard(i) => s.(free := s.free + s.puts[i], puts := Without(s.puts, i))
    case Abandon(i) => s.(puts := Without(s.puts, i), left := s.left + [s.puts[i]])
    case Crash => s.(puts := [], left := s.left + s.puts)
    case Prune(i) => s.(free := s.free + s.left[i], left := Without(s.left, i))
    case FreeUp(n) => s.(free := s.free + n, stored := s.stored - n)
  }

  function Sum(puts: seq<nat>): nat {
    if puts == [] then 0 else puts[0] + Sum(puts[1..])
  }

  ghost predicate Run(c: Config, states: seq<State>, actions: seq<Action>)
    requires ValidConfig(c)
  {
    && |states| == |actions| + 1
    && states[0].puts == []
    && forall i | 0 <= i < |actions| ::
         Enabled(c, states[i], actions[i]) && states[i + 1] == Next(c, states[i], actions[i])
  }

  /** What the live puts may still write within their maximum; one byte less than
      nothing for a put that is reading the byte that proves it oversized. */
  function Headroom(c: Config, puts: seq<nat>): int {
    if puts == [] then 0 else c.maxBytes - puts[0] + Headroom(c, puts[1..])
  }

  lemma {:induction false} HeadroomAppend(c: Config, a: seq<nat>, b: seq<nat>)
    ensures Headroom(c, a + b) == Headroom(c, a) + Headroom(c, b)
  {
    if a == [] {
      assert a + b == b;
    } else {
      HeadroomAppend(c, a[1..], b);
      assert (a + b)[1..] == a[1..] + b;
    }
  }

  lemma HeadroomSplit(c: Config, puts: seq<nat>, i: nat)
    requires i < |puts|
    ensures Headroom(c, puts) == Headroom(c, Without(puts, i)) + c.maxBytes - puts[i]
  {
    assert puts == puts[..i] + ([puts[i]] + puts[i + 1..]);
    HeadroomAppend(c, puts[..i], [puts[i]] + puts[i + 1..]);
    HeadroomAppend(c, [puts[i]], puts[i + 1..]);
    HeadroomAppend(c, puts[..i], puts[i + 1..]);
    assert Headroom(c, [puts[i]]) == c.maxBytes - puts[i];
  }

  lemma {:induction false} HeadroomBounds(c: Config, puts: seq<nat>)
    requires ValidConfig(c) && forall i | 0 <= i < |puts| :: puts[i] <= CopyLimit(c)
    ensures -(Oversized(c, puts) as int) <= Headroom(c, puts) <= c.maxBytes * |puts|
  {
    if puts != [] {
      HeadroomBounds(c, puts[1..]);
      assert c.maxBytes * |puts| == c.maxBytes * |puts[1..]| + c.maxBytes;
    }
  }

  lemma {:induction false} OversizedAppend(c: Config, a: seq<nat>, b: seq<nat>)
    ensures Oversized(c, a + b) == Oversized(c, a) + Oversized(c, b)
  {
    if a == [] {
      assert a + b == b;
    } else {
      OversizedAppend(c, a[1..], b);
      assert (a + b)[1..] == a[1..] + b;
    }
  }

  lemma OversizedSplit(c: Config, files: seq<nat>, i: nat)
    requires i < |files|
    ensures Oversized(c, files) == Oversized(c, Without(files, i)) + if files[i] > c.maxBytes then 1 else 0
  {
    Around(files, i);
    OversizedAppend(c, files[..i], [files[i]] + files[i + 1..]);
    OversizedAppend(c, [files[i]], files[i + 1..]);
    OversizedAppend(c, files[..i], files[i + 1..]);
    OversizedOne(c, files[i]);
  }

  lemma OversizedOne(c: Config, n: nat)
    ensures Oversized(c, [n]) == if n > c.maxBytes then 1 else 0
  {
    assert [n][1..] == [];
  }

  lemma {:induction false} SumAppend(a: seq<nat>, b: seq<nat>)
    ensures Sum(a + b) == Sum(a) + Sum(b)
  {
    if a == [] {
      assert a + b == b;
    } else {
      SumAppend(a[1..], b);
      assert (a + b)[1..] == a[1..] + b;
    }
  }

  lemma Around(puts: seq<nat>, i: nat)
    requires i < |puts|
    ensures puts == puts[..i] + ([puts[i]] + puts[i + 1..])
  {
  }

  lemma SumOne(n: nat, rest: seq<nat>)
    ensures Sum([n] + rest) == n + Sum(rest)
  {
    assert ([n] + rest)[1..] == rest;
  }

  lemma SumSplit(puts: seq<nat>, i: nat)
    requires i < |puts|
    ensures Sum(puts) == Sum(Without(puts, i)) + puts[i]
  {
    Around(puts, i);
    SumAppend(puts[..i], [puts[i]] + puts[i + 1..]);
    SumOne(puts[i], puts[i + 1..]);
    SumAppend(puts[..i], puts[i + 1..]);
  }

  function Total(s: State): int { s.free + s.stored + Sum(s.puts) + Sum(s.left) }

  /** No byte appears or vanishes: what a step takes from one place it puts in another, and
      admitting, installing, discarding, abandoning and crashing move whole staging files. */
  lemma StepConserves(c: Config, s: State, a: Action)
    requires ValidConfig(c) && Enabled(c, s, a)
    ensures Total(Next(c, s, a)) == Total(s)
    ensures match a
            case Admit => |Next(c, s, a).puts| == |s.puts| + 1
            case Install(_) => |Next(c, s, a).puts| == |s.puts| - 1
            case Discard(_) => |Next(c, s, a).puts| == |s.puts| - 1
            case Abandon(_) => |Next(c, s, a).puts| == |s.puts| - 1
            case Crash => |Next(c, s, a).puts| == 0
            case _ => |Next(c, s, a).puts| == |s.puts|
    ensures match a
            case Abandon(_) => |Next(c, s, a).left| == |s.left| + 1
            case Crash => |Next(c, s, a).left| == |s.left| + |s.puts|
            case Prune(_) => |Next(c, s, a).left| == |s.left| - 1
            case _ => Next(c, s, a).left == s.left
  {
    match a
    case Admit =>
      SumAppend(s.puts, [0]);
      assert [0][1..] == [];
    case Write(i, n) =>
      var more := s.puts[i := s.puts[i] + n];
      SumSplit(s.puts, i);
      SumSplit(more, i);
      assert Without(more, i) == Without(s.puts, i);
    case Install(i) => SumSplit(s.puts, i);
    case Discard(i) => SumSplit(s.puts, i);
    case Abandon(i) =>
      SumSplit(s.puts, i);
      SumAppend(s.left, [s.puts[i]]);
      assert [s.puts[i]][1..] == [];
    case Crash => SumAppend(s.left, s.puts);
    case Prune(i) => SumSplit(s.left, i);
    case _ =>
  }

  lemma {:induction false} RunsConserve(c: Config, states: seq<State>, actions: seq<Action>, n: nat)
    requires ValidConfig(c) && Run(c, states, actions) && n < |states|
    ensures Total(states[n]) == Total(states[0])
  {
    if n > 0 {
      RunsConserve(c, states, actions, n - 1);
      StepConserves(c, states[n - 1], actions[n - 1]);
    }
  }

  function Floor(c: Config, start: int): int {
    if start < c.minFree then start else c.minFree
  }

  ghost predicate Guarded(c: Config, start: int, s: State)
    requires ValidConfig(c)
  {
    && (forall i | 0 <= i < |s.puts| :: s.puts[i] <= CopyLimit(c))
    && s.free >= Floor(c, start) + Headroom(c, s.puts) - Oversized(c, s.left)
  }

  lemma AdmitKeepsGuard(c: Config, start: int, s: State)
    requires ValidConfig(c) && Guarded(c, start, s) && Enabled(c, s, Admit)
    ensures Guarded(c, start, Next(c, s, Admit))
  {
    HeadroomBounds(c, s.puts);
    HeadroomAppend(c, s.puts, [0]);
    assert Headroom(c, [0]) == c.maxBytes;
  }

  lemma WriteKeepsGuard(c: Config, start: int, s: State, i: nat, n: nat)
    requires ValidConfig(c) && Guarded(c, start, s) && Enabled(c, s, Write(i, n))
    ensures Guarded(c, start, Next(c, s, Write(i, n)))
  {
    var more := s.puts[i := s.puts[i] + n];
    HeadroomSplit(c, s.puts, i);
    HeadroomSplit(c, more, i);
    assert Without(more, i) == Without(s.puts, i);
  }

  lemma AbandonKeepsGuard(c: Config, start: int, s: State, i: nat)
    requires ValidConfig(c) && Guarded(c, start, s) && Enabled(c, s, Abandon(i))
    ensures Guarded(c, start, Next(c, s, Abandon(i)))
  {
    HeadroomSplit(c, s.puts, i);
    OversizedAppend(c, s.left, [s.puts[i]]);
    OversizedOne(c, s.puts[i]);
  }

  lemma CrashKeepsGuard(c: Config, start: int, s: State)
    requires ValidConfig(c) && Guarded(c, start, s)
    ensures Guarded(c, start, Next(c, s, Crash))
  {
    HeadroomBounds(c, s.puts);
    OversizedAppend(c, s.left, s.puts);
  }

  lemma StepKeepsGuard(c: Config, start: int, s: State, a: Action)
    requires ValidConfig(c) && Guarded(c, start, s) && Enabled(c, s, a)
    ensures Guarded(c, start, Next(c, s, a))
  {
    match a
    case Admit => AdmitKeepsGuard(c, start, s);
    case Write(i, n) => WriteKeepsGuard(c, start, s, i, n);
    case Install(i) => HeadroomSplit(c, s.puts, i);
    case Discard(i) => HeadroomSplit(c, s.puts, i);
    case Abandon(i) => AbandonKeepsGuard(c, start, s, i);
    case Crash => CrashKeepsGuard(c, start, s);
    case Prune(i) => OversizedSplit(c, s.left, i);
    case _ =>
  }

  lemma {:induction false} RunsAreGuarded(c: Config, states: seq<State>, actions: seq<Action>, n: nat)
    requires ValidConfig(c) && Run(c, states, actions) && n < |states|
    ensures Guarded(c, states[0].free, states[n])
  {
    if n > 0 {
      RunsAreGuarded(c, states, actions, n - 1);
      StepKeepsGuard(c, states[0].free, states[n - 1], actions[n - 1]);
    }
  }

  /** If only admitted puts consume disk, free space never falls below the floor (or
      where it started, if lower) by more than one byte per put in flight that is
      reading past its maximum and per oversized staging file left behind. */
  lemma FloorHolds(c: Config, states: seq<State>, actions: seq<Action>, n: nat)
    requires ValidConfig(c) && Run(c, states, actions) && n < |states|
    ensures states[n].free >= Floor(c, states[0].free) - Oversized(c, states[n].puts) - Oversized(c, states[n].left)
  {
    RunsAreGuarded(c, states, actions, n);
    HeadroomBounds(c, states[n].puts);
  }

  /** The bound is reached: one admitted put reading its extra byte takes free space one
      below the floor, and if its staging file stays it remains there with no put left. */
  lemma FloorIsTight(c: Config) returns (states: seq<State>, actions: seq<Action>)
    requires ValidConfig(c) && c.minFree + c.maxBytes < MAX_INT64
    ensures Run(c, states, actions) && |states| == 4
    ensures states[0].free >= c.minFree && states[2].free == c.minFree - 1
    ensures Oversized(c, states[2].puts) == 1 && states[2].left == []
    ensures states[3] == State(c.minFree - 1, 0, [], [c.maxBytes + 1]) && Oversized(c, states[3].left) == 1
  {
    var s0 := State(c.minFree + c.maxBytes, 0, [], []);
    var s1 := s0.(puts := [0]);
    var s2 := State(c.minFree - 1, 0, [c.maxBytes + 1], []);
    var s3 := State(c.minFree - 1, 0, [], [c.maxBytes + 1]);
    assert s0.puts + [0] == [0];
    assert [0][0 := c.maxBytes + 1] == [c.maxBytes + 1];
    OversizedOne(c, c.maxBytes + 1);
    assert s2.left + [s2.puts[0]] == s3.left && Without(s2.puts, 0) == [];
    states, actions := [s0, s1, s2, s3], [Admit, Write(0, c.maxBytes + 1), Abandon(0)];
  }
}
