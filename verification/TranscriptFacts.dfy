/** What every legal session transcript guarantees: clean Receive calls, exactly one
    final reply per listed Inbox, when that is one per accepted RCPT, and what a 250
    after DATA means. */
module TranscriptFacts {
  import opened Common
  import opened DataReader
  import opened DataTransparency
  import opened Transcript

  // ----- the transaction a Receive belongs to -------------------------------------

  predicate Clears(e: Event) {
    e.Greeted? || e.Began? || e.Reset? || e.Closed?
  }

  /** Inbox x was looked up in the transaction that began at entry b. */
  predicate LookedUp(log: seq<Event>, b: nat, n: nat, x: InboxId)
    requires n <= |log|
  {
    exists j | b < j < n :: log[j].Resolved? && log[j].recipient.inbox == x
  }

  lemma OpenStep(s: Standing, e: Event, rules: Rules, x: InboxId)
    requires Step(s, e, rules).open.Some? && !e.Began?
    ensures !Clears(e) && s.open == Step(s, e, rules).open && s.declared == Step(s, e, rules).declared
    ensures Names(Step(s, e, rules).resolutions, x) ==> Names(s.resolutions, x) || (e.Resolved? && e.recipient.inbox == x)
  {
    if e.Resolved? { NamesSnoc(s.resolutions, e.recipient, x); }
  }

  /** The open transaction began at some MAIL, and everything resolved is since then. */
  lemma {:induction false} OpenSince(log: seq<Event>, n: nat, rules: Rules) returns (b: nat)
    requires n <= |log| && After(log, n, rules).open.Some?
    ensures b < n && log[b] == Began(After(log, n, rules).open.value, After(log, n, rules).declared)
    ensures forall j | b < j < n :: !Clears(log[j])
    ensures forall x | Names(After(log, n, rules).resolutions, x) :: LookedUp(log, b, n, x)
  {
    var s, e := After(log, n - 1, rules), log[n - 1];
    if e.Began? {
      b := n - 1;
    } else {
      OpenStep(s, e, rules, 0);
      b := OpenSince(log, n - 1, rules);
      forall x | Names(After(log, n, rules).resolutions, x) ensures LookedUp(log, b, n, x) {
        OpenStep(s, e, rules, x);
        if Names(s.resolutions, x) { assert LookedUp(log, b, n - 1, x); }
      }
    }
  }

  lemma RecipientsResolved(s: Standing, rules: Rules, x: InboxId)
    requires x in Inboxes(Recipients(s, rules))
    ensures Names(s.resolutions, x)
  {
    var kept := Recipients(s, rules);
    var p :| 0 <= p < |kept| && kept[p].inbox == x;
    assert FirstOfEach(s.resolutions)[p] == kept[p];
    FirstOfEachNames(s.resolutions, x);
  }

  lemma AllowedAt(log: seq<Event>, rules: Rules, i: nat)
    requires Legal(log, rules) && i < |log|
    ensures Allowed(After(log, i, rules), log[i], rules)
  {
    assert LegalAt(log, rules, i);
  }

  /** Only Receive is called where a Receive is due. */
  lemma ReceiveAt(log: seq<Event>, rules: Rules, i: nat)
    requires Legal(log, rules) && i < |log| && log[i].Received?
    ensures var s := After(log, i, rules);
            && s.phase == Ready && s.open == Some(log[i].sender)
            && log[i].inboxes == Inboxes(Recipients(s, rules)) && log[i].inboxes != []
  {
    AllowedAt(log, rules, i);
  }

  /** Each Receive call carries the sender of the MAIL of its own transaction and a
      non-empty, duplicate-free list of at most maxRecipients Inboxes, all looked up
      since; nothing cleared the transaction in between. */
  lemma ReceiveIsClean(log: seq<Event>, rules: Rules, i: nat) returns (b: nat)
    requires Legal(log, rules) && i < |log| && log[i].Received?
    ensures b < i && log[b].Began? && log[b].sender == log[i].sender
    ensures forall j | b < j < i :: !Clears(log[j])
    ensures 0 < |log[i].inboxes| <= rules.maxRecipients
    ensures forall x, y | 0 <= x < y < |log[i].inboxes| :: log[i].inboxes[x] != log[i].inboxes[y]
    ensures forall x | x in log[i].inboxes :: LookedUp(log, b, i, x)
  {
    ReceiveAt(log, rules, i);
    b := OpenSince(log, i, rules);
    RecipientsDistinct(After(log, i, rules), rules);
    forall x | x in log[i].inboxes ensures LookedUp(log, b, i, x) {
      RecipientsResolved(After(log, i, rules), rules, x);
    }
  }

  // ----- final replies -------------------------------------------------------------

  /** The phase after a Receive, up to the end of its final replies. */
  function PhaseAt(rs: seq<Recipient>, e: Event, k: nat): Phase
    requires e.Received? && 1 <= k <= |rs| + 2
  {
    if k == 1 then Draining(e.data, e.end, e.outcome) else Answering(rs[k - 2..], e.outcome)
  }

  lemma PhaseStep(s: Standing, x: Event, rules: Rules, rs: seq<Recipient>, e: Event, k: nat)
    requires e.Received? && 1 <= k <= |rs| + 1 && s.phase == PhaseAt(rs, e, k)
    requires Recipients(s, rules) == rs && Allowed(s, x, rules)
    ensures Step(s, x, rules).phase == PhaseAt(rs, e, k + 1)
    ensures Step(s, x, rules).resolutions == s.resolutions
  {
    if k == 1 { assert rs[0..] == rs; } else { Shift(rs, k - 2); }
  }

  lemma Shift(rs: seq<Recipient>, n: nat)
    requires n < |rs|
    ensures rs[n..][0] == rs[n] && rs[n..][1..] == rs[n + 1..]
  {
  }

  /** `t` is `k` entries past the Receive `e` that came at `s`. */
  predicate Stage(s: Standing, t: Standing, e: Event, rules: Rules, k: nat)
    requires e.Received?
  {
    && 1 <= k <= |Recipients(s, rules)| + 2
    && t.phase == PhaseAt(Recipients(s, rules), e, k)
    && t.resolutions == s.resolutions
  }

  lemma NextStage(s: Standing, log: seq<Event>, rules: Rules, n: nat, e: Event, k: nat)
    requires Legal(log, rules) && n < |log| && e.Received? && k <= |Recipients(s, rules)| + 1
    requires Stage(s, After(log, n, rules), e, rules, k)
    ensures Stage(s, After(log, n + 1, rules), e, rules, k + 1)
  {
    AllowedAt(log, rules, n);
    PhaseStep(After(log, n, rules), log[n], rules, Recipients(s, rules), e, k);
  }

  lemma {:induction false} StageAfter(log: seq<Event>, rules: Rules, i: nat, k: nat, s: Standing)
    requires Legal(log, rules) && i < |log| && log[i].Received? && s == After(log, i, rules)
    requires 1 <= k <= |Recipients(s, rules)| + 2 && i + k <= |log|
    ensures Stage(s, After(log, i + k, rules), log[i], rules, k)
    decreases k
  {
    if k > 1 {
      StageAfter(log, rules, i, k - 1, s);
      NextStage(s, log, rules, i + k - 1, log[i], k - 1);
    }
  }

  lemma PhaseAfterReceive(log: seq<Event>, rules: Rules, i: nat, k: nat)
    requires Legal(log, rules) && i < |log| && log[i].Received?
    requires 1 <= k <= |Recipients(After(log, i, rules), rules)| + 2 && i + k <= |log|
    ensures After(log, i + k, rules).phase == PhaseAt(Recipients(After(log, i, rules), rules), log[i], k)
    ensures After(log, i + k, rules).resolutions == After(log, i, rules).resolutions
  {
    StageAfter(log, rules, i, k, After(log, i, rules));
  }

  /** No body or final reply is outstanding. */
  predicate Settled(s: Standing) {
    !s.phase.Draining? && !s.phase.Answering?
  }

  lemma Outstanding(log: seq<Event>, rules: Rules, i: nat)
    requires Legal(log, rules) && i < |log| <= i + 2 + |Recipients(After(log, i, rules), rules)| && log[i].Received?
    ensures !Settled(Now(log, rules))
  {
    PhaseAfterReceive(log, rules, i, |log| - i);
  }

  /** The entry k places after a Receive. */
  lemma ReplyAt(log: seq<Event>, rules: Rules, i: nat, k: nat)
    requires Legal(log, rules) && i < |log| && log[i].Received?
    requires 1 <= k <= |Recipients(After(log, i, rules), rules)| + 2 && i + k < |log|
    ensures var rs := Recipients(After(log, i, rules), rules);
            if k == 1 then log[i + k].Drained?
            else if k < |rs| + 2 then log[i + k] == Final(rs[k - 2].address, Code(log[i].outcome))
            else log[i + k] == Closed
  {
    PhaseAfterReceive(log, rules, i, k);
    AllowedAt(log, rules, i + k);
  }

  /** After Receive, in every session that is not cut off: the body is drained through
      its terminator, then exactly one final reply per listed Inbox in order of first
      acceptance, all with the code of the outcome, then the transaction is cleared. */
  lemma FinalRepliesFollow(log: seq<Event>, rules: Rules, i: nat)
    requires Legal(log, rules) && i < |log| && log[i].Received? && Settled(Now(log, rules))
    ensures var rs := Recipients(After(log, i, rules), rules);
            && log[i].inboxes == Inboxes(rs)
            && i + 2 + |rs| < |log| && log[i + 1].Drained?
            && (forall k | i + 2 <= k < i + 2 + |rs| :: log[k] == Final(rs[k - i - 2].address, Code(log[i].outcome)))
            && log[i + 2 + |rs|] == Closed
  {
    var rs := Recipients(After(log, i, rules), rules);
    ReceiveAt(log, rules, i);
    if |log| <= i + 2 + |rs| {
      Outstanding(log, rules, i);
    } else {
      ReplyAt(log, rules, i, 1);
      ReplyAt(log, rules, i, |rs| + 2);
      forall k | i + 2 <= k < i + 2 + |rs| ensures log[k] == Final(rs[k - i - 2].address, Code(log[i].outcome)) {
        ReplyAt(log, rules, i, k - i);
      }
    }
  }

  // ----- one reply per accepted RCPT? ----------------------------------------------

  /** The RCPTs of the transaction open after n entries that were answered with 250, in order. */
  function AcceptedRcpts(log: seq<Event>, n: nat): seq<Recipient>
    requires n <= |log|
  {
    if n == 0 then [] else WithAccepted(AcceptedRcpts(log, n - 1), log[n - 1])
  }

  function WithAccepted(accepted: seq<Recipient>, e: Event): seq<Recipient> {
    if Clears(e) then []
    else if e.Resolved? && e.code == 250 then accepted + [e.recipient]
    else accepted
  }

  lemma ResolvedCode(s: Standing, e: Event, rules: Rules)
    requires e.Resolved? && Allowed(s, e, rules)
    ensures e.code == if Accepts(Recipients(s, rules), e.recipient.inbox, rules.maxRecipients) then 250 else 452
  {
  }

  lemma AcceptedStep(s: Standing, accepted: seq<Recipient>, e: Event, rules: Rules)
    requires e.Resolved? && Recipients(s, rules) == FirstOfEach(accepted)
    requires e.code == if Accepts(FirstOfEach(accepted), e.recipient.inbox, rules.maxRecipients) then 250 else 452
    ensures Recipients(Step(s, e, rules), rules)
         == FirstOfEach(if e.code == 250 then accepted + [e.recipient] else accepted)
  {
    AcceptOne(s.resolutions, e.recipient, rules.maxRecipients);
    FirstSnoc(accepted, e.recipient);
    FirstOfEachNames(accepted, e.recipient.inbox);
    RecipientsDistinct(s, rules);
  }

  lemma OtherStep(s: Standing, e: Event, rules: Rules)
    requires !e.Resolved?
    ensures Recipients(Step(s, e, rules), rules) == if Clears(e) then [] else Recipients(s, rules)
  {
  }

  lemma ListedStep(s: Standing, accepted: seq<Recipient>, e: Event, rules: Rules)
    requires Allowed(s, e, rules) && Recipients(s, rules) == FirstOfEach(accepted)
    ensures Recipients(Step(s, e, rules), rules) == FirstOfEach(WithAccepted(accepted, e))
  {
    if e.Resolved? {
      ResolvedCode(s, e, rules);
      AcceptedStep(s, accepted, e, rules);
    } else {
      OtherStep(s, e, rules);
    }
  }

  /** The listed recipients are the first accepted RCPT of each Inbox. */
  lemma {:induction false} ListedAreFirstAccepted(log: seq<Event>, n: nat, rules: Rules)
    requires Legal(log, rules) && n <= |log|
    ensures Recipients(After(log, n, rules), rules) == FirstOfEach(AcceptedRcpts(log, n))
  {
    if n > 0 {
      ListedAreFirstAccepted(log, n - 1, rules);
      AllowedAt(log, rules, n - 1);
      ListedStep(After(log, n - 1, rules), AcceptedRcpts(log, n - 1), log[n - 1], rules);
    }
  }

  /** Consecutive final replies from position `from`. */
  function FinalRun(log: seq<Event>, from: nat): nat
    requires from <= |log|
    decreases |log| - from
  {
    if from < |log| && log[from].Final? then 1 + FinalRun(log, from + 1) else 0
  }

  lemma {:induction false} FinalRunLength(log: seq<Event>, from: nat, to: nat)
    requires from <= to < |log| && (forall k | from <= k < to :: log[k].Final?) && !log[to].Final?
    ensures FinalRun(log, from) == to - from
    decreases |log| - from
  {
    if from < to { FinalRunLength(log, from + 1, to); }
  }

  lemma FinalCount(log: seq<Event>, rules: Rules, i: nat)
    requires Legal(log, rules) && i < |log| && log[i].Received? && Settled(Now(log, rules))
    ensures i + 2 <= |log| && FinalRun(log, i + 2) == |Recipients(After(log, i, rules), rules)| == |log[i].inboxes|
  {
    FinalRepliesFollow(log, rules, i);
    FinalRunLength(log, i + 2, i + 2 + |log[i].inboxes|);
  }

  /** Section 4.2 of RFC 2033 asks for one final reply per accepted RCPT.  A session meets
      it for a delivery exactly when no two of its accepted RCPTs named one Inbox. */
  lemma OneReplyPerAcceptedRcptIff(log: seq<Event>, rules: Rules, i: nat)
    requires Legal(log, rules) && i < |log| && log[i].Received? && Settled(Now(log, rules))
    ensures i + 2 <= |log|
    ensures FinalRun(log, i + 2) == |AcceptedRcpts(log, i)| <==> DistinctInboxes(AcceptedRcpts(log, i))
    ensures FinalRun(log, i + 2) == |log[i].inboxes| <= |AcceptedRcpts(log, i)|
  {
    FinalCount(log, rules, i);
    ListedAreFirstAccepted(log, i, rules);
    FirstOfEachDistinct(AcceptedRcpts(log, i));
  }

  // ----- what a 250 after DATA means -------------------------------------------------

  lemma OwedStep(s: Standing, e: Event, rules: Rules)
    requires Allowed(s, e, rules) && !Settled(Step(s, e, rules)) && !e.Received?
    ensures !Settled(s) && Step(s, e, rules).phase.outcome == s.phase.outcome
  {
  }

  /** Every final reply answers an earlier Receive, with its outcome's code. */
  lemma {:induction false} FinalAnswers(log: seq<Event>, rules: Rules, k: nat) returns (i: nat)
    requires Legal(log, rules) && k <= |log| && !Settled(After(log, k, rules))
    ensures i < k && log[i].Received? && After(log, k, rules).phase.outcome == log[i].outcome
    decreases k
  {
    if log[k - 1].Received? {
      i := k - 1;
    } else {
      AllowedAt(log, rules, k - 1);
      OwedStep(After(log, k - 1, rules), log[k - 1], rules);
      i := FinalAnswers(log, rules, k - 1);
    }
  }

  /** The receiver reports success only after reading to the terminator. */
  ghost predicate Careful(log: seq<Event>) {
    forall i | 0 <= i < |log| && log[i].Received? && log[i].outcome == Delivered :: log[i].end == Some(Terminated)
  }

  /** With such a receiver, a recipient is told 250 only after the whole body, unstuffed,
      was handed over. */
  lemma DeliveredMeansWholeBody(log: seq<Event>, rules: Rules, k: nat) returns (i: nat)
    requires Legal(log, rules) && Careful(log) && k < |log| && log[k].Final? && log[k].code == 250
    ensures i + 1 < k && log[i].Received? && log[i].outcome == Delivered && log[i + 1].Drained?
    ensures log[i].data == Joined(UnstuffAll(log[i + 1].body))
  {
    AllowedAt(log, rules, k);
    i := FinalAnswers(log, rules, k);
    AllowedAt(log, rules, i + 1);
  }
}
