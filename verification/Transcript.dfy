/** The language of LMTP session transcripts: what must happen after what, stated
    on the event log alone.  Every command line is followed by its answer, an accepted
    DATA by one Receive call, that by the drained body, and that by the final replies. */
module Transcript {
  import opened Common
  import opened DataReader
  import opened DataTransparency

  type InboxId = nat

  datatype Recipient = Recipient(address: string, inbox: InboxId)

  datatype MailArgument = BadMail | From(sender: string, size: int)
  datatype RcptArgument = BadRcpt | To(address: string)

  /** A command line after splitCommand and the argument parsers. */
  datatype Command =
    | Lhlo(named: bool) | Mail(mail: MailArgument) | Rcpt(rcpt: RcptArgument) | Data(bare: bool)
    | Rset | Noop | Quit | HeloOrEhlo | Vrfy | Unknown

  /** The configured limits and the command grammar. */
  datatype Rules = Rules(maxMessage: int, maxCommand: int, maxLine: int, maxRecipients: nat, parse: Octets -> Command)

  predicate ValidRules(r: Rules) {
    r.maxMessage > 0 && r.maxCommand > 0 && r.maxLine > 0 && r.maxRecipients > 0
  }

  /** Outcome of Receive, as far as the session tells outcomes apart. */
  datatype Outcome =
    | Delivered | DataTooLarge | LineLimit | InboxGone | MessageQuota | StorageQuota | NoStorage | Invalid | Temporary

  /** The reply code of classifyDeliveryError. */
  function Code(o: Outcome): (code: int)
    ensures code == 250 <==> o == Delivered
    ensures 400 <= code < 500 <==> o == NoStorage || o == Temporary
    ensures 500 <= code < 600 <==> !(o in {Delivered, NoStorage, Temporary})
    ensures code == 552 <==> o in {DataTooLarge, MessageQuota, StorageQuota}
    ensures code == 550 <==> o == InboxGone
    ensures code == 554 <==> o in {LineLimit, Invalid}
    ensures code == 452 <==> o == NoStorage
    ensures code == 451 <==> o == Temporary
  {
    match o
    case Delivered => 250
    case DataTooLarge => 552
    case LineLimit => 554
    case InboxGone => 550
    case MessageQuota => 552
    case StorageQuota => 552
    case NoStorage => 452
    case Invalid => 554
    case Temporary => 451
  }

  datatype Event =
    | CommandLine(line: Octets)                 // a line read as a command
    | Reply(code: int)                          // a reply that leaves the transaction alone
    | Greeted                                   // LHLO: transaction cleared, answered 250
    | Began(sender: string, size: int)          // MAIL: transaction opened, answered 250
    | Resolved(recipient: Recipient, code: int) // RCPT: resolved to an Inbox, and its answer
    | Reset                                     // RSET: transaction cleared, answered 250
    | Received(sender: string, inboxes: seq<InboxId>, data: Octets, end: Option<End>, outcome: Outcome)
    | Drained(body: seq<Octets>)                // body lines consumed through "."
    | Final(address: string, code: int)         // per-recipient reply after DATA
    | Closed                                    // transaction cleared after the final replies

  // ----- the current transaction -----------------------------------------------

  predicate Names(rs: seq<Recipient>, inbox: InboxId) {
    exists i | 0 <= i < |rs| :: rs[i].inbox == inbox
  }

  /** First lookup of each distinct Inbox, in order. */
  function FirstOfEach(rs: seq<Recipient>): seq<Recipient> {
    if rs == [] then []
    else
      var front, last := rs[..|rs| - 1], rs[|rs| - 1];
      if Names(front, last.inbox) then FirstOfEach(front) else FirstOfEach(front) + [last]
  }

  function Upto(rs: seq<Recipient>, max: nat): seq<Recipient> {
    if |rs| <= max then rs else rs[..max]
  }

  function Inboxes(rs: seq<Recipient>): (ids: seq<InboxId>)
    ensures |ids| == |rs|
    ensures forall i | 0 <= i < |rs| :: ids[i] == rs[i].inbox
  {
    seq(|rs|, i requires 0 <= i < |rs| => rs[i].inbox)
  }

  /** Where a session stands: before its greeting, between commands, owing the answer to
      a command, about to call Receive, waiting for a body to be drained, owing final
      replies, or closed by QUIT. */
  datatype Phase =
    | Connecting
    | Idle
    | Heard(command: Option<Command>)   // None: the line was too long
    | Ready
    | Draining(data: Octets, end: Option<End>, outcome: Outcome)
    | Answering(owed: seq<Recipient>, outcome: Outcome)
    | Over

  /** What a transcript amounts to: its phase, whether LHLO was accepted, the sender and
      the declared size of the open transaction, the successful lookups since it began, and
      the input lines accounted for. */
  datatype Standing = Standing(
    phase: Phase,
    greeted: bool,
    open: Option<string>,
    declared: int,
    resolutions: seq<Recipient>,
    consumed: seq<Octets>)

  const START := Standing(Connecting, false, None, 0, [], [])

  /** The recipients of the open transaction: the first distinct Inboxes, up to the limit. */
  function Recipients(s: Standing, rules: Rules): seq<Recipient> {
    Upto(FirstOfEach(s.resolutions), rules.maxRecipients)
  }

  function Cleared(s: Standing): Standing {
    s.(phase := Idle, open := None, resolutions := [])
  }

  function Step(s: Standing, e: Event, rules: Rules): Standing {
    match e
    case CommandLine(line) =>
      s.(consumed := s.consumed + [line],
         phase := Heard(if |line| > rules.maxCommand then None else Some(rules.parse(line))))
    case Reply(code) => s.(phase := if code == 354 then Ready else if code == 221 then Over else Idle)
    case Greeted => Cleared(s).(greeted := true)
    case Began(sender, size) => s.(phase := Idle, open := Some(sender), declared := size, resolutions := [])
    case Resolved(r, _) => s.(phase := Idle, resolutions := s.resolutions + [r])
    case Reset => Cleared(s)
    case Received(_, _, data, end, outcome) => s.(phase := Draining(data, end, outcome))
    case Drained(body) =>
      s.(consumed := s.consumed + body + [DOT],
         phase := if s.phase.Draining? then Answering(Recipients(s, rules), s.phase.outcome) else s.phase)
    case Final(_, _) =>
      s.(phase := if s.phase.Answering? && s.phase.owed != [] then s.phase.(owed := s.phase.owed[1..]) else s.phase)
    case Closed => Cleared(s)
  }

  /** Where the first n entries leave the session. */
  function After(log: seq<Event>, n: nat, rules: Rules): Standing
    requires n <= |log|
  {
    if n == 0 then START else Step(After(log, n - 1, rules), log[n - 1], rules)
  }

  /** Where the whole log leaves it. */
  function Now(log: seq<Event>, rules: Rules): Standing {
    After(log, |log|, rules)
  }

  // ----- legal transcripts -------------------------------------------------------

  /** RCPT for this Inbox is accepted: it is listed already, or there is room. */
  predicate Accepts(rs: seq<Recipient>, inbox: InboxId, max: nat) {
    Names(rs, inbox) || |rs| < max
  }

  function MailAnswer(s: Standing, m: MailArgument, maxMessage: int): Event {
    if !s.greeted || s.open.Some? then Reply(503)
    else if m.BadMail? then Reply(501)
    else if m.size > maxMessage then Reply(552)
    else Began(m.sender, m.size)
  }

  /** The lookup may fail in three ways; a resolved recipient is accepted or not. */
  predicate RcptAnswer(s: Standing, r: RcptArgument, e: Event, rules: Rules) {
    if !s.greeted || s.open.None? then e == Reply(503)
    else if r.BadRcpt? then e == Reply(501)
    else
      || e == Reply(550) || e == Reply(552) || e == Reply(451)
      || (&& e.Resolved? && e.recipient.address == r.address
          && e.code == if Accepts(Recipients(s, rules), e.recipient.inbox, rules.maxRecipients) then 250 else 452)
  }

  predicate DataAnswer(s: Standing, bare: bool, e: Event, rules: Rules) {
    if s.open.None? || Recipients(s, rules) == [] then e == Reply(503)
    else if !bare then e == Reply(501)
    else e == Reply(452) || e == Reply(451) || e == Reply(354)
  }

  /** `e` is an answer to the command, given what came before. */
  predicate Answers(s: Standing, command: Option<Command>, e: Event, rules: Rules) {
    if command.None? then e == Reply(500)
    else
      match command.value
      case Lhlo(named) => e == if named then Greeted else Reply(501)
      case Mail(m) => e == MailAnswer(s, m, rules.maxMessage)
      case Rcpt(r) => RcptAnswer(s, r, e, rules)
      case Data(bare) => DataAnswer(s, bare, e, rules)
      case Rset => e == Reset
      case Noop => e == Reply(250)
      case Quit => e == Reply(221)
      case HeloOrEhlo => e == Reply(500)
      case Vrfy => e == Reply(252)
      case Unknown => e == Reply(500)
  }

  /** The receiver saw the beginning of this body, unstuffed, and all of it once its
      reader ended at the terminator. */
  ghost predicate HandsOver(body: seq<Octets>, data: Octets, end: Option<End>) {
    var whole := Joined(UnstuffAll(body));
    data <= whole && (end == Some(Terminated) ==> data == whole)
  }

  /** `e` may follow a transcript standing at `s`. */
  ghost predicate Allowed(s: Standing, e: Event, rules: Rules) {
    match s.phase
    case Connecting => e == Reply(220)
    case Idle => e.CommandLine?
    case Heard(command) => Answers(s, command, e, rules)
    case Ready => e.Received? && s.open == Some(e.sender) && e.inboxes == Inboxes(Recipients(s, rules)) && e.inboxes != []
    case Draining(data, end, _) => e.Drained? && DOT !in e.body && HandsOver(e.body, data, end)
    case Answering(owed, outcome) => e == if owed != [] then Final(owed[0].address, Code(outcome)) else Closed
    case Over => false
  }

  ghost predicate LegalAt(log: seq<Event>, rules: Rules, i: nat)
    requires i < |log|
  {
    Allowed(After(log, i, rules), log[i], rules)
  }

  ghost predicate Legal(log: seq<Event>, rules: Rules) {
    forall i | 0 <= i < |log| :: LegalAt(log, rules, i)
  }

  lemma {:induction false} AfterFrame(a: seq<Event>, b: seq<Event>, n: nat, rules: Rules)
    requires n <= |a| && n <= |b| && forall i | 0 <= i < n :: a[i] == b[i]
    ensures After(a, n, rules) == After(b, n, rules)
  {
    if n > 0 { AfterFrame(a, b, n - 1, rules); }
  }

  lemma Snoc(log: seq<Event>, e: Event, rules: Rules)
    requires Legal(log, rules) && Allowed(Now(log, rules), e, rules)
    ensures Legal(log + [e], rules)
    ensures Now(log + [e], rules) == Step(Now(log, rules), e, rules)
  {
    var longer := log + [e];
    forall i | 0 <= i <= |log| ensures After(longer, i, rules) == After(log, i, rules) {
      AfterFrame(longer, log, i, rules);
    }
    forall i | 0 <= i < |longer| ensures LegalAt(longer, rules, i) {
      if i < |log| { assert LegalAt(log, rules, i); }
    }
  }

  // ----- first lookups ---------------------------------------------------------

  lemma NamesSnoc(rs: seq<Recipient>, r: Recipient, inbox: InboxId)
    ensures Names(rs + [r], inbox) <==> Names(rs, inbox) || r.inbox == inbox
  {
    var all := rs + [r];
    assert all[|rs|] == r;
    forall i | 0 <= i < |rs| ensures all[i] == rs[i] {}
  }

  lemma FirstSnoc(rs: seq<Recipient>, r: Recipient)
    ensures FirstOfEach(rs + [r]) == if Names(rs, r.inbox) then FirstOfEach(rs) else FirstOfEach(rs) + [r]
  {
    assert (rs + [r])[..|rs|] == rs;
  }

  lemma {:induction false} FirstOfEachNames(rs: seq<Recipient>, inbox: InboxId)
    ensures Names(FirstOfEach(rs), inbox) <==> Names(rs, inbox)
  {
    if rs != [] {
      var front, last := rs[..|rs| - 1], rs[|rs| - 1];
      FirstOfEachNames(front, inbox);
      FirstOfEachNames(front, last.inbox);
      assert rs == front + [last];
      NamesSnoc(front, last, inbox);
      NamesSnoc(FirstOfEach(front), last, inbox);
    }
  }

  predicate DistinctInboxes(rs: seq<Recipient>) {
    forall i, j | 0 <= i < j < |rs| :: rs[i].inbox != rs[j].inbox
  }

  lemma DistinctSnoc(rs: seq<Recipient>, r: Recipient)
    ensures DistinctInboxes(rs + [r]) <==> DistinctInboxes(rs) && !Names(rs, r.inbox)
  {
    var all := rs + [r];
    forall i | 0 <= i < |rs| ensures all[i] == rs[i] {}
    assert all[|rs|] == r;
  }

  /** The first lookups are distinct, and they are all of them exactly when no Inbox was
      looked up twice. */
  lemma {:induction false} FirstOfEachDistinct(rs: seq<Recipient>)
    ensures DistinctInboxes(FirstOfEach(rs))
    ensures |FirstOfEach(rs)| <= |rs|
    ensures |FirstOfEach(rs)| == |rs| <==> DistinctInboxes(rs)
  {
    if rs != [] {
      var front, last := rs[..|rs| - 1], rs[|rs| - 1];
      FirstOfEachDistinct(front);
      FirstOfEachNames(front, last.inbox);
      assert rs == front + [last];
      DistinctSnoc(front, last);
      DistinctSnoc(FirstOfEach(front), last);
    }
  }

  /** Accepting lookups one by one, skipping known Inboxes and refusing beyond the
      limit, keeps exactly the first `max` distinct ones. */
  lemma AcceptOne(rs: seq<Recipient>, r: Recipient, max: nat)
    ensures var kept := Upto(FirstOfEach(rs), max);
            Upto(FirstOfEach(rs + [r]), max) ==
              if Names(kept, r.inbox) || |kept| >= max then kept else kept + [r]
  {
    var f := FirstOfEach(rs);
    FirstSnoc(rs, r);
    FirstOfEachNames(rs, r.inbox);
    if |f| < max {
      assert Upto(f, max) == f;
    } else {
      assert Upto(f + [r], max) == Upto(f, max);
    }
  }

  lemma RecipientsDistinct(s: Standing, rules: Rules)
    ensures |Recipients(s, rules)| <= rules.maxRecipients && DistinctInboxes(Recipients(s, rules))
  {
    FirstOfEachDistinct(s.resolutions);
  }
}
