/** A delivery that section 4.2 of RFC 2033 would have answered twice. */
module TranscriptExample {
  import opened Common
  import opened DataReader
  import opened DataTransparency
  import opened Transcript
  import opened TranscriptFacts

  /** The standing once a command line has been read. */
  function Hearing(s: Standing, line: Octets, rules: Rules): Standing {
    Step(s, CommandLine(line), rules)
  }

  function AcceptedNow(log: seq<Event>): seq<Recipient> { AcceptedRcpts(log, |log|) }

  lemma {:induction false} AcceptedFrame(a: seq<Event>, b: seq<Event>, n: nat)
    requires n <= |a| && n <= |b| && forall i | 0 <= i < n :: a[i] == b[i]
    ensures AcceptedRcpts(a, n) == AcceptedRcpts(b, n)
  {
    if n > 0 { AcceptedFrame(a, b, n - 1); }
  }

  lemma AcceptedSnoc(log: seq<Event>, e: Event)
    ensures AcceptedNow(log + [e]) == WithAccepted(AcceptedNow(log), e)
  {
    AcceptedFrame(log + [e], log, |log|);
  }

  /** One command and its answer. */
  lemma Exchange(log: seq<Event>, line: Octets, e: Event, rules: Rules) returns (longer: seq<Event>)
    requires Legal(log, rules) && Now(log, rules).phase == Idle && |line| <= rules.maxCommand
    requires Answers(Hearing(Now(log, rules), line, rules), Some(rules.parse(line)), e, rules)
    ensures longer == log + [CommandLine(line)] + [e] && Legal(longer, rules)
    ensures Now(longer, rules) == Step(Hearing(Now(log, rules), line, rules), e, rules)
    ensures AcceptedNow(longer) == WithAccepted(AcceptedNow(log), e)
  {
    var heard := log + [CommandLine(line)];
    Snoc(log, CommandLine(line), rules);
    AcceptedSnoc(log, CommandLine(line));
    Snoc(heard, e, rules);
    AcceptedSnoc(heard, e);
    longer := heard + [e];
  }

  /** LHLO and MAIL. */
  lemma Opening(rules: Rules, lhlo: Octets, mail: Octets, sender: string) returns (log: seq<Event>)
    requires ValidRules(rules) && |lhlo| <= rules.maxCommand && |mail| <= rules.maxCommand
    requires rules.parse(lhlo) == Lhlo(true) && rules.parse(mail) == Mail(From(sender, 0))
    ensures Legal(log, rules) && AcceptedNow(log) == []
    ensures InMail(Now(log, rules), sender)
  {
    Snoc([], Reply(220), rules);
    log := Exchange([] + [Reply(220)], lhlo, Greeted, rules);
    log := Exchange(log, mail, Began(sender, 0), rules);
  }

  /** A session inside a transaction, between commands. */
  predicate InMail(s: Standing, sender: string) {
    s.phase == Idle && s.greeted && s.open == Some(sender)
  }

  /** An accepted RCPT. */
  lemma OneRcpt(rules: Rules, before: seq<Event>, line: Octets, sender: string, r: Recipient) returns (log: seq<Event>)
    requires Legal(before, rules) && InMail(Now(before, rules), sender)
    requires |line| <= rules.maxCommand && rules.parse(line) == Rcpt(To(r.address))
    requires Accepts(Recipients(Now(before, rules), rules), r.inbox, rules.maxRecipients)
    ensures Legal(log, rules) && InMail(Now(log, rules), sender)
    ensures AcceptedNow(log) == AcceptedNow(before) + [r]
  {
    log := Exchange(before, line, Resolved(r, 250), rules);
  }

  /** A DATA command and the Receive call that follows it. */
  lemma Handover(rules: Rules, before: seq<Event>, line: Octets, sender: string, a: Recipient) returns (log: seq<Event>)
    requires |line| <= rules.maxCommand && rules.parse(line) == Data(true)
    requires Legal(before, rules) && InMail(Now(before, rules), sender) && Recipients(Now(before, rules), rules) == [a]
    ensures Legal(log, rules) && log != []
    ensures log[|log| - 1] == Received(sender, [a.inbox], "", Some(Terminated), Delivered)
    ensures AcceptedRcpts(log, |log| - 1) == AcceptedNow(before)
    ensures var s := Now(log, rules); s.phase == Draining("", Some(Terminated), Delivered) && Recipients(s, rules) == [a]
  {
    var asked := Exchange(before, line, Reply(354), rules);
    var e := Received(sender, [a.inbox], "", Some(Terminated), Delivered);
    assert Inboxes([a]) == [a.inbox];
    Snoc(asked, e, rules);
    log := asked + [e];
    AcceptedFrame(log, asked, |asked|);
  }

  /** An empty body and the final reply of the one recipient. */
  lemma Reported(rules: Rules, before: seq<Event>, a: Recipient) returns (log: seq<Event>)
    requires Legal(before, rules)
    requires var s := Now(before, rules); s.phase == Draining("", Some(Terminated), Delivered) && Recipients(s, rules) == [a]
    ensures Legal(log, rules) && Now(log, rules).phase == Idle && before <= log
  {
    Snoc(before, Drained([]), rules);
    var drained := before + [Drained([])];
    Snoc(drained, Final(a.address, 250), rules);
    var answered := drained + [Final(a.address, 250)];
    Snoc(answered, Closed, rules);
    log := answered + [Closed];
  }

  lemma OneListed(rules: Rules, log: seq<Event>, a: Recipient)
    requires Legal(log, rules) && AcceptedNow(log) == [a]
    ensures Recipients(Now(log, rules), rules) == [a]
  {
    ListedAreFirstAccepted(log, |log|, rules);
    FirstSnoc([], a);
    assert [] + [a] == [a];
  }

  lemma TwiceListed(rules: Rules, log: seq<Event>, a: Recipient, b: Recipient)
    requires Legal(log, rules) && AcceptedNow(log) == [a, b] && a.inbox == b.inbox
    ensures Recipients(Now(log, rules), rules) == [a]
  {
    ListedAreFirstAccepted(log, |log|, rules);
    assert FirstOfEach([a]) == [a] by { FirstSnoc([], a); assert [] + [a] == [a]; }
    FirstSnoc([a], b);
    assert [a] + [b] == [a, b] && [a][0].inbox == b.inbox;
  }

  /** Two RCPTs of one Inbox: both are accepted, one recipient is listed. */
  lemma TwoRcpts(rules: Rules, before: seq<Event>, first: Octets, second: Octets, sender: string, a: Recipient, b: Recipient)
    returns (log: seq<Event>)
    requires ValidRules(rules) && |first| <= rules.maxCommand && |second| <= rules.maxCommand
    requires Legal(before, rules) && InMail(Now(before, rules), sender) && AcceptedNow(before) == []
    requires rules.parse(first) == Rcpt(To(a.address)) && rules.parse(second) == Rcpt(To(b.address)) && a.inbox == b.inbox
    ensures Legal(log, rules) && InMail(Now(log, rules), sender)
    ensures AcceptedNow(log) == [a, b] && Recipients(Now(log, rules), rules) == [a]
  {
    ListedAreFirstAccepted(before, |before|, rules);
    var once := OneRcpt(rules, before, first, sender, a);
    OneListed(rules, once, a);
    assert [a][0].inbox == b.inbox;
    log := OneRcpt(rules, once, second, sender, b);
    assert [a] + [b] == [a, b];
    TwiceListed(rules, log, a, b);
  }

  /** Whatever the grammar and limits: two RCPTs of one Inbox are both accepted, and the
      delivery gets one final reply. */
  lemma SharedInboxIsAnsweredOnce(rules: Rules, lines: seq<Octets>, sender: string, a: Recipient, b: Recipient)
    returns (log: seq<Event>, i: nat)
    requires ValidRules(rules) && |lines| == 5 && forall n | 0 <= n < 5 :: |lines[n]| <= rules.maxCommand
    requires rules.parse(lines[0]) == Lhlo(true) && rules.parse(lines[1]) == Mail(From(sender, 0))
    requires rules.parse(lines[2]) == Rcpt(To(a.address)) && rules.parse(lines[3]) == Rcpt(To(b.address))
    requires rules.parse(lines[4]) == Data(true) && a.inbox == b.inbox
    ensures Legal(log, rules) && Now(log, rules).phase == Idle && i + 2 <= |log| && log[i].Received?
    ensures AcceptedRcpts(log, i) == [a, b] && FinalRun(log, i + 2) == 1
  {
    log := Opening(rules, lines[0], lines[1], sender);
    log := TwoRcpts(rules, log, lines[2], lines[3], sender, a, b);
    var open := Handover(rules, log, lines[4], sender, a);
    i := |open| - 1;
    log := Reported(rules, open, a);
    AcceptedFrame(log, open, i);
    OneReplyPerAcceptedRcptIff(log, rules, i);
  }
}
