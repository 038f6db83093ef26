/** One LMTP session over a connection.  The command grammar, the recipient lookup,
    the capacity check and the receiver are parameters: the results hold for all. */
module Session {
  import opened Common
  import opened DataReader
  import opened DataTransparency
  import opened Transcript
  import TranscriptFacts

  datatype Lookup = Found(inbox: InboxId) | Missing | Full | LookupFailed
  datatype Capacity = Room | NoRoom | CheckFailed

  /** The outside world; the first argument counts the questions asked so far. */
  datatype World = World(
    resolve: (nat, string, int) -> Lookup,
    capacity: nat -> Capacity,
    buffers: nat -> seq<nat>,
    receive: (nat, Octets, Option<End>) -> Outcome)

  /** The logged outcome of a Receive is what the receiver said of what it was handed. */
  ghost predicate Genuine(e: Event, world: World) {
    e.Received? ==> exists n :: e.outcome == world.receive(n, e.data, e.end)
  }

  ghost predicate AllGenuine(log: seq<Event>, world: World) {
    forall i | 0 <= i < |log| :: Genuine(log[i], world)
  }

  lemma GenuineSnoc(log: seq<Event>, e: Event, world: World)
    requires AllGenuine(log, world) && Genuine(e, world)
    ensures AllGenuine(log + [e], world)
  {
  }

  /** `known` holds exactly the Inboxes of the list. */
  ghost predicate Indexes(known: set<InboxId>, rs: seq<Recipient>) {
    forall x :: x in known <==> Names(rs, x)
  }

  /** What an accepted or refused lookup does to list and index. */
  lemma Listed(s: Standing, known: set<InboxId>, r: Recipient, code: int, rules: Rules)
    requires Indexes(known, Recipients(s, rules))
    ensures var rs, next := Recipients(s, rules), Recipients(Step(s, Resolved(r, code), rules), rules);
            && (r.inbox in known <==> Names(rs, r.inbox))
            && (r.inbox in known || |rs| >= rules.maxRecipients ==> next == rs)
            && (r.inbox !in known && |rs| < rules.maxRecipients ==>
                  next == rs + [r] && Indexes(known + {r.inbox}, next) && Names(next, r.inbox))
  {
    var rs := Recipients(s, rules);
    AcceptOne(s.resolutions, r, rules.maxRecipients);
    forall x ensures Names(rs + [r], x) <==> Names(rs, x) || x == r.inbox {
      NamesSnoc(rs, r, x);
    }
  }

  /** The first new entry of a legal transcript was allowed where the old one stood. */
  lemma FirstNew(before: seq<Event>, log: seq<Event>, rules: Rules)
    requires before < log && Legal(log, rules)
    ensures Allowed(Now(before, rules), log[|before|], rules)
  {
    assert LegalAt(log, rules, |before|);
    AfterFrame(log, before, |before|, rules);
  }

  /** The answer to RCPT, by what the lookup found. */
  function RcptEvent(address: string, found: Lookup, accepted: bool): Event {
    match found
    case Missing => Reply(550)
    case Full => Reply(552)
    case LookupFailed => Reply(451)
    case Found(inbox) => Resolved(Recipient(address, inbox), if accepted then 250 else 452)
  }

  function DataEvent(capacity: Capacity): Event {
    Reply(match capacity case Room => 354 case NoRoom => 452 case CheckFailed => 451)
  }

  class Session {
    const conn: Connection
    const rules: Rules
    const world: World
    var greeted: bool
    var mailSet: bool
    var sender: string
    var declaredSize: int
    var recipients: seq<Recipient>
    var recipientSet: set<InboxId>
    var calls: nat
    ghost var log: seq<Event>
    ghost var standing: Standing
    ghost const input: seq<Octets>

    constructor (conn: Connection, rules: Rules, world: World)
      requires ValidRules(rules)
      ensures Valid() && standing.phase == Idle
      ensures this.conn == conn && this.rules == rules && this.world == world
      ensures log == [Reply(220)] && input == Lines(conn.frags)
    {
      this.conn, this.rules, this.world := conn, rules, world;
      greeted, mailSet, sender, declaredSize := false, false, "", 0;
      recipients, recipientSet := [], {};
      calls := 0;
      log, standing := [Reply(220)], START.(phase := Idle);
      input := Lines(conn.frags);
      new;
      Snoc([], Reply(220), rules);
      assert [] + [Reply(220)] == log;
    }

    /** The fields are exactly what the transcript says about the open transaction. */
    ghost predicate Tracks(s: Standing)
      reads this
    {
      && greeted == s.greeted
      && s.open == (if mailSet then Some(sender) else None)
      && (mailSet ==> s.declared == declaredSize)
      && (!mailSet ==> s.resolutions == [])
      && recipients == Recipients(s, rules)
      && Indexes(recipientSet, recipients)
    }

    /** A legal, genuine transcript standing at `s`. */
    ghost predicate Told(s: Standing)
      reads this
    {
      Legal(log, rules) && Now(log, rules) == s && AllGenuine(log, world)
    }

    /** Every input line so far is accounted for. */
    ghost predicate Accounts()
      reads this, conn
    {
      standing.consumed + Lines(conn.frags) == input
    }

    ghost predicate Valid()
      reads this, conn
    {
      ValidRules(rules) && Told(standing) && Accounts() && Tracks(standing)
    }

    /** Append one event to the transcript. */
    ghost method Log(e: Event)
      requires Told(standing) && Allowed(standing, e, rules) && Genuine(e, world)
      modifies this`log, this`standing
      ensures Told(standing) && standing == Step(old(standing), e, rules) && log == old(log) + [e]
    {
      Snoc(log, e, rules);
      GenuineSnoc(log, e, world);
      log := log + [e];
      standing := Step(standing, e, rules);
    }

    /** A reply that leaves the transaction alone. */
    method Answered(code: int)
      requires Valid() && standing.phase.Heard? && Allowed(standing, Reply(code), rules)
      modifies this`log, this`standing
      ensures Valid() && standing == Step(old(standing), Reply(code), rules) && log == old(log) + [Reply(code)]
    {
      Log(Reply(code));
    }

    method ResetTransaction()
      requires Tracks(standing)
      modifies this`mailSet, this`sender, this`declaredSize, this`recipients, this`recipientSet
      ensures Tracks(Cleared(standing)) && !mailSet && recipients == []
    {
      mailSet, sender, declaredSize, recipients, recipientSet := false, "", 0, [], {};
    }

    method DoLhlo(named: bool)
      requires Valid() && standing.phase == Heard(Some(Lhlo(named)))
      modifies this
      ensures Valid() && standing.phase == Idle && log == old(log) + [if named then Greeted else Reply(501)]
    {
      if !named {
        Answered(501);
        return;
      }
      ResetTransaction();
      Log(Greeted);
      greeted := true;
    }

    method DoRset()
      requires Valid() && standing.phase == Heard(Some(Rset))
      modifies this
      ensures Valid() && standing.phase == Idle && log == old(log) + [Reset] && !mailSet && recipients == []
    {
      ResetTransaction();
      Log(Reset);
    }

    /** MAIL opens a transaction exactly when it is answered with 250. */
    method DoMail(m: MailArgument)
      requires Valid() && standing.phase == Heard(Some(Mail(m)))
      modifies this
      ensures Valid() && standing.phase == Idle && log == old(log) + [MailAnswer(old(standing), m, rules.maxMessage)]
    {
      if !greeted { Answered(503); return; }
      if mailSet { Answered(503); return; }
      if m.BadMail? { Answered(501); return; }
      if m.size > rules.maxMessage { Answered(552); return; }
      Log(Began(m.sender, m.size));
      sender, declaredSize, mailSet := m.sender, m.size, true;
      recipientSet := {};
    }

    /** RCPT is answered with 250 exactly when its Inbox is among the recipients from
        then on: newly, or because an earlier RCPT named it. */
    method DoRcpt(r: RcptArgument)
      requires Valid() && standing.phase == Heard(Some(Rcpt(r)))
      modifies this
      ensures Valid() && standing.phase == Idle && mailSet == old(mailSet) && sender == old(sender)
      ensures log == old(log) +
                [if !old(greeted) || !mailSet then Reply(503)
                 else if r.BadRcpt? then Reply(501)
                 else
                   var found := world.resolve(old(calls), r.address, old(standing).declared);
                   RcptEvent(r.address, found, found.Found? && Names(recipients, found.inbox))]
    {
      if !greeted || !mailSet { Answered(503); return; }
      if r.BadRcpt? { Answered(501); return; }
      var found := world.resolve(calls, r.address, declaredSize);
      calls := calls + 1;
      match found
      case Missing => Answered(550);
      case Full => Answered(552);
      case LookupFailed => Answered(451);
      case Found(inbox) => var _ := Accept(Recipient(r.address, inbox));
    }

    /** Add a looked-up recipient unless its Inbox is known or the list is full. */
    method Accept(r: Recipient) returns (code: int)
      requires Valid() && standing.phase == Heard(Some(Rcpt(To(r.address)))) && greeted && mailSet
      modifies this`log, this`standing, this`recipients, this`recipientSet
      ensures Valid() && standing.phase == Idle && log == old(log) + [Resolved(r, code)]
      ensures code == if Names(recipients, r.inbox) then 250 else 452
      ensures code == if Accepts(old(recipients), r.inbox, rules.maxRecipients) then 250 else 452
    {
      code := if r.inbox in recipientSet || |recipients| < rules.maxRecipients then 250 else 452;
      Listed(standing, recipientSet, r, code, rules);
      Log(Resolved(r, code));
      if r.inbox !in recipientSet && |recipients| < rules.maxRecipients {
        recipientSet := recipientSet + {r.inbox};
        recipients := recipients + [r];
      }
    }

    /** DATA is refused without reading anything, or its body is received. */
    method DoData(bare: bool) returns (aborted: bool)
      requires Valid() && standing.phase == Heard(Some(Data(bare)))
      modifies this, conn
      ensures old(log) < log && Told(standing)
      ensures log[|old(log)|] ==
                if !old(mailSet) || old(recipients) == [] then Reply(503)
                else if !bare then Reply(501)
                else DataEvent(world.capacity(old(calls)))
      ensures log[|old(log)|] != Reply(354) ==>
                !aborted && Valid() && standing.phase == Idle && conn.frags == old(conn.frags) && |log| == |old(log)| + 1
      ensures log[|old(log)|] == Reply(354) ==>
                && (aborted <==> AfterDot(old(conn.frags)).None?)
                && (if aborted then standing.phase.Draining?
                    else Valid() && standing.phase == Idle && !mailSet && Some(conn.frags) == AfterDot(old(conn.frags)))
    {
      if !mailSet || |recipients| == 0 { Answered(503); return false; }
      if !bare { Answered(501); return false; }
      var capacity := world.capacity(calls);
      calls := calls + 1;
      if capacity != Room {
        Answered(if capacity.NoRoom? then 452 else 451);
        return false;
      }
      Answered(354);
      aborted := ReceiveData();
    }

    /** receiveData: hand the decoded body to the receiver, resynchronise, answer
        every recipient, clear the transaction. */
    method ReceiveData() returns (aborted: bool)
      requires Valid() && standing.phase == Ready && mailSet && recipients != []
      modifies this, conn
      ensures old(log) < log && Told(standing) && log[|old(log)|].Received?
      ensures aborted <==> AfterDot(old(conn.frags)).None?
      ensures aborted ==> standing.phase.Draining?
      ensures !aborted ==> Valid() && standing.phase == Idle && !mailSet && Some(conn.frags) == AfterDot(old(conn.frags))
    {
      var inboxes := Inboxes(recipients);
      ghost var frags := conn.frags;
      var data, end;
      data, end, aborted := ConsumeBody(conn, rules.maxMessage, rules.maxLine, world.buffers(calls));
      var outcome := world.receive(calls, data, end);
      calls := calls + 1;
      assert Genuine(Received(sender, inboxes, data, end, outcome), world);
      Log(Received(sender, inboxes, data, end, outcome));
      if aborted { return; }
      HandedOver(frags, rules.maxMessage, rules.maxLine, data, end);
      Account(Body(Lines(frags)));
      Answer(outcome);
    }

    /** The drained body enters the transcript, and the input accounting with it. */
    ghost method Account(body: seq<Octets>)
      requires ValidRules(rules) && Told(standing) && Tracks(standing)
      requires standing.phase.Draining? && DOT !in body && HandsOver(body, standing.phase.data, standing.phase.end)
      requires standing.consumed + (body + [DOT] + Lines(conn.frags)) == input
      modifies this`log, this`standing
      ensures Valid() && standing.phase == Answering(recipients, old(standing).phase.outcome)
      ensures log == old(log) + [Drained(body)]
    {
      ghost var consumed := standing.consumed;
      Log(Drained(body));
      Regroup(consumed, body, Lines(conn.frags));
    }

    /** One final reply per recipient, in order. */
    method SendFinals(outcome: Outcome)
      requires Told(standing) && standing.phase == Answering(recipients, outcome)
      modifies this`log, this`standing
      ensures Told(standing) && standing == old(standing).(phase := Answering([], outcome)) && old(log) <= log
    {
      assert recipients[0..] == recipients;
      for n := 0 to |recipients|
        invariant Told(standing) && standing == old(standing).(phase := Answering(recipients[n..], outcome))
        invariant old(log) <= log
      {
        LogFinal(n, outcome);
      }
      assert recipients[|recipients|..] == [];
    }

    /** The final replies, then resetTransaction. */
    method Answer(outcome: Outcome)
      requires Valid() && standing.phase == Answering(recipients, outcome)
      modifies this`log, this`standing, this`mailSet, this`sender, this`declaredSize, this`recipients, this`recipientSet
      ensures Valid() && standing.phase == Idle && !mailSet && old(log) < log
    {
      SendFinals(outcome);
      ResetTransaction();
      Log(Closed);
    }

    ghost method LogFinal(n: nat, outcome: Outcome)
      requires Told(standing) && n < |recipients| && standing.phase == Answering(recipients[n..], outcome)
      modifies this`log, this`standing
      ensures Told(standing) && standing == old(standing).(phase := Answering(recipients[n + 1..], outcome))
      ensures log == old(log) + [Final(recipients[n].address, Code(outcome))]
    {
      assert recipients[n..][0] == recipients[n] && recipients[n..][1..] == recipients[n + 1..];
      Log(Final(recipients[n].address, Code(outcome)));
    }

    /** Read one line as a command; lines over the limit are consumed and refused.  The
        input is all accounted for when there is none. */
    method ReadCommand() returns (r: LineResult)
      requires Valid() && standing.phase == Idle
      modifies this`log, this`standing, conn
      ensures r == LineFailed(Broken) ==> log == old(log) && standing == old(standing) && standing.consumed == input
      ensures r != LineFailed(Broken) ==>
                && Valid() && old(log) < log && |conn.frags| < |old(conn.frags)|
                && standing.phase == Heard(if r.Text? then Some(rules.parse(r.line)) else None)
    {
      ghost var first, consumed := FirstLine(conn.frags), standing.consumed;
      r := ReadLimitedLine(conn, rules.maxCommand);
      if r == LineFailed(Broken) { return; }
      assert consumed + ([first.text] + Lines(conn.frags)) == consumed + [first.text] + Lines(conn.frags);
      Log(CommandLine(first.text));
    }

    /** The commands whose answer depends on nothing. */
    method DoPlain(command: Command, code: int)
      requires Valid() && standing.phase == Heard(Some(command)) && code != 354
      requires Answers(standing, Some(command), Reply(code), rules)
      modifies this`log, this`standing
      ensures Valid() && log == old(log) + [Reply(code)] && standing.phase == if code == 221 then Over else Idle
    {
      Answered(code);
    }

    /** Every command gets the answer the transcript language asks for. */
    method Dispatch(command: Command) returns (aborted: bool)
      requires Valid() && standing.phase == Heard(Some(command))
      modifies this, conn
      ensures old(log) < log && Told(standing) && Answers(old(standing), Some(command), log[|old(log)|], rules)
      ensures !command.Data? ==> |log| == |old(log)| + 1
      ensures aborted ==> standing.phase.Draining?
      ensures !aborted ==>
                && Valid() && |conn.frags| <= |old(conn.frags)|
                && standing.phase == if command == Quit then Over else Idle
    {
      aborted := false;
      match command {
        case Lhlo(named) => DoLhlo(named);
        case Mail(mail) => DoMail(mail);
        case Rcpt(rcpt) => DoRcpt(rcpt);
        case Data(bare) =>
          AfterDotShrinks(conn.frags);
          aborted := DoData(bare);
        case Rset => DoRset();
        case Noop => DoPlain(command, 250);
        case Quit => DoPlain(command, 221);
        case HeloOrEhlo => DoPlain(command, 500);
        case Vrfy => DoPlain(command, 252);
        case Unknown => DoPlain(command, 500);
      }
      FirstNew(old(log), log, rules);
    }

    /** The command loop.  Whatever the input, grammar and outside world, the transcript
        is legal and genuine: every command is answered and every delivery reported.  It
        ends with QUIT, or with all input accounted for as command lines and bodies, or
        inside a body that is never terminated, and then nobody has been answered. */
    method Run() returns (quit: bool, aborted: bool)
      requires Valid() && standing.phase == Idle
      modifies this, conn
      ensures old(log) <= log && Legal(log, rules) && AllGenuine(log, world)
      ensures var s := Now(log, rules);
              && (aborted ==> s.phase.Draining?)
              && (!aborted ==> s.phase == if quit then Over else Idle)
              && (!aborted && !quit ==> s.consumed == input)
    {
      while true
        invariant Valid() && standing.phase == Idle && old(log) <= log
        decreases |conn.frags|
      {
        var r := ReadCommand();
        if r == LineFailed(Broken) { return false, false; }
        if r.LineFailed? {
          Answered(500);
          continue;
        }
        var command := rules.parse(r.line);
        aborted := Dispatch(command);
        if aborted { return false, true; }
        if command == Quit { return true, false; }
      }
    }
  }

  /** A receiver that succeeds only once its reader has reached the terminator, as
      storing the whole stream does. */
  ghost predicate ReadsToTheEnd(world: World) {
    forall n, data, end :: world.receive(n, data, end) == Delivered ==> end == Some(Terminated)
  }

  /** In a session with such a receiver, whoever is told 250 after DATA has had the whole
      body, unstuffed, handed over. */
  lemma AcknowledgedBodiesAreWhole(log: seq<Event>, rules: Rules, world: World, k: nat) returns (i: nat)
    requires Legal(log, rules) && AllGenuine(log, world) && ReadsToTheEnd(world)
    requires k < |log| && log[k].Final? && log[k].code == 250
    ensures i + 1 < k && log[i].Received? && log[i + 1].Drained?
    ensures log[i].data == Joined(UnstuffAll(log[i + 1].body))
  {
    forall j | 0 <= j < |log| && log[j].Received? && log[j].outcome == Delivered ensures log[j].end == Some(Terminated) {
      assert Genuine(log[j], world);
    }
    i := TranscriptFacts.DeliveredMeansWholeBody(log, rules, k);
  }

  lemma Regroup(a: seq<Octets>, b: seq<Octets>, c: seq<Octets>)
    ensures a + (b + [DOT] + c) == a + b + [DOT] + c
  {
  }

  /** What the receiver was handed is the drained body's beginning, or all of it. */
  lemma HandedOver(frags: seq<Fragment>, budget: int, maxLine: int, data: Octets, end: Option<End>)
    requires budget >= 0 && maxLine >= 1 && AfterDot(frags).Some?
    requires data <= Decode(frags, budget, maxLine).output
    requires end.Some? ==> Decoded(data, end.value) == Decode(frags, budget, maxLine)
    ensures var body := Body(Lines(frags));
            DOT !in body && Lines(frags) == body + [DOT] + Lines(AfterDot(frags).value) && HandsOver(body, data, end)
  {
    AfterDotSplitsLines(frags);
    DecodeTerminatesIff(frags, budget, maxLine);
  }

  lemma {:induction false} AfterDotShrinks(frags: seq<Fragment>)
    ensures AfterDot(frags).Some? ==> |AfterDot(frags).value| < |frags|
    decreases |frags|
  {
    var first := FirstLine(frags);
    if first.Line? && first.text != DOT {
      AfterDotShrinks(first.rest);
    }
  }
}
