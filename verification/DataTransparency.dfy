/** What the DATA decoder computes: independence from fragmentation and buffer
    sizes, the dot-stuffing round trip, and resynchronisation. */
module DataTransparency {
  import opened Common
  import opened DataReader

  // ----- the decoder against whole lines ------------------------------------

  /** The lines before the first ".". */
  function Body(lines: seq<Octets>): seq<Octets> {
    if lines == [] || lines[0] == DOT then [] else [lines[0]] + Body(lines[1..])
  }

  function UnstuffAll(lines: seq<Octets>): seq<Octets> {
    if lines == [] then [] else [Unstuff(lines[0])] + UnstuffAll(lines[1..])
  }

  /** Lines ended by CRLF. */
  function Joined(lines: seq<Octets>): Octets {
    if lines == [] then "" else lines[0] + CRLF + Joined(lines[1..])
  }

  /** One decoded line. */
  function Emitted(line: Octets): Octets { Unstuff(line) + CRLF }

  /** The body with its limits left aside, decoded line by line. */
  function Whole(frags: seq<Fragment>): Octets
    decreases |frags|
  {
    match FirstLine(frags)
    case NoLine => ""
    case Line(text, rest) => if text == DOT then "" else Emitted(text) + Whole(rest)
  }

  /** There is a terminator, and the lines before it keep within the limits. */
  predicate Ends(frags: seq<Fragment>, budget: int, maxLine: int)
    decreases |frags|
  {
    match FirstLine(frags)
    case NoLine => false
    case Line(text, rest) =>
      text == DOT || (|text| <= maxLine && |Emitted(text)| <= budget && Ends(rest, budget - |Emitted(text)|, maxLine))
  }

  lemma PrefixAfter(head: Octets, a: Octets, b: Octets)
    requires a <= b
    ensures head + a <= head + b
  {
  }

  lemma {:induction false} DecodeEnds(frags: seq<Fragment>, budget: int, maxLine: int)
    requires maxLine >= 1
    ensures var d := Decode(frags, budget, maxLine);
            && (d.end == Terminated <==> Ends(frags, budget, maxLine))
            && (d.end == Terminated ==> d.output == Whole(frags))
            && d.output <= Whole(frags)
    decreases |frags|
  {
    var first := FirstLine(frags);
    if first.Line? && first.text != DOT && |Emitted(first.text)| <= budget {
      var left := budget - |Emitted(first.text)|;
      DecodeEnds(first.rest, left, maxLine);
      PrefixAfter(Emitted(first.text), Decode(first.rest, left, maxLine).output, Whole(first.rest));
    }
  }

  lemma {:induction false} WholeIsJoined(frags: seq<Fragment>)
    ensures Whole(frags) == Joined(UnstuffAll(Body(Lines(frags))))
    decreases |frags|
  {
    var first := FirstLine(frags);
    if first.Line? && first.text != DOT {
      WholeIsJoined(first.rest);
      JoinedCons(first.text, Body(Lines(first.rest)));
    }
  }

  lemma JoinedCons(text: Octets, body: seq<Octets>)
    ensures Joined(UnstuffAll([text] + body)) == Emitted(text) + Joined(UnstuffAll(body))
  {
    assert ([text] + body)[1..] == body;
    var all := UnstuffAll([text] + body);
    assert all == [Unstuff(text)] + UnstuffAll(body) && all[1..] == UnstuffAll(body);
  }

  predicate ShortLines(lines: seq<Octets>, maxLine: int) {
    forall i | 0 <= i < |lines| :: |lines[i]| <= maxLine
  }

  /** The terminator is there, no line before it is too long and the decoded total fits. */
  ghost predicate Fits(frags: seq<Fragment>, budget: int, maxLine: int) {
    DOT in Lines(frags) && ShortLines(Body(Lines(frags)), maxLine) && |Joined(UnstuffAll(Body(Lines(frags))))| <= budget
  }

  lemma ShortCons(text: Octets, body: seq<Octets>, maxLine: int)
    ensures ShortLines([text] + body, maxLine) <==> |text| <= maxLine && ShortLines(body, maxLine)
  {
    var all := [text] + body;
    assert all[0] == text;
    forall i | 0 <= i < |body| ensures all[i + 1] == body[i] {}
  }

  lemma {:induction false} EndsIffFits(frags: seq<Fragment>, budget: int, maxLine: int)
    requires budget >= 0
    ensures Ends(frags, budget, maxLine) <==> Fits(frags, budget, maxLine)
    decreases |frags|
  {
    var first := FirstLine(frags);
    if first.Line? {
      var Line(text, rest) := first;
      if text == DOT {
        assert Lines(frags)[0] == DOT;
      } else {
        JoinedCons(text, Body(Lines(rest)));
        ShortCons(text, Body(Lines(rest)), maxLine);
        if |Emitted(text)| <= budget { EndsIffFits(rest, budget - |Emitted(text)|, maxLine); }
      }
    }
  }

  /** Decoding reaches the terminator exactly when there is one and every line and
      the decoded total before it are within limits; then it yields those lines,
      unstuffed, whatever the fragmentation, and otherwise a beginning of them. */
  lemma DecodeTerminatesIff(frags: seq<Fragment>, budget: int, maxLine: int)
    requires budget >= 0 && maxLine >= 1
    ensures var d := Decode(frags, budget, maxLine);
            var body := Joined(UnstuffAll(Body(Lines(frags))));
            && (d.end == Terminated <==> Fits(frags, budget, maxLine))
            && (d.end == Terminated ==> d.output == body)
            && d.output <= body
  {
    DecodeEnds(frags, budget, maxLine);
    EndsIffFits(frags, budget, maxLine);
    WholeIsJoined(frags);
  }

  // ----- dot transparency ----------------------------------------------------

  /** The sender's side of section 4.5.2 of RFC 5321. */
  function Stuff(line: Octets): Octets {
    if |line| > 0 && line[0] == '.' then "." + line else line
  }

  function StuffAll(lines: seq<Octets>): seq<Octets> {
    if lines == [] then [] else [Stuff(lines[0])] + StuffAll(lines[1..])
  }

  lemma {:induction false} StuffedBody(lines: seq<Octets>, more: seq<Octets>)
    ensures Body(StuffAll(lines) + [DOT] + more) == StuffAll(lines)
    ensures UnstuffAll(StuffAll(lines)) == lines
    ensures DOT in StuffAll(lines) + [DOT] + more
  {
    var all := StuffAll(lines) + [DOT] + more;
    assert all[|StuffAll(lines)|] == DOT;
    if lines == [] {
      assert all == [DOT] + more;
    } else {
      StuffedBody(lines[1..], more);
      var head, tail := Stuff(lines[0]), StuffAll(lines[1..]);
      assert Unstuff(head) == lines[0] && head != DOT;
      assert all[0] == head && all[1..] == tail + [DOT] + more;
      assert ([head] + tail)[1..] == tail;
    }
  }

  /** Decoding any fragmentation of a dot-stuffed message followed by the terminator
      returns the original lines, if they fit the limits. */
  lemma DotStuffingRoundTrip(lines: seq<Octets>, more: seq<Octets>, frags: seq<Fragment>, budget: int, maxLine: int)
    requires budget >= 0 && maxLine >= 1
    requires Lines(frags) == StuffAll(lines) + [DOT] + more
    requires ShortLines(StuffAll(lines), maxLine) && |Joined(lines)| <= budget
    ensures Decode(frags, budget, maxLine) == Decoded(Joined(lines), Terminated)
  {
    StuffedBody(lines, more);
    DecodeTerminatesIff(frags, budget, maxLine);
  }

  lemma Chunked(out: Octets, before: Octets, data: Octets, after: Octets, whole: Octets)
    requires out + before == whole && data + after == before
    ensures (out + data) + after == whole
  {
  }

  // ----- reading with arbitrary buffers ---------------------------------------

  /** A receiver that reads with the given buffer sizes until it stops or is told to. */
  method ReadWith(r: Reader, sizes: seq<nat>) returns (out: Octets, end: Option<End>)
    requires r.Valid()
    modifies r, r.conn
    ensures r.Valid() && r.ToCome() == old(r.ToCome())
    ensures out + r.Pending().output == old(r.Pending()).output && r.Pending().end == old(r.Pending()).end
    ensures end.Some? ==> Decoded(out, end.value) == old(r.Pending())
  {
    out, end := "", None;
    ghost var whole := r.Pending().output;
    for i := 0 to |sizes|
      invariant r.Valid() && r.ToCome() == old(r.ToCome())
      invariant out + r.Pending().output == whole && r.Pending().end == old(r.Pending()).end
      invariant end.None?
    {
      ghost var before := r.Pending().output;
      var data;
      data, end := r.Read(sizes[i]);
      Chunked(out, before, data, r.Pending().output, whole);
      out := out + data;
      if end.Some? { return; }
    }
  }

  /** For every input, fragmentation and sequence of buffer sizes, what was read is
      a prefix of the decoding within maxBytes, and all of it once an end is seen. */
  method ReadMessage(conn: Connection, maxBytes: int, maxLine: int, sizes: seq<nat>) returns (out: Octets, end: Option<End>)
    requires maxBytes >= 0 && maxLine >= 1
    modifies conn
    ensures |out| <= maxBytes && out <= Decode(old(conn.frags), maxBytes, maxLine).output
    ensures end.Some? ==> Decoded(out, end.value) == Decode(old(conn.frags), maxBytes, maxLine)
  {
    var r := new Reader(conn, maxBytes, maxLine);
    out, end := ReadWith(r, sizes);
  }

  /** Reading to the end with any non-empty buffer terminates with the whole decoding. */
  method ReadToEnd(r: Reader, n: nat) returns (out: Octets, end: End)
    requires r.Valid() && n > 0
    modifies r, r.conn
    ensures Decoded(out, end) == old(r.Pending())
  {
    out := "";
    ghost var whole := r.Pending().output;
    while true
      invariant r.Valid()
      invariant out + r.Pending().output == whole && r.Pending().end == old(r.Pending()).end
      decreases |r.Pending().output|
    {
      ghost var before := r.Pending().output;
      var data, e := r.Read(n);
      Chunked(out, before, data, r.Pending().output, whole);
      out := out + data;
      if e.Some? { return out, e.value; }
    }
  }

  /** The input side of receiveData: however much the receiver read before it
      returned and whichever limit was hit, on success the connection stands just
      past the first line equal to "."; it fails exactly when there is none. */
  method ConsumeBody(conn: Connection, maxBytes: int, maxLine: int, sizes: seq<nat>)
    returns (out: Octets, end: Option<End>, failed: bool)
    requires maxBytes >= 0 && maxLine >= 1
    modifies conn
    ensures failed <==> AfterDot(old(conn.frags)).None?
    ensures !failed ==> Some(conn.frags) == AfterDot(old(conn.frags))
    ensures out <= Decode(old(conn.frags), maxBytes, maxLine).output
    ensures end.Some? ==> Decoded(out, end.value) == Decode(old(conn.frags), maxBytes, maxLine)
  {
    var r := new Reader(conn, maxBytes, maxLine);
    out, end := ReadWith(r, sizes);
    failed := r.Drain();
  }

  /** The body is the stretch before the first ".". */
  lemma {:induction false} BodySplit(lines: seq<Octets>)
    ensures |Body(lines)| <= |lines| && lines[..|Body(lines)|] == Body(lines) && DOT !in Body(lines)
    ensures DOT in lines <==> |Body(lines)| < |lines|
    ensures |Body(lines)| < |lines| ==> lines[|Body(lines)|] == DOT
  {
    if lines != [] && lines[0] != DOT {
      var head, tail := lines[0], lines[1..];
      BodySplit(tail);
      assert lines == [head] + tail;
    }
  }

  lemma {:induction false} AfterDotDrops(frags: seq<Fragment>)
    ensures AfterDot(frags).Some? <==> DOT in Lines(frags)
    ensures AfterDot(frags).Some? ==>
              |Body(Lines(frags))| < |Lines(frags)|
              && Lines(AfterDot(frags).value) == Lines(frags)[|Body(Lines(frags))| + 1..]
    decreases |frags|
  {
    var first := FirstLine(frags);
    if first.Line? {
      var text, tail := first.text, Lines(first.rest);
      assert Lines(frags) == [text] + tail;
      if text != DOT {
        AfterDotDrops(first.rest);
        assert ([text] + tail)[1..] == tail;
        var n := |Body(tail)| + 1;
        if n <= |tail| {
          assert ([text] + tail)[n + 1..] == tail[n..];
        }
      }
    }
  }

  /** The terminator is the first "." among the lines, and everything after it,
      nothing before it, is left for the command loop. */
  lemma AfterDotSplitsLines(frags: seq<Fragment>)
    ensures AfterDot(frags).Some? <==> DOT in Lines(frags)
    ensures DOT !in Body(Lines(frags))
    ensures AfterDot(frags).Some? ==>
              Lines(frags) == Body(Lines(frags)) + [DOT] + Lines(AfterDot(frags).value)
  {
    var lines := Lines(frags);
    AfterDotDrops(frags);
    BodySplit(lines);
    if AfterDot(frags).Some? {
      SplitAt(lines, |Body(lines)|, Body(lines), Lines(AfterDot(frags).value));
    }
  }

  lemma SplitAt(lines: seq<Octets>, n: nat, body: seq<Octets>, tail: seq<Octets>)
    requires n < |lines| && lines[..n] == body && lines[n] == DOT && lines[n + 1..] == tail
    ensures lines == body + [DOT] + tail
  {
  }
}
