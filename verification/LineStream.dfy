/** What a line is: the stretch of the octet stream before its CRLF, however the
    connection cuts the stream into fragments. */
module LineStream {
  import opened Common
  import opened DataReader
  import opened DataTransparency

  /** The octets the fragments stand for: their data in order, and the CRLF that bufio
      took off after each final one. */
  function Stream(frags: seq<Fragment>): Octets {
    if frags == [] then ""
    else frags[0].data + (if frags[0].continued then "" else CRLF) + Stream(frags[1..])
  }

  /** The octets after the last complete line. */
  function Tail(frags: seq<Fragment>): Octets
    decreases |frags|
  {
    match FirstLine(frags)
    case NoLine => Stream(frags)
    case Line(_, rest) => Tail(rest)
  }

  /** The input ends with a complete line. */
  predicate Whole(frags: seq<Fragment>) {
    frags == [] || !frags[|frags| - 1].continued
  }

  lemma Regroup(a: Octets, b: Octets, c: Octets)
    ensures a + (b + c) == a + b + c
  {
  }

  /** A line is its fragments in the order they came. */
  lemma {:induction false} FirstLineStarts(frags: seq<Fragment>)
    requires FirstLine(frags).Line?
    ensures var Line(text, rest) := FirstLine(frags); Stream(frags) == text + CRLF + Stream(rest)
  {
    if frags[0].continued {
      FirstLineStarts(frags[1..]);
      var Line(text, rest) := FirstLine(frags[1..]);
      assert frags[0].data + "" == frags[0].data;
      Regroup(frags[0].data, text + CRLF, Stream(rest));
      Regroup(frags[0].data, text, CRLF);
    }
  }

  /** No octet is lost, added or moved: the lines, each with its CRLF, and what follows
      the last of them are the stream. */
  lemma {:induction false} LinesAreTheStream(frags: seq<Fragment>)
    ensures Joined(Lines(frags)) + Tail(frags) == Stream(frags)
    decreases |frags|
  {
    var first := FirstLine(frags);
    if first.Line? {
      FirstLineStarts(frags);
      LinesAreTheStream(first.rest);
      assert ([first.text] + Lines(first.rest))[1..] == Lines(first.rest);
      Regroup(first.text + CRLF, Joined(Lines(first.rest)), Tail(first.rest));
    }
  }

  lemma {:induction false} WholeHasLine(frags: seq<Fragment>)
    requires Whole(frags) && frags != []
    ensures FirstLine(frags).Line? && Whole(FirstLine(frags).rest)
  {
    if frags[0].continued {
      assert frags[1..] != [] && frags[1..][|frags| - 2] == frags[|frags| - 1];
      WholeHasLine(frags[1..]);
    }
  }

  /** Input that ends with a complete line is nothing but its lines. */
  lemma {:induction false} WholeIsLines(frags: seq<Fragment>)
    requires Whole(frags)
    ensures Joined(Lines(frags)) == Stream(frags) && Tail(frags) == ""
    decreases |frags|
  {
    LinesAreTheStream(frags);
    if frags != [] {
      WholeHasLine(frags);
      WholeIsLines(FirstLine(frags).rest);
    }
  }

  // ----- one stream, one list of lines ---------------------------------------------------

  predicate NoLf(s: Octets) { forall i | 0 <= i < |s| :: s[i] != '\n' }

  /** bufio cuts at every LF, so no fragment holds one. */
  predicate Cut(frags: seq<Fragment>) { forall i | 0 <= i < |frags| :: NoLf(frags[i].data) }

  predicate CutLines(lines: seq<Octets>) { forall i | 0 <= i < |lines| :: NoLf(lines[i]) }

  lemma {:induction false} FirstLineIsCut(frags: seq<Fragment>)
    requires Cut(frags)
    ensures FirstLine(frags).Line? ==> NoLf(FirstLine(frags).text) && Cut(FirstLine(frags).rest)
    ensures FirstLine(frags).NoLine? ==> NoLf(Stream(frags))
  {
    if frags != [] {
      assert NoLf(frags[0].data);
      assert forall i | 0 <= i < |frags[1..]| :: frags[1..][i] == frags[i + 1];
      if frags[0].continued { FirstLineIsCut(frags[1..]); }
    }
  }

  lemma {:induction false} LinesAreCut(frags: seq<Fragment>)
    requires Cut(frags)
    ensures CutLines(Lines(frags)) && NoLf(Tail(frags))
    decreases |frags|
  {
    FirstLineIsCut(frags);
    if FirstLine(frags).Line? { LinesAreCut(FirstLine(frags).rest); }
  }

  lemma NoLfBefore(b: Octets, y: Octets, k: nat)
    requires NoLf(b) && k <= |b|
    ensures (b + CRLF + y)[k] != '\n'
  {
  }

  /** The first LF ends the first line. */
  lemma FirstLf(a: Octets, x: Octets, b: Octets, y: Octets)
    requires NoLf(a) && NoLf(b) && a + CRLF + x == b + CRLF + y
    ensures a == b && x == y
  {
    var s, t := a + CRLF + x, b + CRLF + y;
    assert s[|a| + 1] == '\n' && t[|b| + 1] == '\n';
    if |a| < |b| {
      NoLfBefore(b, y, |a| + 1);
    } else if |b| < |a| {
      NoLfBefore(a, x, |b| + 1);
    } else {
      assert s[..|a|] == a && t[..|b|] == b && s[|a| + 2..] == x && t[|b| + 2..] == y;
    }
  }

  lemma LineIsNoTail(a: Octets, x: Octets, t: Octets)
    requires NoLf(t)
    ensures a + CRLF + x != t
  {
    assert (a + CRLF + x)[|a| + 1] == '\n';
  }

  lemma JoinedFirst(lines: seq<Octets>, tail: Octets)
    requires lines != []
    ensures Joined(lines) + tail == lines[0] + CRLF + (Joined(lines[1..]) + tail)
  {
    Regroup(lines[0] + CRLF, Joined(lines[1..]), tail);
  }

  /** Lines and tail can be read off the stream in one way only. */
  lemma {:induction false} OneReading(a: seq<Octets>, t: Octets, b: seq<Octets>, u: Octets)
    requires CutLines(a) && CutLines(b) && NoLf(t) && NoLf(u) && Joined(a) + t == Joined(b) + u
    ensures a == b && t == u
    decreases |a|
  {
    if a == [] && b == [] {
      assert Joined(a) + t == t && Joined(b) + u == u;
    } else if a == [] {
      JoinedFirst(b, u);
      assert Joined(a) + t == t;
      LineIsNoTail(b[0], Joined(b[1..]) + u, t);
    } else if b == [] {
      JoinedFirst(a, t);
      assert Joined(b) + u == u;
      LineIsNoTail(a[0], Joined(a[1..]) + t, u);
    } else {
      JoinedFirst(a, t);
      JoinedFirst(b, u);
      FirstLf(a[0], Joined(a[1..]) + t, b[0], Joined(b[1..]) + u);
      OneReading(a[1..], t, b[1..], u);
      assert a == [a[0]] + a[1..] && b == [b[0]] + b[1..];
    }
  }

  /** Decoding sees the lines and nothing else. */
  function DecodeLines(lines: seq<Octets>, budget: int, maxLine: int): Decoded {
    if lines == [] then Decoded("", ReadFailed)
    else if |lines[0]| > maxLine then Decoded("", LineTooLong)
    else if lines[0] == DOT then Decoded("", Terminated)
    else if |Emitted(lines[0])| > budget then Decoded("", TooLarge)
    else
      var d := DecodeLines(lines[1..], budget - |Emitted(lines[0])|, maxLine);
      Decoded(Emitted(lines[0]) + d.output, d.end)
  }

  lemma {:induction false} DecodeReadsLines(frags: seq<Fragment>, budget: int, maxLine: int)
    ensures Decode(frags, budget, maxLine) == DecodeLines(Lines(frags), budget, maxLine)
    decreases |frags|
  {
    var first := FirstLine(frags);
    if first.Line? {
      assert ([first.text] + Lines(first.rest))[1..] == Lines(first.rest);
      DecodeReadsLines(first.rest, budget - |Emitted(first.text)|, maxLine);
    }
  }

  /** Two fragmentations of one stream have the same lines, the same unfinished rest and
      the same decoding, under every limit. */
  lemma FragmentationIsInvisible(a: seq<Fragment>, b: seq<Fragment>, budget: int, maxLine: int)
    requires Cut(a) && Cut(b) && Stream(a) == Stream(b)
    ensures Lines(a) == Lines(b) && Tail(a) == Tail(b)
    ensures Decode(a, budget, maxLine) == Decode(b, budget, maxLine)
  {
    LinesAreTheStream(a);
    LinesAreTheStream(b);
    LinesAreCut(a);
    LinesAreCut(b);
    OneReading(Lines(a), Tail(a), Lines(b), Tail(b));
    DecodeReadsLines(a, budget, maxLine);
    DecodeReadsLines(b, budget, maxLine);
  }
}
