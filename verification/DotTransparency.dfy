/** The decoder against section 4.5.2 of RFC 5321: exactly when they agree. */
module DotTransparency {
  import opened Common
  import opened DataReader
  import opened DataTransparency

  /** The receiver's side as the RFC words it: drop any leading dot. */
  function RfcUnstuff(line: Octets): Octets {
    if |line| > 0 && line[0] == '.' then line[1..] else line
  }

  function RfcUnstuffAll(lines: seq<Octets>): seq<Octets> {
    if lines == [] then [] else [RfcUnstuff(lines[0])] + RfcUnstuffAll(lines[1..])
  }

  /** One dot, then something else: the code keeps the dot, the RFC drops it. */
  predicate Departs(line: Octets) {
    |line| >= 2 && line[0] == '.' && line[1] != '.'
  }

  function Departures(lines: seq<Octets>): nat {
    if lines == [] then 0 else (if Departs(lines[0]) then 1 else 0) + Departures(lines[1..])
  }

  lemma UnstuffVersusRfc(line: Octets)
    requires line != DOT
    ensures if Departs(line) then |Unstuff(line)| == |RfcUnstuff(line)| + 1 else Unstuff(line) == RfcUnstuff(line)
  {
  }

  /** Every departing line leaves one octet too many, and no other line differs. */
  lemma {:induction false} JoinedVersusRfc(lines: seq<Octets>)
    requires DOT !in lines
    ensures |Joined(UnstuffAll(lines))| == |Joined(RfcUnstuffAll(lines))| + Departures(lines)
    ensures Departures(lines) == 0 ==> UnstuffAll(lines) == RfcUnstuffAll(lines)
    ensures Departures(lines) == 0 <==> forall l | l in lines :: !Departs(l)
  {
    if lines != [] {
      var head, tail := lines[0], lines[1..];
      assert lines == [head] + tail;
      UnstuffVersusRfc(head);
      JoinedVersusRfc(tail);
    }
  }

  /** A body that is decoded to its end is decoded as the RFC asks exactly when no line
      of it is a dot followed by something other than a dot. */
  lemma DecodesByRfcIff(frags: seq<Fragment>, budget: int, maxLine: int)
    requires budget >= 0 && maxLine >= 1 && Decode(frags, budget, maxLine).end == Terminated
    ensures Decode(frags, budget, maxLine).output == Joined(RfcUnstuffAll(Body(Lines(frags))))
       <==> forall l | l in Body(Lines(frags)) :: !Departs(l)
  {
    DecodeTerminatesIff(frags, budget, maxLine);
    BodySplit(Lines(frags));
    JoinedVersusRfc(Body(Lines(frags)));
  }

  /** The shortest departing body: ".a" is delivered with its dot. */
  lemma DepartingInput(budget: int, maxLine: int)
    requires budget >= 4 && maxLine >= 2
    ensures var frags := [Fragment(".a", false), Fragment(".", false)];
            && Lines(frags) == [".a", DOT]
            && Decode(frags, budget, maxLine) == Decoded(".a" + CRLF, Terminated)
            && Joined(RfcUnstuffAll(Body(Lines(frags)))) == "a" + CRLF
            && Decode(frags, budget, maxLine).output != Joined(RfcUnstuffAll(Body(Lines(frags))))
  {
    var last := [Fragment(".", false)];
    var frags := [Fragment(".a", false)] + last;
    assert frags[1..] == last && last[1..] == [];
    assert FirstLine(last) == Line(DOT, []) && Lines([]) == [];
    assert Lines(last) == [DOT];
    assert FirstLine(frags) == Line(".a", last);
    assert Lines(frags) == [".a"] + [DOT];
    assert Decode(last, budget - 4, maxLine) == Decoded("", Terminated);
    assert Unstuff(".a") == ".a" && |".a" + CRLF| == 4;
    assert ".a" + CRLF + "" == ".a" + CRLF;
    var body := Body([".a", DOT]);
    assert [".a", DOT][1..] == [DOT] && Body([DOT]) == [];
    assert body == [".a"] && body[1..] == [];
    assert RfcUnstuff(".a") == "a" && RfcUnstuffAll(body) == ["a"];
    assert ["a"][1..] == [] && Joined(["a"]) == "a" + CRLF + "";
    assert (".a" + CRLF)[0] != ("a" + CRLF)[0];
  }
}
