/** LMTP DATA: reading limited lines from a buffered connection, undoing dot
    transparency (section 4.5.2 of RFC 5321) and resynchronising after errors.

    Octets are characters.  The connection is what bufio's ReadLine returns: line
    fragments, each marked as continued or final, followed by a read error. */
module DataReader {
  import opened Common

  type Octets = string

  datatype Fragment = Fragment(data: Octets, continued: bool)

  const DOT: Octets := "."
  const CRLF: Octets := "\r\n"

  // ----- lines -----------------------------------------------------------------

  /** The first complete line and the fragments after it. */
  datatype LineRead = NoLine | Line(text: Octets, rest: seq<Fragment>)

  function FirstLine(frags: seq<Fragment>): (r: LineRead)
    ensures r.Line? ==> |r.rest| < |frags|
  {
    if frags == [] then NoLine
    else if !frags[0].continued then Line(frags[0].data, frags[1..])
    else
      match FirstLine(frags[1..])
      case NoLine => NoLine
      case Line(text, rest) => Line(frags[0].data + text, rest)
  }

  /** All complete lines, however they were fragmented. */
  function Lines(frags: seq<Fragment>): seq<Octets>
    decreases |frags|
  {
    match FirstLine(frags)
    case NoLine => []
    case Line(text, rest) => [text] + Lines(rest)
  }

  /** What is left after the first line equal to ".". */
  function AfterDot(frags: seq<Fragment>): Option<seq<Fragment>>
    decreases |frags|
  {
    match FirstLine(frags)
    case NoLine => None
    case Line(text, rest) => if text == DOT then Some(rest) else AfterDot(rest)
  }

  class Connection {
    var frags: seq<Fragment>

    constructor (frags: seq<Fragment>)
      ensures this.frags == frags
    {
      this.frags := frags;
    }

    method ReadLine() returns (f: Fragment, failed: bool)
      modifies this
      ensures failed <==> old(frags) == []
      ensures failed ==> frags == []
      ensures !failed ==> f == old(frags)[0] && frags == old(frags)[1..]
    {
      if frags == [] { return Fragment("", false), true; }
      f, failed := frags[0], false;
      frags := frags[1..];
    }
  }

  datatype LineError = TooLong | Broken
  datatype LineResult = Text(line: Octets) | LineFailed(error: LineError)

  /** Reads through the whole line even when it is over the limit. */
  method ReadLimitedLine(conn: Connection, limit: int) returns (r: LineResult)
    requires limit >= 0
    modifies conn
    ensures match FirstLine(old(conn.frags))
            case NoLine => r == LineFailed(Broken) && conn.frags == []
            case Line(text, rest) =>
              && conn.frags == rest
              && r == if |text| > limit then LineFailed(TooLong) else Text(text)
  {
    var buffer := "";
    var overLimit := false;
    ghost var whole := "";
    while true
      invariant |conn.frags| <= |old(conn.frags)|
      invariant overLimit <==> |whole| > limit
      invariant !overLimit ==> buffer == whole
      invariant FirstLine(old(conn.frags)) ==
                match FirstLine(conn.frags)
                case NoLine => NoLine
                case Line(text, rest) => Line(whole + text, rest)
      decreases |conn.frags|
    {
      ghost var before := conn.frags;
      var f, failed := conn.ReadLine();
      if failed { return LineFailed(Broken); }
      if !overLimit {
        if |buffer| + |f.data| > limit { overLimit := true; } else { buffer := buffer + f.data; }
      }
      ghost var after := FirstLine(conn.frags);
      assert f.continued && after.Line? ==> (whole + f.data) + after.text == whole + (f.data + after.text);
      whole := whole + f.data;
      if !f.continued {
        return if overLimit then LineFailed(TooLong) else Text(buffer);
      }
    }
  }

  // ----- decoding ----------------------------------------------------------------

  /** Only a leading ".." is unstuffed. */
  function Unstuff(line: Octets): Octets {
    if |line| >= 2 && line[0] == '.' && line[1] == '.' then line[1..] else line
  }

  datatype End = Terminated | TooLarge | LineTooLong | ReadFailed

  datatype Decoded = Decoded(output: Octets, end: End)

  /** Line-by-line decoding up to the terminator or the first violated limit. */
  function Decode(frags: seq<Fragment>, budget: int, maxLine: int): (d: Decoded)
    ensures budget >= 0 ==> |d.output| <= budget
    decreases |frags|
  {
    match FirstLine(frags)
    case NoLine => Decoded("", ReadFailed)
    case Line(text, rest) =>
      if |text| > maxLine then Decoded("", LineTooLong)
      else if text == DOT then Decoded("", Terminated)
      else
        var decoded := Unstuff(text) + CRLF;
        if |decoded| > budget then Decoded("", TooLarge)
        else
          var d := Decode(rest, budget - |decoded|, maxLine);
          Decoded(decoded + d.output, d.end)
  }

  class Reader {
    const conn: Connection
    const maxBytes: int
    const maxLine: int
    var written: int
    var pending: Octets
    var ended: bool
    var failure: Option<End>

    constructor (conn: Connection, maxBytes: int, maxLine: int)
      requires maxBytes >= 0 && maxLine >= 1
      ensures Valid() && Pending() == Decode(conn.frags, maxBytes, maxLine)
      ensures this.conn == conn && AfterDot(conn.frags) == ToCome()
    {
      this.conn, this.maxBytes, this.maxLine := conn, maxBytes, maxLine;
      written, pending, ended, failure := 0, "", false, None;
    }

    ghost predicate Valid()
      reads this, conn
    {
      && 0 <= written <= maxBytes && maxLine >= 1
      && !(ended && failure.Some?)
      && (failure.Some? ==> failure.value != Terminated)
      && (failure == Some(ReadFailed) ==> AfterDot(conn.frags) == None)
    }

    /** Everything still to be returned, and how it will end. */
    ghost function Pending(): Decoded
      reads this, conn
    {
      if failure.Some? then Decoded(pending, failure.value)
      else if ended then Decoded(pending, Terminated)
      else
        var d := Decode(conn.frags, maxBytes - written, maxLine);
        Decoded(pending + d.output, d.end)
    }

    /** Where the connection will stand once the terminator is consumed. */
    ghost function ToCome(): Option<seq<Fragment>>
      reads this, conn
    {
      if ended then Some(conn.frags) else AfterDot(conn.frags)
    }

    /** dataReader.Read with a buffer of `n` octets. */
    method Read(n: nat) returns (data: Octets, end: Option<End>)
      requires Valid()
      modifies this, conn
      ensures Valid() && ToCome() == old(ToCome())
      ensures |data| <= n && data + Pending().output == old(Pending()).output && Pending().end == old(Pending()).end
      ensures end.Some? ==> data == "" && Pending() == Decoded("", end.value)
      ensures end.None? && n > 0 ==> data != ""
      ensures written >= old(written) && written <= maxBytes
    {
      if n == 0 { return "", None; }
      if |pending| > 0 {
        data := Copy(n);
        return data, None;
      }
      if failure.Some? { return "", failure; }
      if ended { return "", Some(Terminated); }
      var r := ReadLimitedLine(conn, maxLine);
      if r.LineFailed? {
        failure := Some(if r.error == TooLong then LineTooLong else ReadFailed);
        return "", failure;
      }
      if r.line == DOT {
        ended := true;
        return "", Some(Terminated);
      }
      var line := if |r.line| >= 2 && r.line[0] == '.' && r.line[1] == '.' then r.line[1..] else r.line;
      if |line| + 2 > maxBytes - written {
        failure := Some(TooLarge);
        return "", failure;
      }
      written := written + |line| + 2;
      pending := line + CRLF;
      data := Copy(n);
      return data, None;
    }

    /** copy(buffer, pending) and advance. */
    method Copy(n: nat) returns (data: Octets)
      requires Valid() && n > 0 && pending != ""
      modifies this`pending
      ensures Valid() && data != "" && |data| <= n
      ensures data + Pending().output == old(Pending()).output && Pending().end == old(Pending()).end
    {
      var copied := if n < |pending| then n else |pending|;
      data := pending[..copied];
      assert pending == data + pending[copied..];
      ghost var d := Decode(conn.frags, maxBytes - written, maxLine);
      assert data + (pending[copied..] + d.output) == pending + d.output;
      pending := pending[copied..];
    }

    method Drain() returns (failed: bool)
      requires Valid()
      modifies this, conn
      ensures failed <==> old(ToCome()).None?
      ensures !failed ==> Some(conn.frags) == old(ToCome())
    {
      if ended { return false; }
      while true
        invariant !ended && maxLine >= 1 && AfterDot(conn.frags) == old(ToCome())
        decreases |conn.frags|
      {
        var r := ReadLimitedLine(conn, maxLine);
        if r.LineFailed? {
          if r.error == TooLong { continue; }
          return true;
        }
        if r.line == DOT {
          ended := true;
          return false;
        }
      }
    }
  }
}
