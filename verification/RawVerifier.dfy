/** Reading Raw MIME for parsing: every byte is counted and hashed on the way, and
    the parse only stands if the whole object has the claimed size and digest. */
module RawVerifier {
  import opened Common
  import ContentKey

  datatype ReadError = NoError | EndOfFile | SourceFailed | Corrupt | Canceled

  /** One answer of the underlying reader: some bytes and possibly an error. */
  datatype Chunk = Chunk(data: Raw, error: ReadError)

  function Content(script: seq<Chunk>): Raw {
    if script == [] then [] else script[0].data + Content(script[1..])
  }

  /** The object is its chunks' data in the order read, wherever the reads fall. */
  lemma {:induction false} ContentConcat(a: seq<Chunk>, b: seq<Chunk>)
    ensures Content(a + b) == Content(a) + Content(b)
  {
    if a == [] {
      assert a + b == b;
    } else {
      ContentConcat(a[1..], b);
      assert (a + b)[1..] == a[1..] + b && (a + b)[0] == a[0];
      Associative(a[0].data, Content(a[1..]), Content(b));
    }
  }

  lemma Associative(a: Raw, b: Raw, c: Raw)
    ensures a + b + c == a + (b + c)
  {
  }

  lemma OneChunk(c: Chunk)
    ensures Content([c]) == c.data
  {
    assert [c][1..] == [];
  }

  /** The io.Reader contract as far as it is used: end of file comes last, once. */
  predicate WellFormed(script: seq<Chunk>) {
    forall i | 0 <= i < |script| ::
      && script[i].error in {NoError, EndOfFile, SourceFailed}
      && (script[i].error == EndOfFile ==> i == |script| - 1)
  }

  predicate Matches(digest: Raw -> string, key: string, size: int, raw: Raw) {
    |raw| == size && key == ContentKey.KeyOf(digest(raw))
  }

  class Verifier {
    var script: seq<Chunk>
    const digest: Raw -> string
    const key: string
    const size: int
    var hashed: Raw
    var read: int
    var verified: bool
    var error: ReadError
    ghost const total: Raw

    constructor (script: seq<Chunk>, digest: Raw -> string, key: string, size: int)
      requires WellFormed(script)
      ensures Valid() && this.script == script && hashed == [] && !verified && error == NoError
      ensures total == Content(script) && this.digest == digest && this.key == key && this.size == size
    {
      this.script, this.digest, this.key, this.size := script, digest, key, size;
      hashed, read, verified, error := [], 0, false, NoError;
      total := Content(script);
    }

    /** Hashed so far plus still to come is the whole object; a verdict is only
        reached at the end, and is NoError exactly when the object matches. */
    ghost predicate Valid()
      reads this
    {
      && WellFormed(script)
      && hashed + Content(script) == total
      && read == |hashed|
      && (verified ==> script == [] && error == if Matches(digest, key, size, total) then NoError else Corrupt)
      && (!verified ==> error == NoError)
    }

    method Verify() returns (e: ReadError)
      requires Valid() && script == []
      modifies this`verified
      ensures verified
      ensures e == if Matches(digest, key, size, total) then NoError else Corrupt
    {
      assert hashed == total;
      if verified { return error; }
      verified := true;
      if read != size { return Corrupt; }
      if key != ContentKey.KeyOf(digest(hashed)) { return Corrupt; }
      return NoError;
    }

    /** One Read: passes data through, and turns the end of file into a verdict. */
    method Read() returns (data: Raw, e: ReadError)
      requires Valid()
      modifies this
      ensures Valid()
      ensures old(error) == NoError ==> hashed == old(hashed) + data
      ensures e == EndOfFile ==> verified && error == NoError
      ensures e == Corrupt ==> verified && error == Corrupt
      ensures e in {NoError, EndOfFile, SourceFailed, Corrupt}
      ensures |script| < |old(script)| || e in {EndOfFile, Corrupt}
      ensures (forall c | c in old(script) :: c.error != SourceFailed) ==>
                && e != SourceFailed
                && forall c | c in script :: c.error != SourceFailed
    {
      if error != NoError { return [], error; }
      var chunk := if script == [] then Chunk([], EndOfFile) else script[0];
      if script != [] {
        assert hashed + (chunk.data + Content(script[1..])) == (hashed + chunk.data) + Content(script[1..]);
        script := script[1..];
      }
      data := chunk.data;
      read := read + |data|;
      hashed := hashed + data;
      if chunk.error == EndOfFile {
        error := Verify();
        if error != NoError { return data, error; }
      }
      return data, chunk.error;
    }

    /** Drain what the parser left unread; `budget` reads happen before cancellation. */
    method Finish(budget: nat) returns (e: ReadError)
      requires Valid()
      modifies this
      ensures Valid()
      ensures e == NoError ==> verified && error == NoError
      ensures (forall c | c in old(script) :: c.error != SourceFailed) && budget > |old(script)| ==>
                e == error && verified
    {
      if verified { return error; }
      var left := budget;
      while true
        invariant Valid()
        invariant |script| <= |old(script)|
        invariant (forall c | c in old(script) :: c.error != SourceFailed) ==> forall c | c in script :: c.error != SourceFailed
        invariant budget > |old(script)| ==> left > |script|
        decreases |script|
      {
        if left == 0 { return Canceled; }
        left := left - 1;
        var _, err := Read();
        if err != NoError {
          if err == EndOfFile { return NoError; }
          return err;
        }
      }
    }
  }

  /** Why a parse does not stand. */
  datatype Failure = NotOpened | ParserFailed | Unverified(error: ReadError) | NotClosed

  /** No read of the source fails, and nothing cancels the drain. */
  predicate Smooth(script: seq<Chunk>, budget: nat) {
    (forall c | c in script :: c.error != SourceFailed) && budget > |script|
  }

  /** parseClaim: open the object, let the parser read as often as it likes and accept or
      not, then drain the rest.  The parse stands only if the whole object matched its
      reference; on a source without read errors, exactly if nothing else went wrong. */
  method ParseClaim(source: Option<seq<Chunk>>, digest: Raw -> string, key: string, size: int,
                    parserReads: nat, parserAccepts: bool, budget: nat, closes: bool) returns (failure: Option<Failure>)
    requires source.Some? ==> WellFormed(source.value)
    ensures failure.None? ==> source.Some? && parserAccepts && closes && Matches(digest, key, size, Content(source.value))
    ensures source.None? <==> failure == Some(NotOpened)
    ensures source.Some? && !parserAccepts <==> failure == Some(ParserFailed)
    ensures source.Some? && parserAccepts && Smooth(source.value, budget) && !Matches(digest, key, size, Content(source.value)) ==>
              failure == Some(Unverified(Corrupt))
    ensures source.Some? && Smooth(source.value, budget) ==>
              (failure.None? <==> parserAccepts && closes && Matches(digest, key, size, Content(source.value)))
  {
    if source.None? { return Some(NotOpened); }
    var script := source.value;
    var verifier := new Verifier(script, digest, key, size);
    for n := 0 to parserReads
      invariant verifier.Valid() && |verifier.script| <= |script|
      invariant verifier.total == Content(script) && verifier.digest == digest && verifier.key == key && verifier.size == size
      invariant (forall c | c in script :: c.error != SourceFailed) ==> forall c | c in verifier.script :: c.error != SourceFailed
      modifies verifier
    {
      var _, _ := verifier.Read();
    }
    if !parserAccepts { return Some(ParserFailed); }
    var e := verifier.Finish(budget);
    if e != NoError { return Some(Unverified(e)); }
    return if closes then None else Some(NotClosed);
  }
}
