/** Text previews: normalised captures joined by newlines within a byte limit. */
module Preview {
  import opened Common
  import opened Utf8

  const NEWLINE: Byte := 0x0A

  /** normalizeBodyText. */
  function Normalize(raw: Bytes): Bytes { Trim(DropNul(ToValid(raw))) }

  function RemainingPreviewBytes(existing: Bytes, maxBytes: int): (r: nat)
    ensures existing == [] && maxBytes >= 0 ==> r == maxBytes
    ensures |existing| <= maxBytes ==> |existing| + r <= maxBytes
  {
    var remaining := maxBytes - |existing|;
    var separated := if existing != [] && remaining > 0 then remaining - 1 else remaining;
    if separated < 0 then 0 else separated
  }

  function AppendPreview(existing: Bytes, value: Bytes, maxBytes: int): Bytes {
    if value == [] || |existing| >= maxBytes then existing
    else
      var base := if existing != [] then existing + [NEWLINE] else existing;
      var remaining := maxBytes - |base|;
      if remaining <= 0 then Truncated(base, maxBytes) else base + Truncated(value, remaining)
  }

  /** Normalised text is valid, NUL-free, trimmed and no longer than what was captured. */
  lemma NormalizeIsClean(raw: Bytes)
    ensures Valid(Normalize(raw)) && NoNul(Normalize(raw)) && |Normalize(raw)| <= |raw|
    ensures LeadingSpace(Normalize(raw)) == 0 && TrailingSpace(Normalize(raw)) == 0
  {
    DropNulKeepsValid(ToValid(raw));
    TrimKeepsValid(DropNul(ToValid(raw)));
  }

  /** Exactly the clean strings are left alone, so normalising twice changes nothing. */
  lemma NormalizeFixpoints(s: Bytes)
    ensures Normalize(s) == s <==> Valid(s) && NoNul(s) && LeadingSpace(s) == 0 && TrailingSpace(s) == 0
    ensures Normalize(Normalize(s)) == Normalize(s)
  {
    NormalizeIsClean(s);
    if Valid(s) && NoNul(s) && LeadingSpace(s) == 0 && TrailingSpace(s) == 0 {
      CleanIsKept(s);
    }
    CleanIsKept(Normalize(s));
  }

  lemma CleanIsKept(s: Bytes)
    requires Valid(s) && NoNul(s) && LeadingSpace(s) == 0 && TrailingSpace(s) == 0
    ensures Normalize(s) == s
  {
    ToValidKeepsValid(s);
    DropNulSkips(s, |s|);
    assert s[|s|..] == [] && s[..|s|] == s;
    assert DropNul(s) == s;
  }

  /** Existing text and a new line, joined by a newline when both are present. */
  function Joined(existing: Bytes, value: Bytes): Bytes {
    if value == [] then existing else if existing == [] then value else existing + [NEWLINE] + value
  }

  /** The truncation inside appendPreview never cuts: a capture within the remaining
      bytes is joined whole, and the preview stays within its limit. */
  lemma AppendNeverCuts(existing: Bytes, raw: Bytes, maxBytes: int)
    requires |existing| <= maxBytes && |raw| <= RemainingPreviewBytes(existing, maxBytes)
    ensures AppendPreview(existing, Normalize(raw), maxBytes) == Joined(existing, Normalize(raw))
    ensures |Joined(existing, Normalize(raw))| <= maxBytes
  {
    NormalizeIsClean(raw);
  }

  lemma JoinedIsValid(existing: Bytes, value: Bytes)
    requires Valid(existing) && Valid(value)
    ensures Valid(Joined(existing, value))
  {
    if existing != [] && value != [] {
      assert [NEWLINE][1..] == [];
      assert Valid([NEWLINE]);
      ValidConcat(existing, [NEWLINE]);
      ValidConcat(existing + [NEWLINE], value);
    }
  }

  // ----- the preview of a whole message --------------------------------------------------

  function JoinLines(lines: seq<Bytes>): Bytes {
    if lines == [] then []
    else if |lines| == 1 then lines[0]
    else JoinLines(lines[..|lines| - 1]) + [NEWLINE] + lines[|lines| - 1]
  }

  function Capture(body: Bytes, limit: nat): (c: Bytes)
    ensures |c| <= limit
  {
    if |body| <= limit then body else body[..limit]
  }

  /** The line a body contributes after `text`. */
  function LineAfter(text: Bytes, body: Bytes, maxBytes: int): Bytes {
    Normalize(Capture(body, RemainingPreviewBytes(text, maxBytes)))
  }

  /** The non-empty normalised captures of the bodies. */
  function Lines(bodies: seq<Bytes>, maxBytes: int): seq<Bytes> {
    if bodies == [] then []
    else
      var n := |bodies| - 1;
      var before := Lines(bodies[..n], maxBytes);
      AddLine(before, LineAfter(JoinLines(before), bodies[n], maxBytes))
  }

  function AddLine(lines: seq<Bytes>, line: Bytes): seq<Bytes> {
    if line == [] then lines else lines + [line]
  }

  /** consumeEntity on one body: capture what room remains, normalise, append. */
  function Extended(text: Bytes, body: Bytes, maxBytes: int): Bytes {
    AppendPreview(text, LineAfter(text, body, maxBytes), maxBytes)
  }

  function Accumulated(bodies: seq<Bytes>, maxBytes: int): Bytes {
    if bodies == [] then []
    else Extended(Accumulated(bodies[..|bodies| - 1], maxBytes), bodies[|bodies| - 1], maxBytes)
  }

  predicate NonEmptyLines(lines: seq<Bytes>) { forall i | 0 <= i < |lines| :: lines[i] != [] }

  lemma ExtendedIsJoined(text: Bytes, body: Bytes, maxBytes: int)
    requires |text| <= maxBytes && Valid(text)
    ensures Extended(text, body, maxBytes) == Joined(text, LineAfter(text, body, maxBytes))
    ensures |Extended(text, body, maxBytes)| <= maxBytes && Valid(Extended(text, body, maxBytes))
  {
    var raw := Capture(body, RemainingPreviewBytes(text, maxBytes));
    AppendNeverCuts(text, raw, maxBytes);
    NormalizeIsClean(raw);
    JoinedIsValid(text, Normalize(raw));
  }

  lemma AddLineJoins(lines: seq<Bytes>, line: Bytes)
    requires NonEmptyLines(lines)
    ensures JoinLines(AddLine(lines, line)) == Joined(JoinLines(lines), line) && NonEmptyLines(AddLine(lines, line))
  {
  }

  /** The preview is the newline-joined list of non-empty normalised captures; it is
      valid UTF-8 and within its limit. */
  lemma {:induction false} PreviewIsJoinedLines(bodies: seq<Bytes>, maxBytes: nat)
    ensures Accumulated(bodies, maxBytes) == JoinLines(Lines(bodies, maxBytes))
    ensures NonEmptyLines(Lines(bodies, maxBytes))
    ensures Valid(Accumulated(bodies, maxBytes)) && |Accumulated(bodies, maxBytes)| <= maxBytes
  {
    if bodies != [] {
      var n := |bodies| - 1;
      PreviewIsJoinedLines(bodies[..n], maxBytes);
      var before := Lines(bodies[..n], maxBytes);
      ExtendedIsJoined(JoinLines(before), bodies[n], maxBytes);
      AddLineJoins(before, LineAfter(JoinLines(before), bodies[n], maxBytes));
    }
  }

  function Room(bodies: seq<Bytes>): nat {
    if bodies == [] then 0 else Room(bodies[..|bodies| - 1]) + |bodies[|bodies| - 1]| + 1
  }

  /** The normalised bodies themselves, without any limit. */
  function WholeLines(bodies: seq<Bytes>): seq<Bytes> {
    if bodies == [] then [] else AddLine(WholeLines(bodies[..|bodies| - 1]), Normalize(bodies[|bodies| - 1]))
  }

  lemma WholeAfter(text: Bytes, body: Bytes, maxBytes: nat)
    requires |text| + |body| + 1 <= maxBytes
    ensures LineAfter(text, body, maxBytes) == Normalize(body)
    ensures |Joined(text, Normalize(body))| <= |text| + |body| + 1
  {
    NormalizeIsClean(body);
  }

  /** Bodies that fit, separators included, are previewed whole. */
  lemma {:induction false} FittingBodiesAreWhole(bodies: seq<Bytes>, maxBytes: nat)
    requires Room(bodies) <= maxBytes
    ensures Lines(bodies, maxBytes) == WholeLines(bodies)
    ensures |JoinLines(Lines(bodies, maxBytes))| <= Room(bodies)
  {
    if bodies != [] {
      var n := |bodies| - 1;
      FittingBodiesAreWhole(bodies[..n], maxBytes);
      PreviewIsJoinedLines(bodies[..n], maxBytes);
      var before := Lines(bodies[..n], maxBytes);
      WholeAfter(JoinLines(before), bodies[n], maxBytes);
      AddLineJoins(before, Normalize(bodies[n]));
    }
  }
}
