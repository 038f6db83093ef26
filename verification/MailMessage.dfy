/** Whole messages: which ones parse, and what a parsed message holds. */
module MailMessage {
  import opened Common
  import opened Utf8
  import opened Preview
  import opened MailParser

  datatype Parsed = Parsed(text: Bytes, html: Bytes, attachments: seq<Attachment>, warnings: seq<Warning>)

  // ----- which messages parse --------------------------------------------------------------

  function TotalFields(parts: seq<Part>, n: nat): nat
    requires n <= |parts|
  {
    if n == 0 then 0 else TotalFields(parts, n - 1) + |parts[n - 1].fields|
  }

  function TotalHeaderBytes(parts: seq<Part>, n: nat): nat
    requires n <= |parts|
  {
    if n == 0 then 0 else TotalHeaderBytes(parts, n - 1) + HeaderBytes(parts[n - 1])
  }

  function TotalDecoded(parts: seq<Part>, n: nat): nat
    requires n <= |parts|
  {
    if n == 0 then 0 else TotalDecoded(parts, n - 1) + |Decoded(parts[n - 1])|
  }

  predicate PartWithin(l: Limits, part: Part) {
    && part.depth <= l.maxDepth && part.decode != Broken && HeaderBytes(part) <= l.maxHeaderBytes
    && (RoleOf(part) != Container && part.body.Body? ==> !part.body.fails)
    && |Decoded(part)| <= l.maxPartBytes
  }

  /** Every part and every total respects its limit. */
  predicate Within(l: Limits, parts: seq<Part>) {
    && |parts| <= l.maxParts
    && (forall i | 0 <= i < |parts| :: PartWithin(l, parts[i]))
    && TotalFields(parts, |parts|) <= l.maxHeaders
    && TotalHeaderBytes(parts, |parts|) <= l.maxTotalHeaderBytes
    && TotalDecoded(parts, |parts|) <= l.maxDecodedBytes
  }

  lemma {:induction false} TotalsGrow(parts: seq<Part>, n: nat, m: nat)
    requires n <= m <= |parts|
    ensures TotalFields(parts, n) <= TotalFields(parts, m)
    ensures TotalHeaderBytes(parts, n) <= TotalHeaderBytes(parts, m)
    ensures TotalDecoded(parts, n) <= TotalDecoded(parts, m)
  {
    if n < m { TotalsGrow(parts, n, m - 1); }
  }

  lemma TotalsStep(parts: seq<Part>, n: nat)
    requires n < |parts|
    ensures TotalFields(parts, n + 1) == TotalFields(parts, n) + |parts[n].fields|
    ensures TotalHeaderBytes(parts, n + 1) == TotalHeaderBytes(parts, n) + HeaderBytes(parts[n])
    ensures TotalDecoded(parts, n + 1) == TotalDecoded(parts, n) + |Decoded(parts[n])|
  {
  }

  /** The limits checked so far amount to the limits on the first n parts. */
  predicate PrefixWithin(l: Limits, parts: seq<Part>, n: nat)
    requires n <= |parts|
  {
    && n <= l.maxParts
    && (forall i | 0 <= i < n :: PartWithin(l, parts[i]))
    && TotalFields(parts, n) <= l.maxHeaders
    && TotalHeaderBytes(parts, n) <= l.maxTotalHeaderBytes
    && TotalDecoded(parts, n) <= l.maxDecodedBytes
  }

  lemma FitsIffWithin(l: Limits, p: Progress, parts: seq<Part>, n: nat)
    requires n < |parts| && PrefixWithin(l, parts, n)
    requires p.parts == n && p.headers == TotalFields(parts, n)
    requires p.headerBytes == TotalHeaderBytes(parts, n) && p.decodedBytes == TotalDecoded(parts, n)
    ensures Fits(l, p, parts[n]) <==> PrefixWithin(l, parts, n + 1)
  {
  }

  lemma WithinPrefixes(l: Limits, parts: seq<Part>, n: nat)
    requires Within(l, parts) && n <= |parts|
    ensures PrefixWithin(l, parts, n)
  {
    TotalsGrow(parts, n, |parts|);
  }

  // ----- what a parsed message holds -------------------------------------------------------

  function Bodies(parts: seq<Part>, role: Role, n: nat): seq<Bytes>
    requires n <= |parts|
  {
    if n == 0 then []
    else Bodies(parts, role, n - 1) + if RoleOf(parts[n - 1]) == role then [Decoded(parts[n - 1])] else []
  }

  function Attachments(parts: seq<Part>, n: nat): (r: seq<Attachment>)
    requires n <= |parts|
    ensures |r| <= n
  {
    if n == 0 then []
    else Attachments(parts, n - 1) + if RoleOf(parts[n - 1]) == Attached then [AttachmentOf(parts[n - 1])] else []
  }

  function Containers(parts: seq<Part>, n: nat): nat
    requires n <= |parts|
  {
    if n == 0 then 0 else Containers(parts, n - 1) + if parts[n - 1].mediaType.Multipart? then 1 else 0
  }

  /** Every leaf is accounted for once: in the text, in the HTML, or as an attachment. */
  lemma {:induction false} EveryLeafHasItsPlace(parts: seq<Part>, n: nat)
    requires n <= |parts|
    ensures Containers(parts, n) + |Bodies(parts, TextBody, n)| + |Bodies(parts, HtmlBody, n)| + |Attachments(parts, n)| == n
  {
    if n > 0 {
      EveryLeafHasItsPlace(parts, n - 1);
      RolesMean(parts[n - 1]);
    }
  }

  lemma AccumulatedSnoc(bodies: seq<Bytes>, body: Bytes, maxBytes: int)
    ensures Accumulated(bodies + [body], maxBytes) == Extended(Accumulated(bodies, maxBytes), body, maxBytes)
  {
  }

  /** Everything raised by the root and the first n parts, in order. */
  function Raised(l: Limits, root: DecodeError, metadata: seq<Warning>, parts: seq<Part>, n: nat): seq<Warning>
    requires n <= |parts|
  {
    if n == 0 then DecodeWarnings(root, "0") + metadata
    else
      var part := parts[n - 1];
      Raised(l, root, metadata, parts, n - 1)
      + DecodeWarnings(part.decode, part.path) + HeaderWarnings(part)
      + BodyWarnings(l, Accumulated(Bodies(parts, TextBody, n - 1), l.maxTextBytes), Accumulated(Bodies(parts, HtmlBody, n - 1), l.maxHtmlBytes), part)
  }

  /** The accounting after the first n parts, in closed form. */
  function At(l: Limits, root: DecodeError, metadata: seq<Warning>, parts: seq<Part>, n: nat): Progress
    requires n <= |parts|
  {
    Progress(
      Accumulated(Bodies(parts, TextBody, n), l.maxTextBytes), Accumulated(Bodies(parts, HtmlBody, n), l.maxHtmlBytes),
      Attachments(parts, n), Raised(l, root, metadata, parts, n),
      n, TotalFields(parts, n), TotalHeaderBytes(parts, n), TotalDecoded(parts, n))
  }

  /** What one part does to a preview. */
  lemma BodiesStep(parts: seq<Part>, role: Role, n: nat, maxBytes: int)
    requires n < |parts|
    ensures Accumulated(Bodies(parts, role, n + 1), maxBytes)
         == if RoleOf(parts[n]) == role then Extended(Accumulated(Bodies(parts, role, n), maxBytes), Decoded(parts[n]), maxBytes)
            else Accumulated(Bodies(parts, role, n), maxBytes)
  {
    AccumulatedSnoc(Bodies(parts, role, n), Decoded(parts[n]), maxBytes);
    assert Bodies(parts, role, n) + [] == Bodies(parts, role, n);
  }

  lemma AttachmentsStep(parts: seq<Part>, n: nat)
    requires n < |parts|
    ensures Attachments(parts, n + 1)
         == if RoleOf(parts[n]) == Attached then Attachments(parts, n) + [AttachmentOf(parts[n])] else Attachments(parts, n)
  {
  }

  /** Visiting a part leads from one closed form to the next. */
  lemma AtStep(l: Limits, root: DecodeError, metadata: seq<Warning>, parts: seq<Part>, n: nat)
    requires n < |parts|
    ensures Next(l, At(l, root, metadata, parts, n), parts[n]) == At(l, root, metadata, parts, n + 1)
  {
    BodiesStep(parts, TextBody, n, l.maxTextBytes);
    BodiesStep(parts, HtmlBody, n, l.maxHtmlBytes);
    AttachmentsStep(parts, n);
    TotalsStep(parts, n);
  }

  /** A preview: the newline-joined non-empty normalised captures, valid and bounded. */
  ghost predicate PreviewOf(text: Bytes, bodies: seq<Bytes>, maxBytes: nat) {
    text == JoinLines(Lines(bodies, maxBytes)) && Valid(text) && |text| <= maxBytes
  }

  /** entity.Walk with its visitor. */
  method Walk(state: ParseState, ghost root: DecodeError, ghost metadata: seq<Warning>, parts: seq<Part>) returns (ok: bool)
    requires state.Valid() && state.State() == At(state.limits, root, metadata, parts, 0)
    modifies state
    ensures state.Valid()
    ensures ok <==> Within(state.limits, parts)
    ensures ok ==> state.State() == At(state.limits, root, metadata, parts, |parts|)
  {
    ghost var l := state.limits;
    for n := 0 to |parts|
      invariant state.Valid() && PrefixWithin(l, parts, n)
      invariant state.State() == At(l, root, metadata, parts, n)
    {
      WalkStep(l, root, metadata, parts, n);
      ok := state.Visit(parts[n]);
      if !ok { return; }
    }
    return true;
  }

  lemma WalkStep(l: Limits, root: DecodeError, metadata: seq<Warning>, parts: seq<Part>, n: nat)
    requires n < |parts| && PrefixWithin(l, parts, n)
    ensures var p := At(l, root, metadata, parts, n);
            && p.decodedBytes <= l.maxDecodedBytes
            && (Fits(l, p, parts[n]) <==> PrefixWithin(l, parts, n + 1))
            && Next(l, p, parts[n]) == At(l, root, metadata, parts, n + 1)
    ensures !PrefixWithin(l, parts, n + 1) ==> !Within(l, parts)
  {
    AtStep(l, root, metadata, parts, n);
    FitsIffWithin(l, At(l, root, metadata, parts, n), parts, n);
    if Within(l, parts) { WithinPrefixes(l, parts, n + 1); }
  }

  /** Parse: a message parses exactly when it decodes and respects every limit, however
      its bodies are cut into reads; the result then holds the bounded previews, one
      attachment per other leaf with its full size, and a bounded warning list. */
  method Parse(l: Limits, root: DecodeError, metadata: seq<Warning>, parts: seq<Part>, rawRead: nat) returns (ok: bool, m: Parsed)
    requires Accepted(l)
    ensures ok <==> root != Broken && Within(l, parts) && rawRead <= l.maxRawBytes
    ensures ok ==> PreviewOf(m.text, Bodies(parts, TextBody, |parts|), l.maxTextBytes)
    ensures ok ==> PreviewOf(m.html, Bodies(parts, HtmlBody, |parts|), l.maxHtmlBytes)
    ensures ok ==> m.attachments == Attachments(parts, |parts|) && |m.attachments| <= l.maxParts
    ensures ok ==> m.warnings == Capped(Raised(l, root, metadata, parts, |parts|), l.maxWarnings)
    ensures ok ==> |m.warnings| <= l.maxWarnings
  {
    m := Parsed([], [], [], []);
    var state := new ParseState(l);
    ok := state.RecoverDecodeError(root, "0");
    if !ok { return; }
    RaiseAll(state, metadata);
    ok := Walk(state, root, metadata, parts);
    if !ok || rawRead > l.maxRawBytes { return false, m; }
    PreviewIsJoinedLines(Bodies(parts, TextBody, |parts|), l.maxTextBytes);
    PreviewIsJoinedLines(Bodies(parts, HtmlBody, |parts|), l.maxHtmlBytes);
    return true, Parsed(state.text, state.html, state.attachments, state.warnings);
  }

  /** The warnings readRootMetadata raises. */
  method RaiseAll(state: ParseState, warnings: seq<Warning>)
    requires state.Valid()
    modifies state`warnings, state`warningsTruncated, state`raised
    ensures state.Valid() && state.raised == old(state.raised) + warnings
  {
    for i := 0 to |warnings|
      invariant state.Valid() && state.raised == old(state.raised) + warnings[..i]
    {
      state.Warn(warnings[i].code, warnings[i].path);
    }
  }
}
