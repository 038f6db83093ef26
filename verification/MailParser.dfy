/** The bounded MIME walk: header, part and byte accounting, previews, attachments and
    warnings.  A message is the sequence of parts the MIME library visits. */
module MailParser {
  import opened Common
  import opened Utf8
  import opened Preview

  datatype Limits = Limits(
    maxRawBytes: int, maxHeaderBytes: int, maxTotalHeaderBytes: int, maxHeaders: int, maxParts: int, maxDepth: int,
    maxDecodedBytes: int, maxPartBytes: int, maxTextBytes: int, maxHtmlBytes: int, maxWarnings: int)

  /** Limits.validate, on the limits above. */
  predicate Accepted(l: Limits) {
    && l.maxRawBytes > 0 && l.maxHeaderBytes > 0 && l.maxTotalHeaderBytes > 0 && l.maxHeaders > 0 && l.maxParts > 0
    && l.maxDepth > 0 && l.maxDecodedBytes > 0 && l.maxPartBytes > 0 && l.maxTextBytes > 0 && l.maxHtmlBytes > 0
    && l.maxWarnings > 0
    && l.maxHeaderBytes <= l.maxTotalHeaderBytes && l.maxPartBytes <= l.maxDecodedBytes
  }

  datatype Code =
    | UnknownCharset | UnknownTransferEncoding | MalformedContentType | MalformedDisposition | RootMetadata
    | TextTruncated | HtmlTruncated | FilenameNormalized | ListTruncated
  datatype Warning = Warning(code: Code, path: string)
  datatype MediaType = Multipart(subtype: string) | TextPlain | TextHtml | Other(name: string)
  datatype Disposition = Unstated | AttachmentDisposition | OtherDisposition(name: string)
  datatype Attachment = Attachment(path: string, mediaType: MediaType, disposition: Disposition, size: nat)
  datatype DecodeError = NoError | BadCharset | BadEncoding | Broken

  /** What a part's reader yields: its chunks, then the end or an error; or no reader. */
  datatype Body = NoBody | Body(chunks: seq<Bytes>, fails: bool)

  /** One visited entity.  Media type and disposition are as parsed or fallen back to,
      without regard to case; `fields` are the raw header field lengths; `renamed` says
      that the filename needed normalising. */
  datatype Part = Part(
    path: string, depth: nat, fields: seq<nat>, decode: DecodeError,
    typeMalformed: bool, mediaType: MediaType, dispositionMalformed: bool, disposition: Disposition,
    named: bool, renamed: bool, body: Body)

  // ----- bodies ------------------------------------------------------------------------

  function Flat(chunks: seq<Bytes>, n: nat): Bytes
    requires n <= |chunks|
  {
    if n == 0 then [] else Flat(chunks, n - 1) + chunks[n - 1]
  }

  function Whole(body: Body): Bytes {
    if body.NoBody? then [] else Flat(body.chunks, |body.chunks|)
  }

  lemma {:induction false} FlatFrame(a: seq<Bytes>, b: seq<Bytes>, n: nat)
    requires n <= |a| && n <= |b| && forall i | 0 <= i < n :: a[i] == b[i]
    ensures Flat(a, n) == Flat(b, n)
  {
    if n > 0 { FlatFrame(a, b, n - 1); }
  }

  lemma Associative(a: Bytes, b: Bytes, c: Bytes)
    ensures a + b + c == a + (b + c)
  {
  }

  /** A body is its chunks' bytes in the order read, wherever the reads fall. */
  lemma {:induction false} FlatConcat(a: seq<Bytes>, b: seq<Bytes>)
    ensures Flat(a + b, |a + b|) == Flat(a, |a|) + Flat(b, |b|)
    decreases |b|
  {
    if b == [] {
      assert a + b == a;
    } else {
      var front, last := b[..|b| - 1], b[|b| - 1];
      FlatConcat(a, front);
      FlatFrame(a + b, a + front, |a + front|);
      FlatFrame(b, front, |front|);
      Associative(Flat(a, |a|), Flat(front, |front|), last);
    }
  }

  lemma {:induction false} FlatGrows(chunks: seq<Bytes>, n: nat, m: nat)
    requires n <= m <= |chunks|
    ensures |Flat(chunks, n)| <= |Flat(chunks, m)|
  {
    if n < m { FlatGrows(chunks, n, m - 1); }
  }

  function Sum(xs: seq<nat>, n: nat): nat
    requires n <= |xs|
  {
    if n == 0 then 0 else Sum(xs, n - 1) + xs[n - 1]
  }

  lemma {:induction false} SumGrows(xs: seq<nat>, n: nat, m: nat)
    requires n <= m <= |xs|
    ensures Sum(xs, n) <= Sum(xs, m)
  {
    if n < m { SumGrows(xs, n, m - 1); }
  }

  // ----- what one part does ----------------------------------------------------------------

  datatype Role = Container | TextBody | HtmlBody | Attached

  function RoleOf(part: Part): Role {
    var inline := part.disposition != AttachmentDisposition && !part.named;
    match part.mediaType
    case Multipart(_) => Container
    case TextPlain => if inline then TextBody else Attached
    case TextHtml => if inline then HtmlBody else Attached
    case Other(_) => Attached
  }

  /** A part is a container, or previewed as what it says it is if it is an unnamed inline
      text, or an attachment. */
  lemma RolesMean(part: Part)
    ensures RoleOf(part) == Container <==> part.mediaType.Multipart?
    ensures var inline := part.disposition != AttachmentDisposition && !part.named;
            && (RoleOf(part) == TextBody <==> part.mediaType == TextPlain && inline)
            && (RoleOf(part) == HtmlBody <==> part.mediaType == TextHtml && inline)
            && (RoleOf(part) == Attached <==>
                  !part.mediaType.Multipart? && (inline ==> part.mediaType != TextPlain && part.mediaType != TextHtml))
  {
  }

  function HeaderBytes(part: Part): nat { Sum(part.fields, |part.fields|) }

  /** The bytes a visited part contributes: a container is not read. */
  function Decoded(part: Part): Bytes { if RoleOf(part) == Container then [] else Whole(part.body) }

  datatype Progress = Progress(
    text: Bytes, html: Bytes, attachments: seq<Attachment>, raised: seq<Warning>,
    parts: nat, headers: nat, headerBytes: nat, decodedBytes: nat)

  const EMPTY := Progress([], [], [], [], 0, 0, 0, 0)

  /** Depth, part count and headers are within their limits and the part decodes. */
  predicate Admissible(l: Limits, p: Progress, part: Part) {
    && part.depth <= l.maxDepth && p.parts < l.maxParts
    && p.headers + |part.fields| <= l.maxHeaders
    && HeaderBytes(part) <= l.maxHeaderBytes && p.headerBytes + HeaderBytes(part) <= l.maxTotalHeaderBytes
    && part.decode != Broken
  }

  /** The body reads to its end within the byte limits. */
  predicate Consumable(l: Limits, decodedBytes: nat, part: Part) {
    && (RoleOf(part) != Container && part.body.Body? ==> !part.body.fails)
    && |Decoded(part)| <= l.maxPartBytes && decodedBytes + |Decoded(part)| <= l.maxDecodedBytes
  }

  predicate Fits(l: Limits, p: Progress, part: Part) {
    Admissible(l, p, part) && Consumable(l, p.decodedBytes, part)
  }

  function When(condition: bool, code: Code, part: Part): seq<Warning> {
    if condition then [Warning(code, part.path)] else []
  }

  function DecodeWarnings(e: DecodeError, path: string): seq<Warning> {
    match e
    case BadCharset => [Warning(UnknownCharset, path)]
    case BadEncoding => [Warning(UnknownTransferEncoding, path)]
    case _ => []
  }

  function HeaderWarnings(part: Part): seq<Warning> {
    When(part.typeMalformed, MalformedContentType, part)
    + When(RoleOf(part) != Container && part.dispositionMalformed, MalformedDisposition, part)
  }

  function AttachmentOf(part: Part): Attachment {
    Attachment(part.path, part.mediaType, if part.disposition == Unstated then AttachmentDisposition else part.disposition, |Decoded(part)|)
  }

  /** The warning a body gives rise to after the previews `text` and `html`. */
  function BodyWarnings(l: Limits, text: Bytes, html: Bytes, part: Part): seq<Warning> {
    match RoleOf(part)
    case Container => []
    case TextBody => When(|Decoded(part)| > RemainingPreviewBytes(text, l.maxTextBytes), TextTruncated, part)
    case HtmlBody => When(|Decoded(part)| > RemainingPreviewBytes(html, l.maxHtmlBytes), HtmlTruncated, part)
    case Attached => When(part.renamed, FilenameNormalized, part)
  }

  /** A body is warned about exactly when its preview capture leaves some of it out, or
      when it is an attachment whose filename was changed. */
  lemma WarnedIffCut(l: Limits, text: Bytes, html: Bytes, part: Part)
    ensures var ws := BodyWarnings(l, text, html, part);
            && (Warning(TextTruncated, part.path) in ws <==>
                  RoleOf(part) == TextBody && Capture(Decoded(part), RemainingPreviewBytes(text, l.maxTextBytes)) != Decoded(part))
            && (Warning(HtmlTruncated, part.path) in ws <==>
                  RoleOf(part) == HtmlBody && Capture(Decoded(part), RemainingPreviewBytes(html, l.maxHtmlBytes)) != Decoded(part))
            && (Warning(FilenameNormalized, part.path) in ws <==> RoleOf(part) == Attached && part.renamed)
            && |ws| <= 1
  {
  }

  /** An attachment is recorded with its part's path and type, the size of its whole body,
      and the disposition its part states, if any. */
  lemma AttachmentsDescribe(part: Part)
    requires RoleOf(part) == Attached
    ensures var a := AttachmentOf(part);
            && a.path == part.path && a.mediaType == part.mediaType && a.size == |Whole(part.body)|
            && a.disposition != Unstated && (part.disposition != Unstated ==> a.disposition == part.disposition)
            && (part.disposition == Unstated ==> a.disposition == AttachmentDisposition)
  {
  }

  /** What keeping a read body changes. */
  function Kept(l: Limits, p: Progress, part: Part): Progress {
    var raised := p.raised + BodyWarnings(l, p.text, p.html, part);
    match RoleOf(part)
    case Container => p.(raised := raised)
    case TextBody => p.(text := Extended(p.text, Decoded(part), l.maxTextBytes), raised := raised)
    case HtmlBody => p.(html := Extended(p.html, Decoded(part), l.maxHtmlBytes), raised := raised)
    case Attached => p.(attachments := p.attachments + [AttachmentOf(part)], raised := raised)
  }

  /** What consuming a part changes. */
  function Consumed(l: Limits, p: Progress, part: Part): Progress {
    Kept(l, p.(raised := p.raised + HeaderWarnings(part), decodedBytes := p.decodedBytes + |Decoded(part)|), part)
  }

  function Admitted(p: Progress, part: Part): Progress {
    p.(parts := p.parts + 1, headers := p.headers + |part.fields|, headerBytes := p.headerBytes + HeaderBytes(part),
       raised := p.raised + DecodeWarnings(part.decode, part.path))
  }

  /** The accounting of one part that fits. */
  function Next(l: Limits, p: Progress, part: Part): Progress {
    Consumed(l, Admitted(p, part), part)
  }

  // ----- warnings --------------------------------------------------------------------------

  /** The stored list: everything raised, or the first ones and a closing notice. */
  function Capped(raised: seq<Warning>, maxWarnings: nat): (kept: seq<Warning>)
    requires maxWarnings > 0
    ensures |kept| <= maxWarnings && |kept| <= |raised|
  {
    if |raised| <= maxWarnings then raised else raised[..maxWarnings - 1] + [Warning(ListTruncated, "0")]
  }

  /** Nothing is left out unless too much was raised; then the notice comes last, after the
      earliest warnings, in a full list. */
  lemma CappedTellsOmissions(raised: seq<Warning>, maxWarnings: nat)
    requires maxWarnings > 0
    ensures Capped(raised, maxWarnings) == raised <==> |raised| <= maxWarnings
    ensures |raised| > maxWarnings ==>
              var kept := Capped(raised, maxWarnings);
              && |kept| == maxWarnings && kept[maxWarnings - 1] == Warning(ListTruncated, "0")
              && kept[..maxWarnings - 1] <= raised
  {
  }

  class ParseState {
    const limits: Limits
    var text: Bytes
    var html: Bytes
    var attachments: seq<Attachment>
    var warnings: seq<Warning>
    var warningsTruncated: bool
    var parts: nat
    var headers: nat
    var headerBytes: nat
    var decodedBytes: nat
    ghost var raised: seq<Warning>

    ghost predicate Valid()
      reads this
    {
      && Accepted(limits)
      && warnings == Capped(raised, limits.maxWarnings) && warningsTruncated == (|raised| > limits.maxWarnings)
    }

    ghost function State(): Progress
      reads this
    {
      Progress(text, html, attachments, raised, parts, headers, headerBytes, decodedBytes)
    }

    constructor (limits: Limits)
      requires Accepted(limits)
      ensures Valid() && this.limits == limits && State() == EMPTY
    {
      this.limits := limits;
      text, html, attachments, warnings, warningsTruncated := [], [], [], [], false;
      parts, headers, headerBytes, decodedBytes, raised := 0, 0, 0, 0, [];
    }

    /** warn: the list never outgrows its limit, and says so when it would. */
    method Warn(code: Code, path: string)
      requires Valid()
      modifies this`warnings, this`warningsTruncated, this`raised
      ensures Valid() && raised == old(raised) + [Warning(code, path)]
    {
      raised := raised + [Warning(code, path)];
      if |warnings| < limits.maxWarnings {
        warnings := warnings + [Warning(code, path)];
        return;
      }
      if warningsTruncated { return; }
      warningsTruncated := true;
      warnings := warnings[..|warnings| - 1] + [Warning(ListTruncated, "0")];
    }

    method WarnWhen(condition: bool, code: Code, part: Part)
      requires Valid()
      modifies this`warnings, this`warningsTruncated, this`raised
      ensures Valid() && raised == old(raised) + When(condition, code, part)
    {
      if condition { Warn(code, part.path); }
    }

    method InspectHeader(part: Part) returns (ok: bool)
      requires Accepted(limits)
      modifies this`headers, this`headerBytes
      ensures ok <==>
                && old(headers) + |part.fields| <= limits.maxHeaders && HeaderBytes(part) <= limits.maxHeaderBytes
                && old(headerBytes) + HeaderBytes(part) <= limits.maxTotalHeaderBytes
      ensures ok ==> headers == old(headers) + |part.fields| && headerBytes == old(headerBytes) + HeaderBytes(part)
    {
      headers := headers + |part.fields|;
      if headers > limits.maxHeaders { return false; }
      var partBytes := 0;
      for i := 0 to |part.fields|
        invariant partBytes == Sum(part.fields, i) && headerBytes == old(headerBytes)
        invariant partBytes <= limits.maxHeaderBytes
        invariant headers == old(headers) + |part.fields|
      {
        partBytes := partBytes + part.fields[i];
        SumGrows(part.fields, i + 1, |part.fields|);
        if partBytes > limits.maxHeaderBytes { return false; }
      }
      headerBytes := headerBytes + partBytes;
      return headerBytes <= limits.maxTotalHeaderBytes;
    }

    method RecoverDecodeError(e: DecodeError, path: string) returns (ok: bool)
      requires Valid()
      modifies this`warnings, this`warningsTruncated, this`raised
      ensures Valid() && (ok <==> e != Broken)
      ensures raised == old(raised) + DecodeWarnings(e, path)
    {
      match e
      case NoError => return true;
      case BadCharset => Warn(UnknownCharset, path); return true;
      case BadEncoding => Warn(UnknownTransferEncoding, path); return true;
      case Broken => return false;
    }

    /** consumeLeaf: however the body is cut into reads, the preview is its first
        captureLimit bytes, and the byte limits decide on the whole body. */
    method ConsumeLeaf(body: Body, captureLimit: nat) returns (ok: bool, preview: Bytes, size: nat, truncated: bool)
      requires Accepted(limits) && decodedBytes <= limits.maxDecodedBytes
      modifies this`decodedBytes
      ensures ok <==>
                && (body.Body? ==> !body.fails)
                && |Whole(body)| <= limits.maxPartBytes && old(decodedBytes) + |Whole(body)| <= limits.maxDecodedBytes
      ensures ok ==> preview == Capture(Whole(body), captureLimit) && size == |Whole(body)| && truncated == (size > captureLimit)
      ensures ok ==> decodedBytes == old(decodedBytes) + size
    {
      if body.NoBody? { return true, [], 0, false; }
      preview, size := [], 0;
      for i := 0 to |body.chunks|
        invariant preview == Capture(Flat(body.chunks, i), captureLimit) && size == |Flat(body.chunks, i)|
        invariant decodedBytes == old(decodedBytes) + size
        invariant size <= limits.maxPartBytes && decodedBytes <= limits.maxDecodedBytes
      {
        var chunk := body.chunks[i];
        FlatGrows(body.chunks, i + 1, |body.chunks|);
        if |chunk| > 0 {
          size := size + |chunk|;
          decodedBytes := decodedBytes + |chunk|;
          if size > limits.maxPartBytes || decodedBytes > limits.maxDecodedBytes { return false, [], size, false; }
          CaptureExtends(Flat(body.chunks, i), chunk, captureLimit);
          var remaining := captureLimit - |preview|;
          if remaining > 0 {
            var copied := if |chunk| < remaining then |chunk| else remaining;
            preview := preview + chunk[..copied];
          }
        } else {
          assert Flat(body.chunks, i) + chunk == Flat(body.chunks, i);
        }
      }
      if body.fails { return false, [], size, false; }
      return true, preview, size, size > captureLimit;
    }

    method WarnHeaders(part: Part)
      requires Valid()
      modifies this`warnings, this`warningsTruncated, this`raised
      ensures Valid() && raised == old(raised) + HeaderWarnings(part)
    {
      ghost var before := raised;
      WarnWhen(part.typeMalformed, MalformedContentType, part);
      if RoleOf(part) != Container {
        WarnWhen(part.dispositionMalformed, MalformedDisposition, part);
      }
      assert raised == before + HeaderWarnings(part);
    }

    function CaptureLimit(role: Role): nat
      reads this
    {
      match role
      case TextBody => RemainingPreviewBytes(text, limits.maxTextBytes)
      case HtmlBody => RemainingPreviewBytes(html, limits.maxHtmlBytes)
      case _ => 0
    }

    method KeepText(part: Part, preview: Bytes, truncated: bool)
      requires Valid() && RoleOf(part) == TextBody
      requires preview == Capture(Decoded(part), RemainingPreviewBytes(text, limits.maxTextBytes))
      requires truncated == (|Decoded(part)| > RemainingPreviewBytes(text, limits.maxTextBytes))
      modifies this`text, this`warnings, this`warningsTruncated, this`raised
      ensures Valid() && State() == Kept(limits, old(State()), part)
    {
      ghost var extended := Extended(text, Decoded(part), limits.maxTextBytes);
      text := AppendPreview(text, Normalize(preview), limits.maxTextBytes);
      assert text == extended;
      WarnWhen(truncated, TextTruncated, part);
    }

    method KeepHtml(part: Part, preview: Bytes, truncated: bool)
      requires Valid() && RoleOf(part) == HtmlBody
      requires preview == Capture(Decoded(part), RemainingPreviewBytes(html, limits.maxHtmlBytes))
      requires truncated == (|Decoded(part)| > RemainingPreviewBytes(html, limits.maxHtmlBytes))
      modifies this`html, this`warnings, this`warningsTruncated, this`raised
      ensures Valid() && State() == Kept(limits, old(State()), part)
    {
      ghost var extended := Extended(html, Decoded(part), limits.maxHtmlBytes);
      html := AppendPreview(html, Normalize(preview), limits.maxHtmlBytes);
      assert html == extended;
      WarnWhen(truncated, HtmlTruncated, part);
    }

    method KeepAttachment(part: Part, size: nat)
      requires Valid() && RoleOf(part) == Attached && size == |Decoded(part)|
      modifies this`attachments, this`warnings, this`warningsTruncated, this`raised
      ensures Valid() && State() == Kept(limits, old(State()), part)
    {
      WarnWhen(part.renamed, FilenameNormalized, part);
      attachments := attachments
        + [Attachment(part.path, part.mediaType, if part.disposition == Unstated then AttachmentDisposition else part.disposition, size)];
    }

    /** Read a leaf, capturing what room its preview has, and keep it. */
    method ConsumeBody(part: Part) returns (ok: bool)
      requires Valid() && decodedBytes <= limits.maxDecodedBytes && RoleOf(part) != Container
      modifies this`text, this`html, this`attachments, this`warnings, this`warningsTruncated, this`raised, this`decodedBytes
      ensures Valid()
      ensures ok <==> Consumable(limits, old(decodedBytes), part)
      ensures ok ==> State() == Kept(limits, old(State()).(decodedBytes := old(decodedBytes) + |Decoded(part)|), part)
    {
      var role := RoleOf(part);
      var preview, size, truncated;
      ok, preview, size, truncated := ConsumeLeaf(part.body, CaptureLimit(role));
      if !ok { return; }
      if role == TextBody {
        KeepText(part, preview, truncated);
      } else if role == HtmlBody {
        KeepHtml(part, preview, truncated);
      } else {
        KeepAttachment(part, size);
      }
    }

    /** consumeEntity. */
    method ConsumeEntity(part: Part) returns (ok: bool)
      requires Valid() && decodedBytes <= limits.maxDecodedBytes
      modifies this`text, this`html, this`attachments, this`warnings, this`warningsTruncated, this`raised, this`decodedBytes
      ensures Valid()
      ensures ok <==> Consumable(limits, old(decodedBytes), part)
      ensures ok ==> State() == Consumed(limits, old(State()), part)
    {
      WarnHeaders(part);
      if RoleOf(part) == Container { return true; }
      ok := ConsumeBody(part);
    }

    /** The checks before a part is consumed: depth, part count, headers, decoding. */
    method Admit(part: Part) returns (ok: bool)
      requires Valid()
      modifies this`parts, this`headers, this`headerBytes, this`warnings, this`warningsTruncated, this`raised
      ensures Valid()
      ensures ok <==> Admissible(limits, old(State()), part)
      ensures ok ==> State() == Admitted(old(State()), part)
    {
      if part.depth > limits.maxDepth { return false; }
      parts := parts + 1;
      if parts > limits.maxParts { return false; }
      ok := InspectHeader(part);
      if !ok { return; }
      ok := RecoverDecodeError(part.decode, part.path);
    }

    /** The visitor of one entity. */
    method Visit(part: Part) returns (ok: bool)
      requires Valid() && decodedBytes <= limits.maxDecodedBytes
      modifies this
      ensures Valid()
      ensures ok <==> Fits(limits, old(State()), part)
      ensures ok ==> State() == Next(limits, old(State()), part)
    {
      ok := Admit(part);
      if !ok { return; }
      ok := ConsumeEntity(part);
    }
  }

  lemma CaptureExtends(before: Bytes, chunk: Bytes, limit: nat)
    ensures var remaining := limit - |Capture(before, limit)|;
            && remaining >= 0
            && Capture(before + chunk, limit)
               == Capture(before, limit) + (if |chunk| < remaining then chunk else chunk[..remaining])
  {
  }
}
