/** What the log shows of the strings of an event: of most events only what the redactor makes of them, of a protocol
  * error the strings themselves.
  */
module AuditSecrets {
  import opened AuditDetails
  import opened CoreTypes
  import opened Keywords
  import opened Redaction
  import opened RedactionCuts
  import opened RedactionMarks
  import opened RedactionPatterns
  import opened RedactionPlain
  import opened RedactionPrefix
  import opened RedactionScan
  import opened RedactionShapes
  import opened RedactionWords
  import opened Replacing
  import opened Session
  import opened Text

  ghost predicate IsIdempotent(redact: Redactor) {
    forall value :: redact(redact(value)) == redact(value)
  }

  // ---- Everything in an event redacted ----

  function RedactedItem(redact: Redactor, item: Evidence): Evidence {
    Evidence(redact(item.id), redact(item.source), redact(item.summary), redact(item.body), redact(item.timestamp))
  }

  function RedactedEvidence(redact: Redactor, evidence: seq<Evidence>): seq<Evidence> {
    seq(|evidence|, i requires 0 <= i < |evidence| => RedactedItem(redact, evidence[i]))
  }

  function RedactedRequest(redact: Redactor, request: ToolRequest): ToolRequest {
    ToolRequest(redact(request.id), redact(request.toolName), request.risk,
                map key | key in request.params :: redact(request.params[key]))
  }

  function RedactedResponse(redact: Redactor, response: ToolResponse): ToolResponse {
    ToolResponse(redact(response.requestId), response.status, redact(response.message),
                 RedactedEvidence(redact, response.evidence))
  }

  // The same event with all its strings redacted.
  function RedactedDetails(redact: Redactor, details: Details): Details {
    match details
    case ToolCall(request, decision, response) =>
      ToolCall(RedactedRequest(redact, request), decision.(reason := redact(decision.reason)),
               RedactedResponse(redact, response))
    case ModelSkipped(prompt, request, response) =>
      ModelSkipped(redact(prompt), RedactedRequest(redact, request), RedactedResponse(redact, response))
    case ModelRequest(prompt, request, evidence) =>
      ModelRequest(redact(prompt), RedactedRequest(redact, request), RedactedEvidence(redact, evidence))
    case ModelResponse(request, answer) => ModelResponse(RedactedRequest(redact, request), redact(answer))
    case ModelError(prompt, request, error, evidence) =>
      ModelError(redact(prompt), RedactedRequest(redact, request), redact(error), RedactedEvidence(redact, evidence))
    case ProtocolError(requestId, message) => ProtocolError(redact(requestId), redact(message))
  }

  lemma {:induction false} RefsOfRedacted(redact: Redactor, evidence: seq<Evidence>, limit: nat)
    requires IsIdempotent(redact)
    ensures RefsOf(redact, RedactedEvidence(redact, evidence), limit) == RefsOf(redact, evidence, limit)
  {
    if evidence != [] && limit > 0 {
      assert RedactedEvidence(redact, evidence)[1..] == RedactedEvidence(redact, evidence[1..]);
      RefsOfRedacted(redact, evidence[1..], limit - 1);
    }
  }

  lemma ParamsOfRedacted(redact: Redactor, request: ToolRequest)
    requires IsIdempotent(redact)
    ensures ParamsOf(redact, RedactedRequest(redact, request).params) == ParamsOf(redact, request.params)
  {
  }

  lemma TextOfRedacted(redact: Redactor)
    requires IsIdempotent(redact)
    ensures forall value :: AuditString(redact, redact(value)) == AuditString(redact, value)
  {
  }

  // What is written of an event, but for the length of an answer, which is counted before it is redacted.
  function Shown(redact: Redactor, dump: Json -> string, event: AuditEvent): Record {
    var record := RecordOf(redact, dump, event);
    record.(details := record.details - {"response_bytes"})
  }

  lemma RedactedIsShown(redact: Redactor, dump: Json -> string, event: AuditEvent)
    requires IsIdempotent(redact) && !event.details.ProtocolError?
    ensures Shown(redact, dump, event.(details := RedactedDetails(redact, event.details))) ==
            Shown(redact, dump, event)
  {
    var details := event.details;
    TextOfRedacted(redact);
    RefsOfRedacted(redact, EvidenceOf(details), MAX_EVIDENCE_REFS);
    match details
    case ToolCall(request, _, _) => ParamsOfRedacted(redact, request);
    case _ =>
  }

  // Two events by the same actor that differ only in what the redactor replaces are written alike.
  lemma OnlyRedactedTextIsWritten(dump: Json -> string, event: AuditEvent, other: AuditEvent)
    requires event.actor == other.actor && !event.details.ProtocolError? && !other.details.ProtocolError?
    requires RedactedDetails(RedactLikelySecret, event.details) == RedactedDetails(RedactLikelySecret, other.details)
    ensures Shown(RedactLikelySecret, dump, event) == Shown(RedactLikelySecret, dump, other)
  {
    forall value: string ensures RedactLikelySecret(RedactLikelySecret(value)) == RedactLikelySecret(value) {
      RedactingTwiceIsRedactingOnce(value);
    }
    AlikeIfRedactedAlike(RedactLikelySecret, dump, event, other);
  }

  lemma AlikeIfRedactedAlike(redact: Redactor, dump: Json -> string, event: AuditEvent, other: AuditEvent)
    requires IsIdempotent(redact) && event.actor == other.actor
    requires !event.details.ProtocolError? && !other.details.ProtocolError?
    requires RedactedDetails(redact, event.details) == RedactedDetails(redact, other.details)
    ensures Shown(redact, dump, event) == Shown(redact, dump, other)
  {
    RedactedIsShown(redact, dump, event);
    RedactedIsShown(redact, dump, other);
    ShownIgnoresId(redact, dump, event, other, RedactedDetails(redact, event.details));
  }

  lemma ShownIgnoresId(redact: Redactor, dump: Json -> string, event: AuditEvent, other: AuditEvent, details: Details)
    requires event.actor == other.actor
    ensures Shown(redact, dump, event.(details := details)) == Shown(redact, dump, other.(details := details))
  {
  }

  // ---- Protocol errors ----

  // No pattern matches anywhere in the text with a value that it would change.
  predicate HasNoSecret(text: string) {
    forall p: Pass :: HasNoResidue(p, text)
  }

  lemma FixedIffNoSecret(text: string)
    ensures Redact(text) == text <==> HasNoSecret(text)
  {
    RedactLeavesNoResidue(text);
    if HasNoSecret(text) {
      NoResidueIsFixed(text);
    }
  }

  lemma TruncatedIsMark()
    ensures IsMark(TRUNCATED)
  {
  }

  lemma CutOf(text: string, max: nat)
    requires |TRUNCATED| <= max < |text|
    ensures Shortened(text, max) == text[..max - |TRUNCATED|] + TRUNCATED
    ensures |text[..max - |TRUNCATED|] + TRUNCATED| == max
  {
  }

  lemma CutStaysShort(redacted: string, n: nat, mark: string, cut: string)
    requires IsMark(mark) && n <= |redacted| && cut == redacted[..n] + mark
    requires forall p: Pass :: HasNoResidue(p, redacted)
    ensures |Redact(cut)| <= |cut|
  {
    CutStaysCut(redacted, n, mark);
  }

  lemma ShortenedStaysShort(redacted: string, max: nat)
    requires |TRUNCATED| <= max < |redacted| && forall p: Pass :: HasNoResidue(p, redacted)
    ensures |Redact(Shortened(redacted, max))| <= max
  {
    TruncatedIsMark();
    CutOf(redacted, max);
    CutStaysShort(redacted, max - |TRUNCATED|, TRUNCATED, Shortened(redacted, max));
  }

  // No text is the cut form of its own redaction, since redacting a cut text does not make it longer.
  lemma CutIsNotOwnRedaction(text: string, max: nat)
    requires |TRUNCATED| <= max < |Redact(text)|
    ensures text != Shortened(Redact(text), max)
  {
    RedactLeavesNoResidue(text);
    ShortenedStaysShort(Redact(text), max);
  }

  lemma AlikeIffFixed(text: string, redacted: string, max: nat)
    requires |text| <= max && (max < |redacted| ==> text != Shortened(redacted, max))
    ensures Shortened(text, max) == Shortened(redacted, max) <==> redacted == text
  {
  }

  // ---- A longer string ----

  // A text that has no character where a mark of the redactor has it, or earlier.
  ghost predicate IsNoMark(tail: string) {
    && (forall k, i :: 0 <= k < |tail| && 0 <= i < |REDACTED| && tail[k] == REDACTED[i] ==> i < k)
    && (forall k :: 0 <= k < |tail| ==> !EndsPrefix(tail[k]))
    && tail != "" && !IsBlank(tail[0]) && tail[0] != '"'
  }

  lemma TruncatedIsNoMark()
    ensures IsNoMark(TRUNCATED)
  {
  }

  // In such a tail the redactor has not set its first mark.
  lemma NoMarkInTail(x: string, y: string, n: nat, tail: string, v: nat, d: nat)
    requires n <= |y| && y[n..] == tail && n <= d && IsNoMark(tail)
    ensures !IsMarked(x, y, v, d)
  {
    if IsMarked(x, y, v, d) {
      assert forall k :: n <= k < |y| ==> y[k] == tail[k - n];
      assert forall k :: v <= k < d ==> y[k] == y[v..d][k - v] == REDACTED[k - v];
    }
  }

  lemma TailOfCut(text: string, n: nat, tail: string, redacted: string, d: nat)
    requires n <= |text| && redacted == text[..n] + tail && IsFirstDifference(text, redacted, d)
    ensures n <= d && redacted[n..] == tail
  {
    assert forall k :: 0 <= k < n ==> redacted[k] == text[k];
  }

  // No text is redacted to its own first part and the mark of the cut.
  lemma CutIsNotRedaction(text: string, redacted: string, n: nat, tail: string)
    requires n <= |text| && IsMarkedBefore(text, redacted, |text|) && IsNoMark(tail)
    ensures redacted != text[..n] + tail
  {
    var v: nat, d: nat :| IsMarked(text, redacted, v, d);
    assert IsMarked(text, redacted, v, d);
    if redacted == text[..n] + tail {
      TailOfCut(text, n, tail, redacted, d);
      NoMarkInTail(text, redacted, n, tail, v, d);
    }
  }

  lemma LongerCutOf(text: string, redacted: string, max: nat)
    requires |TRUNCATED| <= max < |text| && max < |redacted|
    ensures var n := max - |TRUNCATED|;
            Shortened(text, max) == Shortened(redacted, max) <==> text[..n] <= redacted
  {
    var n := max - |TRUNCATED|;
    CutOf(text, max);
    CutOf(redacted, max);
    assert (text[..n] + TRUNCATED)[..n] == text[..n] && (redacted[..n] + TRUNCATED)[..n] == redacted[..n];
  }

  lemma LongAlike(text: string, redacted: string, max: nat, clean: bool)
    requires |TRUNCATED| <= max < |text| && (|redacted| <= max ==> IsMarkedBefore(text, redacted, |text|))
    requires text[..max - |TRUNCATED|] <= redacted <==> clean
    ensures Shortened(text, max) == Shortened(redacted, max) <==> max < |redacted| && clean
  {
    if max < |redacted| {
      LongerCutOf(text, redacted, max);
    } else {
      CutOf(text, max);
      TruncatedIsNoMark();
      CutIsNotRedaction(text, redacted, max - |TRUNCATED|, TRUNCATED);
    }
  }

  // The redacted text, and whether it starts like the text, as values.
  lemma RedactedAs(text: string, n: nat) returns (redacted: string, clean: bool)
    requires n <= |text|
    ensures redacted == RedactLikelySecret(text) && clean == IsCleanThrough(PASSES, text, n)
    ensures text[..n] <= redacted <==> clean
    ensures |redacted| < |text| ==> IsMarkedBefore(text, redacted, |text|)
  {
    redacted, clean := RedactLikelySecret(text), IsCleanThrough(PASSES, text, n);
    FrontOfRedacted(text, n);
    FrontOfRedacted(text, |text|);
    assert text[..|text|] == text;
  }

  lemma LongUnredacted(text: string, max: nat)
    requires |TRUNCATED| <= max < |text|
    ensures Shortened(text, max) == Shortened(RedactLikelySecret(text), max) <==>
            max < |RedactLikelySecret(text)| && IsCleanThrough(PASSES, text, max - |TRUNCATED|)
  {
    var redacted, clean := RedactedAs(text, max - |TRUNCATED|);
    LongAlike(text, redacted, max, clean);
  }

  // What is written of the text shows nothing that the redactor would have replaced. Of a longer text only what stands
  // before the cut counts, and the redactor must not have made it fit.
  ghost predicate ShowsNoSecret(text: string, max: nat)
    requires |TRUNCATED| <= max
  {
    if |text| <= max then HasNoSecret(text)
    else max < |RedactLikelySecret(text)| && IsCleanThrough(PASSES, text, max - |TRUNCATED|)
  }

  lemma ShortUnredacted(text: string, max: nat)
    requires |text| <= max && |TRUNCATED| <= max
    ensures Shortened(text, max) == Shortened(RedactLikelySecret(text), max) <==> HasNoSecret(text)
  {
    PatternsArePasses(text);
    FixedIffNoSecret(text);
    if max < |Redact(text)| {
      CutIsNotOwnRedaction(text, max);
    }
    AlikeIffFixed(text, Redact(text), max);
  }

  // Cutting alone writes the same as redacting and cutting exactly when nothing that shows would have been replaced.
  lemma UnredactedIffNoSecret(text: string, max: nat)
    requires |TRUNCATED| <= max
    ensures Shortened(text, max) == BoundString(RedactLikelySecret, text, max) <==> ShowsNoSecret(text, max)
  {
    if |text| <= max {
      ShortUnredacted(text, max);
    } else {
      LongUnredacted(text, max);
    }
  }

  lemma ProtocolErrorRecord(redact: Redactor, dump: Json -> string, event: AuditEvent, id: string, message: string)
    requires event.details == ProtocolError(id, message)
    ensures var record := RecordOf(redact, dump, event);
            && record.details == map["request_id" := Shortened(id, MAX_STRING_BYTES)]
            && record.summary == Shortened(message, MAX_STRING_BYTES)
  {
  }

  // A protocol error is written with its own id and message, cut; they are what the redactor would have left exactly
  // when they show no secret.
  lemma ProtocolErrorIsUnredacted(dump: Json -> string, event: AuditEvent, id: string, message: string)
    requires event.details == ProtocolError(id, message)
    ensures var record := RecordOf(RedactLikelySecret, dump, event);
            && record.details == map["request_id" := Shortened(id, MAX_STRING_BYTES)]
            && record.summary == Shortened(message, MAX_STRING_BYTES)
    ensures Shortened(id, MAX_STRING_BYTES) == AuditString(RedactLikelySecret, id) <==>
            ShowsNoSecret(id, MAX_STRING_BYTES)
    ensures Shortened(message, MAX_STRING_BYTES) == AuditString(RedactLikelySecret, message) <==>
            ShowsNoSecret(message, MAX_STRING_BYTES)
  {
    ProtocolErrorRecord(RedactLikelySecret, dump, event, id, message);
    UnredactedIffNoSecret(id, MAX_STRING_BYTES);
    UnredactedIffNoSecret(message, MAX_STRING_BYTES);
  }

  // ---- An id with a secret ----

  lemma CleanAtHead(s: Shape, x: string)
    requires IsShape(s) && IsCleanOf(s, x) && FindValue(s, x).Found?
    ensures x[FindValue(s, x).start..FindValue(s, x).end] == REDACTED
  {
    assert x[0..] == x;
    assert IsCleanHead(FinderOf(s), REDACTED, x[0..]);
  }

  lemma PlainValueIsResidue(s: Shape, left: string, secret: string)
    requires IsShape(s) && !s.quoted && s.prefix(left) && IsPlain(secret) && secret != ""
    ensures !IsCleanOf(s, left + secret)
  {
    PlainValueIsFound(s, left, secret);
    assert (left + secret)[|left|..|left| + |secret|] == secret && secret[0] != '[';
    if IsCleanOf(s, left + secret) {
      CleanAtHead(s, left + secret);
    }
  }

  lemma PasswordIsKept()
    ensures IsPrefix(Assignment, "password=")
  {
    var y := "password=";
    assert HasWordAt("password", y, 0);
    assert KEYWORDS[0] == "password";
    LengthOfWord(y, "password");
    assert !IsSpace(y[8]);
    assert SpaceEnd(y, 8) == 8 && SpaceEnd(y, 9) == 9;
  }

  lemma PasswordHasSecret(text: string, secret: string)
    requires IsPlain(secret) && secret != "" && text == "password=" + secret
    ensures !HasNoSecret(text)
  {
    PasswordIsKept();
    PassHasShape(Assignment);
    PlainValueIsResidue(ShapeOf(Assignment), "password=", secret);
    assert !HasNoResidue(Assignment, text);
  }

  // An unknown method with such an id leaves the secret in the log.
  lemma SecretIdIsWritten(dump: Json -> string, event: AuditEvent, id: string, secret: string)
    requires IsPlain(secret) && secret != "" && id == "password=" + secret && |id| <= MAX_STRING_BYTES
    requires event.details == ProtocolError(id, "unknown method")
    ensures RecordOf(RedactLikelySecret, dump, event).details["request_id"] == id
    ensures AuditString(RedactLikelySecret, id) != id
  {
    ProtocolErrorRecord(RedactLikelySecret, dump, event, id, "unknown method");
    PasswordHasSecret(id, secret);
    ShortUnredacted(id, MAX_STRING_BYTES);
  }
}
