/** How an audit event is written: redacted, bounded strings, and references in place of evidence. */
module AuditDetails {
  import opened CoreTypes
  import opened Decimals
  import opened RedactionPatterns
  import opened Session
  import opened SessionProperties

  const MAX_STRING_BYTES := 2048
  const MAX_JSON_BYTES := 4096
  const MAX_PARAM_BYTES := 512
  const MAX_EVIDENCE_REFS := 64
  const TRUNCATED := "...[truncated]"

  // A text within the limit is unchanged. A longer one is cut to the limit: its first characters and then the whole
  // marker, or the first characters of the marker where not even that fits.
  function Shortened(text: string, max: nat): (short: string)
    ensures |short| <= max && (|text| <= max ==> short == text)
    ensures max < |text| ==> |short| == max
    ensures |TRUNCATED| <= max < |text| ==>
              short[..max - |TRUNCATED|] <= text && short[max - |TRUNCATED|..] == TRUNCATED
    ensures max < |text| && max < |TRUNCATED| ==> short <= TRUNCATED
  {
    if |text| <= max then text
    else if max <= |TRUNCATED| then TRUNCATED[..max]
    else text[..max - |TRUNCATED|] + TRUNCATED
  }

  // The redactor runs first, so that no secret is cut into a part that it would not recognise.
  function BoundString(redact: Redactor, value: string, max: nat): string {
    Shortened(redact(value), max)
  }

  datatype Ref = Ref(id: string, source: string, summary: string, timestamp: string) | MoreRefs

  // JSON values that are written into a string of their own.
  datatype Json = Params(params: map<string, string>) | Refs(refs: seq<Ref>)

  function RefOf(redact: Redactor, item: Evidence): Ref {
    Ref(BoundString(redact, item.id, MAX_STRING_BYTES), BoundString(redact, item.source, MAX_STRING_BYTES),
        BoundString(redact, item.summary, MAX_STRING_BYTES), BoundString(redact, item.timestamp, MAX_STRING_BYTES))
  }

  function RefsOf(redact: Redactor, evidence: seq<Evidence>, limit: nat): seq<Ref> {
    if evidence == [] then []
    else if limit == 0 then [MoreRefs]
    else [RefOf(redact, evidence[0])] + RefsOf(redact, evidence[1..], limit - 1)
  }

  method EvidenceRefs(redact: Redactor, evidence: seq<Evidence>) returns (refs: seq<Ref>)
    ensures refs == RefsOf(redact, evidence, MAX_EVIDENCE_REFS)
  {
    refs := [];
    var count := 0;
    assert evidence[0..] == evidence;
    for i := 0 to |evidence|
      invariant count == i <= MAX_EVIDENCE_REFS
      invariant refs + RefsOf(redact, evidence[i..], MAX_EVIDENCE_REFS - count) ==
                RefsOf(redact, evidence, MAX_EVIDENCE_REFS)
    {
      assert evidence[i..][1..] == evidence[i + 1..];
      if count >= MAX_EVIDENCE_REFS {
        refs := refs + [MoreRefs];
        return;
      }
      refs := refs + [RefOf(redact, evidence[i])];
      count := count + 1;
    }
    assert RefsOf(redact, [], MAX_EVIDENCE_REFS - count) == [];
  }

  lemma {:induction false} RefsAt(redact: Redactor, evidence: seq<Evidence>, limit: nat)
    ensures var refs, all := RefsOf(redact, evidence, limit), |evidence|;
            && |refs| == (if all <= limit then all else limit + 1)
            && (forall i :: 0 <= i < all && i < limit ==> refs[i] == RefOf(redact, evidence[i]))
            && (limit < all ==> refs[limit] == MoreRefs)
  {
    if evidence != [] && limit > 0 {
      RefsAt(redact, evidence[1..], limit - 1);
    }
  }

  // ---- Details ----

  function ParamsOf(redact: Redactor, params: map<string, string>): map<string, string> {
    map key | key in params :: BoundString(redact, params[key], MAX_PARAM_BYTES)
  }

  function AuditString(redact: Redactor, value: string): (text: string)
    ensures |text| <= MAX_STRING_BYTES
  {
    BoundString(redact, value, MAX_STRING_BYTES)
  }

  function RefsText(redact: Redactor, dump: Json -> string, evidence: seq<Evidence>): (text: string)
    ensures |text| <= MAX_JSON_BYTES
  {
    BoundString(redact, dump(Refs(RefsOf(redact, evidence, MAX_EVIDENCE_REFS))), MAX_JSON_BYTES)
  }

  // dump is the JSON writer, when it succeeds.
  function DetailsOf(redact: Redactor, dump: Json -> string, details: Details): map<string, string> {
    match details
    case ToolCall(request, decision, response) =>
      map["request_id" := AuditString(redact, request.id), "tool_name" := AuditString(redact, request.toolName),
          "request_risk" := RiskName(request.risk),
          "request_params" := BoundString(redact, dump(Params(ParamsOf(redact, request.params))), MAX_JSON_BYTES),
          "policy_allowed" := if decision.allowed then "true" else "false",
          "policy_decision" := AuditString(redact, decision.reason),
          "response_status" := StatusName(response.status), "response_message" := AuditString(redact, response.message),
          "response_evidence_count" := Decimal(|response.evidence|),
          "response_evidence_refs" := RefsText(redact, dump, response.evidence),
          "status" := StatusName(response.status)]
    case ModelSkipped(prompt, request, response) =>
      map["request_id" := AuditString(redact, request.id), "prompt" := AuditString(redact, prompt),
          "tool_status" := StatusName(response.status), "reason" := AuditString(redact, response.message),
          "evidence_count" := Decimal(|response.evidence|),
          "evidence_refs" := RefsText(redact, dump, response.evidence)]
    case ModelRequest(prompt, request, evidence) =>
      map["request_id" := AuditString(redact, request.id), "prompt" := AuditString(redact, prompt),
          "evidence_count" := Decimal(|evidence|), "evidence_refs" := RefsText(redact, dump, evidence)]
    case ModelResponse(request, answer) =>
      map["request_id" := AuditString(redact, request.id), "response_status" := "ok",
          "response_message" := "model response received", "response_bytes" := Decimal(|answer|),
          "response_preview" := AuditString(redact, answer)]
    case ModelError(prompt, request, error, evidence) =>
      map["request_id" := AuditString(redact, request.id), "prompt" := AuditString(redact, prompt),
          "error" := AuditString(redact, error),
          "evidence_count" := Decimal(|evidence|), "evidence_refs" := RefsText(redact, dump, evidence)]
    case ProtocolError(requestId, _) =>
      map["request_id" := Shortened(requestId, MAX_STRING_BYTES)]
  }

  function SummaryOf(redact: Redactor, details: Details): string {
    match details
    case ToolCall(request, _, _) => AuditString(redact, request.toolName)
    case ModelSkipped(prompt, _, _) => AuditString(redact, prompt)
    case ModelRequest(prompt, _, _) => AuditString(redact, prompt)
    case ModelResponse(_, _) => "model response received"
    case ModelError(prompt, _, _, _) => AuditString(redact, prompt)
    case ProtocolError(_, message) => Shortened(message, MAX_STRING_BYTES)
  }

  // What is written of an event, besides its id and its time.
  datatype Record = Record(actor: string, kind: string, summary: string, details: map<string, string>)

  function RecordOf(redact: Redactor, dump: Json -> string, event: AuditEvent): Record {
    Record(event.actor, TypeOf(event.details), SummaryOf(redact, event.details),
           DetailsOf(redact, dump, event.details))
  }

  function RiskName(risk: RiskClass): string {
    match risk
    case ReadOnly => "read_only"
    case LowRiskUser => "low_risk_user"
    case Admin => "admin"
    case Destructive => "destructive"
  }

  function Pow10(k: nat): nat {
    if k == 0 then 1 else 10 * Pow10(k - 1)
  }

  lemma {:induction false} DecimalLength(n: nat, k: nat)
    requires n < Pow10(k) && 0 < k
    ensures |Decimal(n)| <= k
  {
    if n >= 10 {
      DecimalLength(n / 10, k - 1);
    }
  }

  function EvidenceOf(details: Details): seq<Evidence> {
    match details
    case ToolCall(_, _, response) => response.evidence
    case ModelSkipped(_, _, response) => response.evidence
    case ModelRequest(_, _, evidence) => evidence
    case ModelError(_, _, _, evidence) => evidence
    case _ => []
  }

  lemma CountIsShort(n: nat)
    requires n < COUNTER_LIMIT
    ensures |Decimal(n)| <= 20
  {
    assert Pow10(10) == 10000000000;
    assert Pow10(15) == 100000 * Pow10(10);
    assert Pow10(20) == 100000 * Pow10(15);
    DecimalLength(n, 20);
  }

  predicate AreBounded(values: map<string, string>) {
    forall key :: key in values ==> |values[key]| <= MAX_JSON_BYTES
  }

  lemma ToolCallIsBounded(redact: Redactor, dump: Json -> string, details: Details)
    requires details.ToolCall? && |Decimal(|EvidenceOf(details)|)| <= 20
    ensures AreBounded(DetailsOf(redact, dump, details))
  {
  }

  lemma ModelDetailsAreBounded(redact: Redactor, dump: Json -> string, details: Details)
    requires details.ModelSkipped? || details.ModelRequest? || details.ModelError?
    requires |Decimal(|EvidenceOf(details)|)| <= 20
    ensures AreBounded(DetailsOf(redact, dump, details))
  {
  }

  lemma SummaryIsBounded(redact: Redactor, details: Details)
    ensures |SummaryOf(redact, details)| <= MAX_STRING_BYTES
  {
    assert |"model response received"| <= MAX_STRING_BYTES;
  }

  // The summary and every detail of every event are bounded, whatever tools, the model and clients say.
  lemma RecordsAreBounded(redact: Redactor, dump: Json -> string, event: AuditEvent)
    requires |EvidenceOf(event.details)| < COUNTER_LIMIT
    requires event.details.ModelResponse? ==> |event.details.answer| < COUNTER_LIMIT
    ensures var record := RecordOf(redact, dump, event);
            && |record.kind| <= MAX_STRING_BYTES && |record.summary| <= MAX_STRING_BYTES
            && AreBounded(record.details)
  {
    SummaryIsBounded(redact, event.details);
    DetailsAreBounded(redact, dump, event.details);
    assert |TypeOf(event.details)| <= 14;
  }

  lemma DetailsAreBounded(redact: Redactor, dump: Json -> string, details: Details)
    requires |EvidenceOf(details)| < COUNTER_LIMIT
    requires details.ModelResponse? ==> |details.answer| < COUNTER_LIMIT
    ensures AreBounded(DetailsOf(redact, dump, details))
  {
    CountIsShort(|EvidenceOf(details)|);
    match details
    case ToolCall(_, _, _) => ToolCallIsBounded(redact, dump, details);
    case ModelResponse(_, answer) => CountIsShort(|answer|);
    case ProtocolError(_, _) =>
    case _ => ModelDetailsAreBounded(redact, dump, details);
  }

  // ---- The bodies of evidence stay out of the log ----

  predicate DifferInBodies(a: seq<Evidence>, b: seq<Evidence>) {
    |a| == |b| && forall i :: 0 <= i < |a| ==> b[i] == a[i].(body := b[i].body)
  }

  function WithEvidence(details: Details, evidence: seq<Evidence>): Details {
    match details
    case ToolCall(request, decision, response) => ToolCall(request, decision, response.(evidence := evidence))
    case ModelSkipped(prompt, request, response) => ModelSkipped(prompt, request, response.(evidence := evidence))
    case ModelRequest(prompt, request, _) => ModelRequest(prompt, request, evidence)
    case ModelError(prompt, request, error, _) => ModelError(prompt, request, error, evidence)
    case _ => details
  }

  lemma {:induction false} RefsIgnoreBodies(redact: Redactor, a: seq<Evidence>, b: seq<Evidence>, limit: nat)
    requires DifferInBodies(a, b)
    ensures RefsOf(redact, a, limit) == RefsOf(redact, b, limit)
  {
    if a != [] && limit > 0 {
      assert b[0] == a[0].(body := b[0].body);
      RefsIgnoreBodies(redact, a[1..], b[1..], limit - 1);
    }
  }

  lemma EvidenceBodiesStayOut(redact: Redactor, dump: Json -> string, details: Details, evidence: seq<Evidence>)
    requires DifferInBodies(EvidenceOf(details), evidence)
    ensures DetailsOf(redact, dump, WithEvidence(details, evidence)) == DetailsOf(redact, dump, details)
  {
    RefsIgnoreBodies(redact, EvidenceOf(details), evidence, MAX_EVIDENCE_REFS);
  }
}
