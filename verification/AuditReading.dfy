/** What a reader of the audit log can tell: a record of an event that was written in full gives its values back, and
  * the record of a tool call says whether the tool ran and what came of it.
  */
module AuditReading {
  import opened AuditDetails
  import opened CoreTypes
  import opened DaemonAudit
  import opened Decimals
  import opened RedactionPatterns
  import opened Registry
  import opened Session
  import opened Wrappers

  // What can be read of an event. Parameters and evidence are read as the JSON text that they were written as.
  datatype Reading =
    | ReadCall(requestId: string, toolName: string, risk: RiskClass, params: string, allowed: bool, reason: string,
               status: ToolStatus, message: string, count: nat, refs: string)
    | ReadSkip(requestId: string, prompt: string, status: ToolStatus, reason: string, count: nat, refs: string)
    | ReadRequest(requestId: string, prompt: string, count: nat, refs: string)
    | ReadResponse(requestId: string, preview: string, bytes: nat)
    | ReadError(requestId: string, prompt: string, error: string, count: nat, refs: string)
    | ReadProtocolError(requestId: string, message: string)

  // ---- The reader ----

  function ReadStatus(name: string): Option<ToolStatus> {
    if name == "ok" then Some(Ok)
    else if name == "denied" then Some(Denied)
    else if name == "error" then Some(Error)
    else None
  }

  function ReadRisk(name: string): Option<RiskClass> {
    if name == "read_only" then Some(ReadOnly)
    else if name == "low_risk_user" then Some(LowRiskUser)
    else if name == "admin" then Some(Admin)
    else if name == "destructive" then Some(Destructive)
    else None
  }

  function ReadFlag(name: string): Option<bool> {
    if name == "true" then Some(true) else if name == "false" then Some(false) else None
  }

  function ReadCount(text: string): Option<nat> {
    if forall i :: 0 <= i < |text| ==> IsDigit(text[i]) then Some(DecimalValue(text)) else None
  }

  function ReadCallRecord(values: map<string, string>): Option<Reading> {
    if {"request_id", "tool_name", "request_risk", "request_params", "policy_allowed", "policy_decision", "status",
        "response_status", "response_message", "response_evidence_count", "response_evidence_refs"} != values.Keys
       || values["status"] != values["response_status"]
    then None
    else
      match (ReadRisk(values["request_risk"]), ReadFlag(values["policy_allowed"]), ReadStatus(values["status"]),
             ReadCount(values["response_evidence_count"]))
      case (Some(risk), Some(allowed), Some(status), Some(count)) =>
        Some(ReadCall(values["request_id"], values["tool_name"], risk, values["request_params"], allowed,
                      values["policy_decision"], status, values["response_message"], count,
                      values["response_evidence_refs"]))
      case _ => None
  }

  function ReadSkipRecord(values: map<string, string>): Option<Reading> {
    if {"request_id", "prompt", "tool_status", "reason", "evidence_count", "evidence_refs"} != values.Keys then None
    else
      match (ReadStatus(values["tool_status"]), ReadCount(values["evidence_count"]))
      case (Some(status), Some(count)) =>
        Some(ReadSkip(values["request_id"], values["prompt"], status, values["reason"], count,
                      values["evidence_refs"]))
      case _ => None
  }

  function ReadRequestRecord(values: map<string, string>): Option<Reading> {
    if {"request_id", "prompt", "evidence_count", "evidence_refs"} != values.Keys then None
    else
      match ReadCount(values["evidence_count"])
      case Some(count) => Some(ReadRequest(values["request_id"], values["prompt"], count, values["evidence_refs"]))
      case None => None
  }

  function ReadResponseRecord(values: map<string, string>): Option<Reading> {
    if {"request_id", "response_status", "response_message", "response_bytes", "response_preview"} != values.Keys
       || values["response_status"] != "ok" || values["response_message"] != "model response received"
    then None
    else
      match ReadCount(values["response_bytes"])
      case Some(bytes) => Some(ReadResponse(values["request_id"], values["response_preview"], bytes))
      case None => None
  }

  function ReadErrorRecord(values: map<string, string>): Option<Reading> {
    if {"request_id", "prompt", "error", "evidence_count", "evidence_refs"} != values.Keys then None
    else
      match ReadCount(values["evidence_count"])
      case Some(count) =>
        Some(ReadError(values["request_id"], values["prompt"], values["error"], count, values["evidence_refs"]))
      case None => None
  }

  // A record is read by its type, and its summary must be what its details say.
  function ReadRecord(record: Record): Option<Reading> {
    var values := record.details;
    if record.kind == "tool.call" then
      if "tool_name" in values && values["tool_name"] == record.summary then ReadCallRecord(values) else None
    else if record.kind == "model.skipped" then
      if "prompt" in values && values["prompt"] == record.summary then ReadSkipRecord(values) else None
    else if record.kind == "model.request" then
      if "prompt" in values && values["prompt"] == record.summary then ReadRequestRecord(values) else None
    else if record.kind == "model.response" then
      if record.summary == "model response received" then ReadResponseRecord(values) else None
    else if record.kind == "model.error" then
      if "prompt" in values && values["prompt"] == record.summary then ReadErrorRecord(values) else None
    else if record.kind == "protocol.error" && {"request_id"} == values.Keys then
      Some(ReadProtocolError(values["request_id"], record.summary))
    else None
  }

  // ---- Reading what was written ----

  // How the parts of an event are written.
  datatype Writer = Writer(text: string -> string, cut: string -> string, params: map<string, string> -> string,
                           refs: seq<Evidence> -> string)

  // What is said of an event by this writer.
  function ReadingOf(w: Writer, details: Details): Reading {
    match details
    case ToolCall(request, decision, response) =>
      ReadCall(w.text(request.id), w.text(request.toolName), request.risk, w.params(request.params), decision.allowed,
               w.text(decision.reason), response.status, w.text(response.message), |response.evidence|,
               w.refs(response.evidence))
    case ModelSkipped(prompt, request, response) =>
      ReadSkip(w.text(request.id), w.text(prompt), response.status, w.text(response.message), |response.evidence|,
               w.refs(response.evidence))
    case ModelRequest(prompt, request, evidence) =>
      ReadRequest(w.text(request.id), w.text(prompt), |evidence|, w.refs(evidence))
    case ModelResponse(request, answer) => ReadResponse(w.text(request.id), w.text(answer), |answer|)
    case ModelError(prompt, request, error, evidence) =>
      ReadError(w.text(request.id), w.text(prompt), w.text(error), |evidence|, w.refs(evidence))
    case ProtocolError(requestId, message) => ReadProtocolError(w.cut(requestId), w.cut(message))
  }

  // Strings are redacted and then cut to 2048 characters, or 512 for a parameter, and JSON texts to 4096.
  ghost predicate IsBounding(w: Writer, redact: Redactor, dump: Json -> string) {
    && (forall text :: w.text(text) == Shortened(redact(text), 2048))
    && (forall text :: w.cut(text) == Shortened(text, 2048))
    && (forall params :: w.params(params) == Shortened(redact(dump(Params(ShortParams(redact, params)))), 4096))
    && (forall items :: w.refs(items) == Shortened(redact(dump(Refs(RefsOf(redact, items, 64)))), 4096))
  }

  function ShortParams(redact: Redactor, params: map<string, string>): map<string, string> {
    map key | key in params :: Shortened(redact(params[key]), 512)
  }

  lemma StatusRoundTrip(status: ToolStatus)
    ensures ReadStatus(StatusName(status)) == Some(status)
  {
  }

  lemma RiskRoundTrip(risk: RiskClass)
    ensures ReadRisk(RiskName(risk)) == Some(risk)
  {
    assert "read_only"[0] != "low_risk_user"[0] && "admin"[0] != "destructive"[0];
  }

  lemma CountRoundTrip(n: nat)
    ensures ReadCount(Decimal(n)) == Some(n)
  {
    DecimalRoundTrip(n);
  }

  // The values of a record of a tool call, as the reader expects them.
  predicate SaysCall(values: map<string, string>, r: Reading) {
    && r.ReadCall?
    && values.Keys == {"request_id", "tool_name", "request_risk", "request_params", "policy_allowed",
                       "policy_decision", "status", "response_status", "response_message",
                       "response_evidence_count", "response_evidence_refs"}
    && values["request_id"] == r.requestId && values["tool_name"] == r.toolName
    && ReadRisk(values["request_risk"]) == Some(r.risk) && values["request_params"] == r.params
    && ReadFlag(values["policy_allowed"]) == Some(r.allowed) && values["policy_decision"] == r.reason
    && ReadStatus(values["status"]) == Some(r.status) && values["response_status"] == values["status"]
    && values["response_message"] == r.message && ReadCount(values["response_evidence_count"]) == Some(r.count)
    && values["response_evidence_refs"] == r.refs
  }

  lemma CallKeys(redact: Redactor, dump: Json -> string, details: Details)
    requires details.ToolCall?
    ensures DetailsOf(redact, dump, details).Keys ==
            {"request_id", "tool_name", "request_risk", "request_params", "policy_allowed", "policy_decision",
             "status", "response_status", "response_message", "response_evidence_count", "response_evidence_refs"}
  {
  }

  lemma ParamsAreWritten(w: Writer, redact: Redactor, dump: Json -> string, params: map<string, string>)
    requires IsBounding(w, redact, dump)
    ensures BoundString(redact, dump(Params(ParamsOf(redact, params))), MAX_JSON_BYTES) == w.params(params)
  {
    assert ParamsOf(redact, params) == ShortParams(redact, params);
  }

  lemma RequestIsWritten(redact: Redactor, dump: Json -> string, details: Details)
    requires details.ToolCall?
    ensures var values, request := DetailsOf(redact, dump, details), details.request;
            && values["request_id"] == BoundString(redact, request.id, 2048)
            && values["tool_name"] == BoundString(redact, request.toolName, 2048)
            && values["request_risk"] == RiskName(request.risk)
  {
  }

  lemma ParamsAreInCall(w: Writer, redact: Redactor, dump: Json -> string, details: Details)
    requires IsBounding(w, redact, dump) && details.ToolCall?
    ensures DetailsOf(redact, dump, details)["request_params"] == w.params(details.request.params)
  {
    ParamsAreWritten(w, redact, dump, details.request.params);
  }

  // Whether the tool was allowed and what came of it are written of every call.
  lemma DecisionIsWritten(w: Writer, redact: Redactor, dump: Json -> string, details: Details)
    requires IsBounding(w, redact, dump) && details.ToolCall?
    ensures var values := DetailsOf(redact, dump, details);
            && values["policy_allowed"] == (if details.decision.allowed then "true" else "false")
            && values["policy_decision"] == w.text(details.decision.reason)
  {
  }

  lemma ResponseIsWritten(w: Writer, redact: Redactor, dump: Json -> string, details: Details)
    requires IsBounding(w, redact, dump) && details.ToolCall?
    ensures var values, response := DetailsOf(redact, dump, details), details.response;
            && values["status"] == values["response_status"] == StatusName(response.status)
            && values["response_message"] == w.text(response.message)
            && values["response_evidence_count"] == Decimal(|response.evidence|)
            && values["response_evidence_refs"] == w.refs(response.evidence)
  {
  }

  lemma CallIsSaid(w: Writer, redact: Redactor, dump: Json -> string, details: Details)
    requires IsBounding(w, redact, dump) && details.ToolCall?
    ensures SaysCall(DetailsOf(redact, dump, details), ReadingOf(w, details))
  {
    StatusRoundTrip(details.response.status);
    RiskRoundTrip(details.request.risk);
    CountRoundTrip(|details.response.evidence|);
    CallKeys(redact, dump, details);
    RequestIsWritten(redact, dump, details);
    ParamsAreInCall(w, redact, dump, details);
    DecisionIsWritten(w, redact, dump, details);
    ResponseIsWritten(w, redact, dump, details);
  }

  lemma SaidIsRead(values: map<string, string>, r: Reading)
    requires SaysCall(values, r)
    ensures ReadCallRecord(values) == Some(r)
  {
  }

  lemma CallIsRead(w: Writer, redact: Redactor, dump: Json -> string, details: Details)
    requires IsBounding(w, redact, dump) && details.ToolCall?
    ensures ReadCallRecord(DetailsOf(redact, dump, details)) == Some(ReadingOf(w, details))
  {
    CallIsSaid(w, redact, dump, details);
    SaidIsRead(DetailsOf(redact, dump, details), ReadingOf(w, details));
  }

  lemma SkipIsRead(w: Writer, redact: Redactor, dump: Json -> string, details: Details)
    requires IsBounding(w, redact, dump) && details.ModelSkipped?
    ensures ReadSkipRecord(DetailsOf(redact, dump, details)) == Some(ReadingOf(w, details))
  {
    StatusRoundTrip(details.response.status);
    CountRoundTrip(|details.response.evidence|);
  }

  lemma RequestIsRead(w: Writer, redact: Redactor, dump: Json -> string, details: Details)
    requires IsBounding(w, redact, dump) && details.ModelRequest?
    ensures ReadRequestRecord(DetailsOf(redact, dump, details)) == Some(ReadingOf(w, details))
  {
    CountRoundTrip(|details.evidence|);
  }

  lemma ResponseIsRead(w: Writer, redact: Redactor, dump: Json -> string, details: Details)
    requires IsBounding(w, redact, dump) && details.ModelResponse?
    ensures ReadResponseRecord(DetailsOf(redact, dump, details)) == Some(ReadingOf(w, details))
  {
    CountRoundTrip(|details.answer|);
  }

  lemma ErrorIsRead(w: Writer, redact: Redactor, dump: Json -> string, details: Details)
    requires IsBounding(w, redact, dump) && details.ModelError?
    ensures ReadErrorRecord(DetailsOf(redact, dump, details)) == Some(ReadingOf(w, details))
  {
    CountRoundTrip(|details.evidence|);
  }

  lemma KindsDiffer()
    ensures "tool.call"[0] != "model.skipped"[0] && "protocol.error"[0] != "model.error"[0]
    ensures "model.skipped"[6] != "model.request"[6] && "model.request"[8] != "model.response"[8]
    ensures "model.error"[6] != "model.skipped"[6] && "model.error"[6] != "model.request"[6]
    ensures "tool.call"[0] != "protocol.error"[0]
  {
  }

  // Every record is read as what the writer had to say of its event, each value under its key.
  lemma RecordIsRead(w: Writer, redact: Redactor, dump: Json -> string, event: AuditEvent)
    requires IsBounding(w, redact, dump)
    ensures ReadRecord(RecordOf(redact, dump, event)) == Some(ReadingOf(w, event.details))
  {
    KindsDiffer();
    match event.details
    case ToolCall(_, _, _) => CallIsRead(w, redact, dump, event.details);
    case ModelSkipped(_, _, _) => SkipIsRead(w, redact, dump, event.details);
    case ModelRequest(_, _, _) => RequestIsRead(w, redact, dump, event.details);
    case ModelResponse(_, _) => ResponseIsRead(w, redact, dump, event.details);
    case ModelError(_, _, _, _) => ErrorIsRead(w, redact, dump, event.details);
    case ProtocolError(_, _) =>
  }

  // ---- Events that are written in full ----

  // The redactor leaves the text alone, and it fits.
  predicate IsWhole(redact: Redactor, text: string, max: nat) {
    redact(text) == text && |text| <= max
  }

  predicate IsWholeItem(redact: Redactor, item: Evidence) {
    && IsWhole(redact, item.id, 2048) && IsWhole(redact, item.source, 2048)
    && IsWhole(redact, item.summary, 2048) && IsWhole(redact, item.timestamp, 2048)
  }

  // The items as they are shown in a record: all but their bodies.
  function RefsTo(items: seq<Evidence>): seq<Ref> {
    seq(|items|, i requires 0 <= i < |items| =>
      Ref(items[i].id, items[i].source, items[i].summary, items[i].timestamp))
  }

  // No more items than are shown, each of them whole, and so is their JSON text.
  predicate AreWholeItems(redact: Redactor, dump: Json -> string, items: seq<Evidence>) {
    && |items| <= 64 && (forall i :: 0 <= i < |items| ==> IsWholeItem(redact, items[i]))
    && IsWhole(redact, dump(Refs(RefsTo(items))), 4096)
  }

  predicate AreWholeParams(redact: Redactor, dump: Json -> string, params: map<string, string>) {
    (forall key :: key in params ==> IsWhole(redact, params[key], 512)) && IsWhole(redact, dump(Params(params)), 4096)
  }

  // A protocol error is not redacted.
  predicate IsWholeEvent(redact: Redactor, dump: Json -> string, details: Details) {
    match details
    case ToolCall(request, decision, response) =>
      && IsWhole(redact, request.id, 2048) && IsWhole(redact, request.toolName, 2048)
      && AreWholeParams(redact, dump, request.params) && IsWhole(redact, decision.reason, 2048)
      && IsWhole(redact, response.message, 2048) && AreWholeItems(redact, dump, response.evidence)
    case ModelSkipped(prompt, request, response) =>
      && IsWhole(redact, request.id, 2048) && IsWhole(redact, prompt, 2048)
      && IsWhole(redact, response.message, 2048) && AreWholeItems(redact, dump, response.evidence)
    case ModelRequest(prompt, request, evidence) =>
      IsWhole(redact, request.id, 2048) && IsWhole(redact, prompt, 2048) && AreWholeItems(redact, dump, evidence)
    case ModelResponse(request, answer) => IsWhole(redact, request.id, 2048) && IsWhole(redact, answer, 2048)
    case ModelError(prompt, request, error, evidence) =>
      && IsWhole(redact, request.id, 2048) && IsWhole(redact, prompt, 2048) && IsWhole(redact, error, 2048)
      && AreWholeItems(redact, dump, evidence)
    case ProtocolError(requestId, message) => |requestId| <= 2048 && |message| <= 2048
  }

  // Everything is written as it is.
  ghost predicate IsPlain(w: Writer, dump: Json -> string) {
    && (forall text :: w.text(text) == text) && (forall text :: w.cut(text) == text)
    && (forall params :: w.params(params) == dump(Params(params)))
    && (forall items :: w.refs(items) == dump(Refs(RefsTo(items))))
  }

  lemma ItemsAreShown(w: Writer, redact: Redactor, dump: Json -> string, items: seq<Evidence>)
    requires IsBounding(w, redact, dump) && AreWholeItems(redact, dump, items)
    ensures w.refs(items) == dump(Refs(RefsTo(items)))
  {
    var refs := RefsOf(redact, items, 64);
    RefsAt(redact, items, 64);
    forall i | 0 <= i < |items| ensures refs[i] == RefsTo(items)[i] {
      assert IsWholeItem(redact, items[i]);
    }
    assert refs == RefsTo(items);
  }

  lemma ParamsAreShown(w: Writer, redact: Redactor, dump: Json -> string, params: map<string, string>)
    requires IsBounding(w, redact, dump) && AreWholeParams(redact, dump, params)
    ensures w.params(params) == dump(Params(params))
  {
    assert ShortParams(redact, params) == params;
  }

  lemma WholeIsShown(w: Writer, plain: Writer, redact: Redactor, dump: Json -> string, details: Details)
    requires IsBounding(w, redact, dump) && IsPlain(plain, dump) && IsWholeEvent(redact, dump, details)
    ensures ReadingOf(w, details) == ReadingOf(plain, details)
  {
    match details
    case ToolCall(request, _, response) =>
      ParamsAreShown(w, redact, dump, request.params);
      ItemsAreShown(w, redact, dump, response.evidence);
    case ModelSkipped(_, _, response) => ItemsAreShown(w, redact, dump, response.evidence);
    case ModelRequest(_, _, evidence) => ItemsAreShown(w, redact, dump, evidence);
    case ModelError(_, _, _, evidence) => ItemsAreShown(w, redact, dump, evidence);
    case _ =>
  }

  lemma BoundingWriter(redact: Redactor, dump: Json -> string) returns (w: Writer)
    ensures IsBounding(w, redact, dump)
  {
    w := Writer((text: string) => Shortened(redact(text), 2048), (text: string) => Shortened(text, 2048),
                (params: map<string, string>) => Shortened(redact(dump(Params(ShortParams(redact, params)))), 4096),
                (items: seq<Evidence>) => Shortened(redact(dump(Refs(RefsOf(redact, items, 64)))), 4096));
  }

  lemma PlainWriter(dump: Json -> string) returns (plain: Writer)
    ensures IsPlain(plain, dump)
  {
    plain := Writer((text: string) => text, (text: string) => text,
                    (params: map<string, string>) => dump(Params(params)),
                    (items: seq<Evidence>) => dump(Refs(RefsTo(items))));
  }

  // A whole event is read as it was.
  lemma WholeEventIsRead(plain: Writer, redact: Redactor, dump: Json -> string, event: AuditEvent)
    requires IsPlain(plain, dump) && IsWholeEvent(redact, dump, event.details)
    ensures ReadRecord(RecordOf(redact, dump, event)) == Some(ReadingOf(plain, event.details))
  {
    var w := BoundingWriter(redact, dump);
    RecordIsRead(w, redact, dump, event);
    WholeIsShown(w, plain, redact, dump, event.details);
  }

  // ---- A record determines its event ----

  // Up to what is not written: evidence bodies, the id in a response, and of requests to the model the request itself.
  predicate SaySame(a: Details, b: Details) {
    && DifferInBodies(EvidenceOf(a), EvidenceOf(b))
    && match (a, b) {
         case (ToolCall(request, decision, response), ToolCall(request', decision', response')) =>
           && request == request' && decision == decision'
           && response.status == response'.status && response.message == response'.message
         case (ModelSkipped(prompt, request, response), ModelSkipped(prompt', request', response')) =>
           && prompt == prompt' && request.id == request'.id
           && response.status == response'.status && response.message == response'.message
         case (ModelRequest(prompt, request, _), ModelRequest(prompt', request', _)) =>
           prompt == prompt' && request.id == request'.id
         case (ModelResponse(request, answer), ModelResponse(request', answer')) =>
           request.id == request'.id && answer == answer'
         case (ModelError(prompt, request, error, _), ModelError(prompt', request', error', _)) =>
           prompt == prompt' && request.id == request'.id && error == error'
         case (ProtocolError(id, message), ProtocolError(id', message')) => id == id' && message == message'
         case _ => false
       }
  }

  ghost predicate IsInjective(dump: Json -> string) {
    forall a, b :: dump(a) == dump(b) ==> a == b
  }

  lemma SameRefs(dump: Json -> string, a: seq<Evidence>, b: seq<Evidence>)
    requires IsInjective(dump) && dump(Refs(RefsTo(a))) == dump(Refs(RefsTo(b)))
    ensures DifferInBodies(a, b)
  {
    assert RefsTo(a) == RefsTo(b);
    forall i | 0 <= i < |a| ensures b[i] == a[i].(body := b[i].body) {
      assert RefsTo(a)[i] == RefsTo(b)[i];
    }
  }

  lemma SameReading(plain: Writer, dump: Json -> string, a: Details, b: Details)
    requires IsPlain(plain, dump) && IsInjective(dump) && ReadingOf(plain, a) == ReadingOf(plain, b)
    ensures SaySame(a, b)
  {
    if |EvidenceOf(a)| > 0 || |EvidenceOf(b)| > 0 {
      assert plain.refs(EvidenceOf(a)) == plain.refs(EvidenceOf(b));
      SameRefs(dump, EvidenceOf(a), EvidenceOf(b));
    }
  }

  lemma SaidIsWritten(redact: Redactor, dump: Json -> string, a: AuditEvent, b: AuditEvent)
    requires a.actor == b.actor && SaySame(a.details, b.details)
    ensures RecordOf(redact, dump, a) == RecordOf(redact, dump, b)
  {
    RefsIgnoreBodies(redact, EvidenceOf(a.details), EvidenceOf(b.details), MAX_EVIDENCE_REFS);
  }

  // When the writer of JSON loses nothing, two whole events have one record exactly when they are by one actor and say
  // the same.
  lemma RecordDeterminesEvent(redact: Redactor, dump: Json -> string, a: AuditEvent, b: AuditEvent)
    requires IsInjective(dump) && IsWholeEvent(redact, dump, a.details) && IsWholeEvent(redact, dump, b.details)
    ensures RecordOf(redact, dump, a) == RecordOf(redact, dump, b) <==>
            a.actor == b.actor && SaySame(a.details, b.details)
  {
    var plain := PlainWriter(dump);
    WholeEventIsRead(plain, redact, dump, a);
    WholeEventIsRead(plain, redact, dump, b);
    if RecordOf(redact, dump, a) == RecordOf(redact, dump, b) {
      SameReading(plain, dump, a.details, b.details);
    }
    if a.actor == b.actor && SaySame(a.details, b.details) {
      SaidIsWritten(redact, dump, a, b);
    }
  }

  // ---- What happened ----

  // The status that a record must show, by what happened before it: no tool ran, or it threw, or it answered.
  function StatusAfter(effects: seq<Effect>, i: nat): ToolStatus
    requires i < |effects|
  {
    if i == 0 || !effects[i - 1].ToolCalled? then Denied
    else if effects[i - 1].outcome.Returned? then effects[i - 1].outcome.value.status
    else Error
  }

  function ItemsAfter(effects: seq<Effect>, i: nat): nat
    requires i < |effects|
  {
    if i > 0 && effects[i - 1].ToolCalled? && effects[i - 1].outcome.Returned? then
      |effects[i - 1].outcome.value.evidence|
    else 0
  }

  // In an audited trace a record of a tool call says that the call was allowed exactly when a tool ran right before
  // it, and shows what that tool gave, or that the call was denied.
  lemma RecordTellsWhatHappened(tools: seq<Tool>, effects: seq<Effect>, i: nat, redact: Redactor, dump: Json -> string)
    requires IsAudited(tools, effects) && i < |effects| && effects[i].IsAttempt()
    requires effects[i].event.details.ToolCall?
    ensures var reading := ReadRecord(RecordOf(redact, dump, effects[i].event));
            && reading.Some? && reading.value.ReadCall?
            && (reading.value.allowed <==> i > 0 && effects[i - 1].ToolCalled?)
            && reading.value.status == StatusAfter(effects, i) && reading.value.count == ItemsAfter(effects, i)
  {
    assert IsAuditedAt(tools, effects, i);
    var w := BoundingWriter(redact, dump);
    RecordIsRead(w, redact, dump, effects[i].event);
  }
}
