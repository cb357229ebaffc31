/** What an outsider can tell from the effects of a tool call or a question. */
module SessionProperties {
  import opened CoreTypes
  import opened Registry
  import opened Session
  import opened Splitting

  // The types of the records among the effects, as they stand in the log.
  function TypeOf(details: Details): string {
    match details
    case ToolCall(_, _, _) => "tool.call"
    case ModelSkipped(_, _, _) => "model.skipped"
    case ModelRequest(_, _, _) => "model.request"
    case ModelResponse(_, _) => "model.response"
    case ModelError(_, _, _, _) => "model.error"
    case ProtocolError(_, _) => "protocol.error"
  }

  function TypesIn(effect: Effect): seq<string> {
    if effect.Appended? then [TypeOf(effect.event.details)] else []
  }

  function TypesOf(effects: seq<Effect>): seq<string> {
    if effects == [] then [] else TypesIn(effects[0]) + TypesOf(effects[1..])
  }

  lemma {:induction false} TypesAppend(effects: seq<Effect>, more: seq<Effect>)
    ensures TypesOf(effects + more) == TypesOf(effects) + TypesOf(more)
  {
    if effects == [] {
      assert effects + more == more;
    } else {
      TypesAppend(effects[1..], more);
      assert (effects + more)[1..] == effects[1..] + more;
      Associate(TypesIn(effects[0]), TypesOf(effects[1..]), TypesOf(more));
    }
  }

  // The audit block of a request, or a first part of one.
  predicate IsBlock(types: seq<string>) {
    || types <= ["tool.call", "model.skipped"]
    || types <= ["tool.call", "model.request", "model.response"]
    || types <= ["tool.call", "model.request", "model.error"]
  }

  lemma TypesOfOne(effects: seq<Effect>)
    requires |effects| == 1
    ensures TypesOf(effects) == TypesIn(effects[0])
  {
    assert effects[1..] == [];
  }

  lemma TypesOfTried(effects: seq<Effect>, actor: string, details: Details)
    requires IsTried(effects, actor, details)
    ensures TypesOf(effects) == if FailureOf(effects).None? then [TypeOf(details)] else []
  {
    TypesOfOne(effects);
  }

  lemma ToolCallTypes(tools: seq<Tool>, request: ToolRequest, actor: string, ran: seq<Effect>,
                      recorded: seq<Effect>, response: ToolResponse, outcome: Outcome<ToolResponse>)
    requires IsToolCall(tools, request, actor, ran, recorded, response, outcome)
    ensures TypesOf(ran + recorded) == if outcome.Returned? then ["tool.call"] else []
  {
    TypesAppend(ran, recorded);
    if |ran| == 1 {
      TypesOfOne(ran);
    }
    TypesOfTried(recorded, actor,
                 ToolCall(request, DecisionOf(AllowedFrom(PoliciesOf(tools)), request.toolName), response));
  }

  // Responded and concluded: one record when the question has a result, none when it threw.
  lemma ConclusionTypes(q: Question, evidence: seq<Evidence>, answer: Outcome<string>, responded: seq<Effect>,
                        concluded: seq<Effect>, outcome: Outcome<AskResult>)
    requires IsConclusion(q, evidence, answer, responded, concluded, outcome)
    ensures !outcome.ThrewOther?
    ensures TypesOf(responded + concluded) ==
            match outcome {
              case Returned(result) => [if result.ok then "model.response" else "model.error"]
              case _ => []
            }
  {
    TypesAppend(responded, concluded);
    if answer.Returned? {
      TypesOfTried(responded, q.actor, ModelResponse(q.request, answer.value));
    }
    if concluded != [] {
      TypesOfOne(concluded);
    }
  }

  lemma ModelPartTypes(q: Question, evidence: seq<Evidence>, parts: Parts, outcome: Outcome<AskResult>)
    requires IsModelPart(q, evidence, parts, outcome)
    ensures parts.answered == [] ==> outcome.Threw? && TypesOf(parts.After()) == []
    ensures parts.answered != [] ==>
              TypesOf(parts.After()) == ["model.request"] + TypesOf(parts.responded + parts.concluded)
  {
    TypesAppend(parts.requested + parts.answered, parts.responded + parts.concluded);
    TypesAppend(parts.requested, parts.answered);
    TypesOfTried(parts.requested, q.actor, ModelRequest(q.prompt, q.request, evidence));
    if parts.answered != [] {
      TypesOfOne(parts.answered);
    } else {
      assert parts.responded + parts.concluded == [];
    }
  }

  predicate AreAfterTypes(types: seq<string>, status: ToolStatus, outcome: Outcome<AskResult>) {
    if status != Ok then types == ["model.skipped"] && outcome.Returned? && !outcome.value.ok
    else if outcome.Returned? then
      types == ["model.request", if outcome.value.ok then "model.response" else "model.error"]
    else types == ["model.request"]
  }

  // The records that follow that of the tool call.
  lemma AfterTypes(q: Question, parts: Parts, called: Outcome<ToolResponse>, outcome: Outcome<AskResult>)
    requires IsAfter(q, parts, called, outcome)
    ensures var types := TypesOf(parts.After());
            && (types == [] || types == ["model.request"] ==> outcome.Threw?)
            && (types == [] || (called.Returned? && AreAfterTypes(types, called.value.status, outcome)))
  {
    if called.Returned? && called.value.status == Ok {
      ModelPartTypes(q, called.value.evidence, parts, outcome);
      if parts.answered != [] {
        ConclusionTypes(q, called.value.evidence, parts.answered[0].answer, parts.responded, parts.concluded, outcome);
      }
    } else {
      assert parts.After() == parts.concluded;
      if called.Returned? {
        TypesOfTried(parts.concluded, q.actor, ModelSkipped(q.prompt, q.request, called.value));
      }
    }
  }

  lemma BlockOf(after: seq<string>, status: ToolStatus, outcome: Outcome<AskResult>)
    requires after == [] || AreAfterTypes(after, status, outcome)
    ensures IsBlock(["tool.call"] + after)
  {
  }

  lemma AskTypes(tools: seq<Tool>, q: Question, parts: Parts, response: ToolResponse,
                 called: Outcome<ToolResponse>, outcome: Outcome<AskResult>)
    requires IsAsk(tools, q, parts, response, called, outcome)
    ensures var types := TypesOf(parts.Effects());
            && IsBlock(types)
            && (outcome.Returned? ==> called.Returned? && types != [] && types[0] == "tool.call"
                                      && AreAfterTypes(types[1..], response.status, outcome))
  {
    TypesAppend(parts.ran + parts.recorded, parts.After());
    ToolCallTypes(tools, q.request, q.actor, parts.ran, parts.recorded, response, called);
    AfterTypes(q, parts, called, outcome);
    if called.Returned? {
      BlockOf(TypesOf(parts.After()), response.status, outcome);
      assert (["tool.call"] + TypesOf(parts.After()))[1..] == TypesOf(parts.After());
    }
  }

  // ---- Audit before effect ----

  // A response leaves a tool call only after its record, which says what ran and what it answered.
  lemma NoResponseWithoutRecord(tools: seq<Tool>, request: ToolRequest, actor: string, ran: seq<Effect>,
                                recorded: seq<Effect>, response: ToolResponse, outcome: Outcome<ToolResponse>)
    requires IsToolCall(tools, request, actor, ran, recorded, response, outcome) && outcome.Returned?
    ensures var effects := ran + recorded;
            && effects != [] && effects[|effects| - 1].Appended?
            && var details := effects[|effects| - 1].event.details;
               details.ToolCall? && details.request == request && details.response == outcome.value
  {
  }

  // What a tool gave, as a response: its own, or an error without evidence.
  predicate IsAnswer(request: ToolRequest, outcome: Outcome<ToolResponse>, response: ToolResponse) {
    match outcome
    case Returned(value) => response == value
    case Threw(message) =>
      && response.status == Error && response.evidence == [] && response.requestId == request.id
      && response.message == message
    case ThrewOther =>
      && response.status == Error && response.evidence == [] && response.requestId == request.id
      && response.message == "tool call failed with unknown exception"
  }

  // What is answered when no tool ran.
  predicate IsRefusal(request: ToolRequest, response: ToolResponse) {
    response.status == Denied && response.evidence == [] && response.requestId == request.id
  }

  // Why a call was refused: the registry has no such tool, or one that is not read-only.
  predicate IsReason(tools: seq<Tool>, name: string, reason: string) {
    match FindIn(tools, name)
    case None => reason == "tool is not registered in policy allowlist"
    case Some(tool) => tool.risk != ReadOnly && reason == "only read-only tools are allowed in v1"
  }

  lemma NotRunIsRefused(tools: seq<Tool>, request: ToolRequest, ran: seq<Effect>, response: ToolResponse)
    requires IsRun(tools, request, ran, response) && ran == []
    ensures IsRefusal(request, response) && IsReason(tools, request.toolName, response.message)
  {
    DecisionTellsRegistry(tools, request.toolName);
  }

  lemma RunIsAnswered(tools: seq<Tool>, request: ToolRequest, ran: seq<Effect>, response: ToolResponse)
    requires IsRun(tools, request, ran, response) && ran != []
    ensures |ran| == 1 && ran[0].ToolCalled? && IsAnswer(request, ran[0].outcome, response)
  {
  }

  // The response is that of the tool that ran, or a refusal for the reason that the registry gives.
  lemma ResponseIsOfCall(tools: seq<Tool>, request: ToolRequest, actor: string, ran: seq<Effect>,
                         recorded: seq<Effect>, response: ToolResponse, outcome: Outcome<ToolResponse>)
    requires IsToolCall(tools, request, actor, ran, recorded, response, outcome)
    ensures outcome.Returned? ==> outcome.value == response
    ensures (forall e :: e in ran + recorded ==> !e.ToolCalled?) ==>
              IsRefusal(request, response) && IsReason(tools, request.toolName, response.message)
    ensures forall e :: e in ran + recorded && e.ToolCalled? ==> IsAnswer(request, e.outcome, response)
  {
    if ran == [] {
      NotRunIsRefused(tools, request, ran, response);
    } else {
      RunIsAnswered(tools, request, ran, response);
      assert ran[0] in ran + recorded;
    }
  }

  // Only a read-only tool of the registry runs, and only the one that was asked for.
  lemma OnlyReadOnlyToolsRun(tools: seq<Tool>, request: ToolRequest, actor: string, ran: seq<Effect>,
                             recorded: seq<Effect>, response: ToolResponse, outcome: Outcome<ToolResponse>, i: nat)
    requires IsToolCall(tools, request, actor, ran, recorded, response, outcome)
    requires i < |ran + recorded| && (ran + recorded)[i].ToolCalled?
    ensures i == 0
    ensures var tool := (ran + recorded)[i].tool;
            tool in tools && tool.risk == ReadOnly && tool.name == request.toolName
  {
  }

  lemma NoModelInToolCall(tools: seq<Tool>, request: ToolRequest, actor: string, ran: seq<Effect>,
                          recorded: seq<Effect>, response: ToolResponse, outcome: Outcome<ToolResponse>)
    requires IsToolCall(tools, request, actor, ran, recorded, response, outcome)
    ensures forall j :: 0 <= j < |ran + recorded| ==> !(ran + recorded)[j].ModelCalled?
  {
  }

  // Which part an effect belongs to.
  lemma PartsAre(parts: Parts, i: nat)
    requires i < |parts.Effects()|
    ensures var a, c := |parts.ran + parts.recorded|, |parts.ran + parts.recorded| + |parts.requested|;
            parts.Effects()[i] == if i < a then (parts.ran + parts.recorded)[i]
                                  else if i < c then parts.requested[i - a]
                                  else if i < c + |parts.answered| then parts.answered[i - c]
                                  else (parts.responded + parts.concluded)[i - c - |parts.answered|]
  {
  }

  lemma OneModelCall(q: Question, parts: Parts, called: Outcome<ToolResponse>, outcome: Outcome<AskResult>, at: nat)
    requires IsAfter(q, parts, called, outcome) && at == |parts.ran + parts.recorded| + 1
    requires forall j :: 0 <= j < |parts.ran + parts.recorded| ==> !(parts.ran + parts.recorded)[j].ModelCalled?
    ensures forall j :: 0 <= j < |parts.Effects()| && parts.Effects()[j].ModelCalled? ==>
              j == at && |parts.answered| == 1
  {
    assert forall j :: 0 <= j < |parts.responded + parts.concluded| ==>
             !(parts.responded + parts.concluded)[j].ModelCalled?;
    forall j | 0 <= j < |parts.Effects()| && parts.Effects()[j].ModelCalled? ensures j == at && |parts.answered| == 1 {
      PartsAre(parts, j);
    }
  }

  // The model is asked only after the records of an Ok tool call and of the request, and gets that evidence.
  lemma ModelOnlyAfterRecords(tools: seq<Tool>, q: Question, parts: Parts, response: ToolResponse,
                              called: Outcome<ToolResponse>, outcome: Outcome<AskResult>, i: nat)
    requires IsAsk(tools, q, parts, response, called, outcome)
    requires i < |parts.Effects()| && parts.Effects()[i].ModelCalled?
    ensures var effects := parts.Effects();
            && 2 <= i && effects[i - 2].Appended? && effects[i - 1].Appended?
            && effects[i - 2].event.details.ToolCall?
            && effects[i - 2].event.details.response.status == Ok
            && effects[i - 1].event.details == ModelRequest(q.prompt, q.request, effects[i].evidence)
            && effects[i].evidence == effects[i - 2].event.details.response.evidence
            && effects[i].prompt == q.prompt
            && (forall j :: 0 <= j < |effects| && effects[j].ModelCalled? ==> j == i)
  {
    var n := |parts.ran + parts.recorded|;
    NoModelInToolCall(tools, q.request, q.actor, parts.ran, parts.recorded, response, called);
    OneModelCall(q, parts, called, outcome, n + 1);
    PartsAre(parts, i);
    PartsAre(parts, n - 1);
    PartsAre(parts, n);
  }

  // An ok answer is what the model said, and model.response is the last record.
  lemma OkMeansRecorded(tools: seq<Tool>, q: Question, parts: Parts, response: ToolResponse,
                        called: Outcome<ToolResponse>, outcome: Outcome<AskResult>)
    requires IsAsk(tools, q, parts, response, called, outcome)
    requires outcome.Returned? && outcome.value.ok
    ensures var effects := parts.Effects();
            var n := |effects|;
            && 4 <= n && effects[n - 1].Appended?
            && effects[n - 1].event.details == ModelResponse(q.request, outcome.value.answer)
            && effects[n - 2].ModelCalled? && effects[n - 2].answer == Returned(outcome.value.answer)
  {
    var n := |parts.Effects()|;
    PartsAre(parts, n - 1);
    PartsAre(parts, n - 2);
  }
}
