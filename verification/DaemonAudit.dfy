/** Audit before effect, over whole runs: what stands next to every tool call, model call and reply in the trace. */
module DaemonAudit {
  import opened CoreTypes
  import opened Daemon
  import opened DaemonLog
  import opened Registry
  import opened Session
  import opened SessionProperties

  // The tool is a read-only tool of the registry, the one that was asked for, and its answer is recorded next.
  predicate IsToolAudited(tools: seq<Tool>, effects: seq<Effect>, i: nat)
    requires i < |effects| && effects[i].ToolCalled?
  {
    var call := effects[i];
    && call.tool in tools && call.tool.risk == ReadOnly && call.tool.name == call.request.toolName
    && i + 1 < |effects| && effects[i + 1].IsAttempt()
    && var details := effects[i + 1].event.details;
       && details.ToolCall? && details.request == call.request
       && IsAnswer(call.request, call.outcome, details.response)
  }

  // A tool.call record says that the tool was allowed exactly when it ran right before; otherwise it is of a refusal.
  predicate IsRecordAudited(effects: seq<Effect>, i: nat)
    requires i < |effects| && effects[i].IsAttempt()
  {
    var details := effects[i].event.details;
    details.ToolCall? ==>
      if 1 <= i && effects[i - 1].ToolCalled? then
        && details.decision.allowed && details.request == effects[i - 1].request
        && IsAnswer(details.request, effects[i - 1].outcome, details.response)
      else
        !details.decision.allowed && IsRefusal(details.request, details.response)
  }

  // A tool that returned Ok, its record and the record of the request stand before a model call, with its prompt and
  // its evidence, and its answer or its failure is recorded next.
  predicate IsModelAudited(effects: seq<Effect>, i: nat)
    requires i < |effects| && effects[i].ModelCalled?
  {
    var call := effects[i];
    && 3 <= i && effects[i - 3].ToolCalled? && effects[i - 2].Appended? && effects[i - 1].Appended?
    && var ran, tool, request := effects[i - 3], effects[i - 2].event.details, effects[i - 1].event.details;
    && ran.outcome.Returned? && ran.outcome.value.status == Ok && ran.outcome.value.evidence == call.evidence
    && tool.ToolCall? && tool.request == ran.request && tool.response == ran.outcome.value
    && request == ModelRequest(call.prompt, ran.request, call.evidence)
    && i + 1 < |effects| && effects[i + 1].IsAttempt()
    && var next := effects[i + 1].event.details;
       if call.answer.Returned? then next == ModelResponse(ran.request, call.answer.value)
       else next.ModelError? && next.prompt == call.prompt && next.evidence == call.evidence
  }

  // A response is written right after its record, an ok answer right after the record of it and the model call.
  predicate IsReplyAudited(effects: seq<Effect>, i: nat)
    requires i < |effects| && effects[i].Written?
  {
    match effects[i].reply
    case ToolReply(_, response) =>
      && 1 <= i && effects[i - 1].Appended? && effects[i - 1].event.details.ToolCall?
      && effects[i - 1].event.details.response == response
    case AskReply(_, result) =>
      result.ok ==>
        && 2 <= i && effects[i - 1].Appended? && effects[i - 1].event.details.ModelResponse?
        && effects[i - 1].event.details.answer == result.answer
        && effects[i - 2].ModelCalled? && effects[i - 2].answer == Returned(result.answer)
    case _ => true
  }

  predicate IsAuditedAt(tools: seq<Tool>, effects: seq<Effect>, i: nat)
    requires i < |effects|
  {
    match effects[i]
    case ToolCalled(_, _, _) => IsToolAudited(tools, effects, i)
    case ModelCalled(_, _, _) => IsModelAudited(effects, i)
    case Written(_, _) => IsReplyAudited(effects, i)
    case _ => IsRecordAudited(effects, i)
  }

  ghost predicate IsAudited(tools: seq<Tool>, effects: seq<Effect>) {
    forall i :: 0 <= i < |effects| ==> IsAuditedAt(tools, effects, i)
  }

  // No tool call is the last of some effects: its record is still to come.
  predicate IsClosed(effects: seq<Effect>) {
    effects == [] || !effects[|effects| - 1].ToolCalled?
  }

  lemma AuditedIsClosed(tools: seq<Tool>, effects: seq<Effect>)
    requires IsAudited(tools, effects)
    ensures IsClosed(effects)
  {
    if effects != [] {
      assert IsAuditedAt(tools, effects, |effects| - 1);
    }
  }

  // What stands next to an effect stays there.
  lemma AuditedInside(tools: seq<Tool>, before: seq<Effect>, effects: seq<Effect>, after: seq<Effect>, i: nat)
    requires i < |effects| && IsAuditedAt(tools, effects, i) && IsClosed(before)
    ensures IsAuditedAt(tools, before + effects + after, |before| + i)
  {
    var all, n := before + effects + after, |before|;
    assert forall k :: 0 <= k < |effects| ==> all[n + k] == effects[k];
    assert all[n + i] == effects[i] && (i > 0 ==> all[n + (i - 1)] == effects[i - 1]);
    assert (i > 1 ==> all[n + (i - 2)] == effects[i - 2]) && (i > 2 ==> all[n + (i - 3)] == effects[i - 3]);
    assert i + 1 < |effects| ==> all[n + (i + 1)] == effects[i + 1];
    assert n > 0 ==> all[n - 1] == before[n - 1];
  }

  lemma AuditedAppend(tools: seq<Tool>, effects: seq<Effect>, more: seq<Effect>)
    requires IsAudited(tools, effects) && IsAudited(tools, more)
    ensures IsAudited(tools, effects + more)
  {
    AuditedIsClosed(tools, effects);
    forall i | 0 <= i < |effects + more| ensures IsAuditedAt(tools, effects + more, i) {
      if i < |effects| {
        AuditedFirst(tools, effects, more, i);
      } else {
        AuditedLast(tools, effects, more, i - |effects|);
      }
    }
  }

  lemma AuditedFirst(tools: seq<Tool>, effects: seq<Effect>, more: seq<Effect>, i: nat)
    requires i < |effects| && IsAuditedAt(tools, effects, i)
    ensures IsAuditedAt(tools, effects + more, i)
  {
    AuditedInside(tools, [], effects, more, i);
    assert [] + effects + more == effects + more;
  }

  lemma AuditedLast(tools: seq<Tool>, effects: seq<Effect>, more: seq<Effect>, i: nat)
    requires i < |more| && IsAuditedAt(tools, more, i) && IsClosed(effects)
    ensures IsAuditedAt(tools, effects + more, |effects| + i)
  {
    AuditedInside(tools, effects, more, [], i);
    assert effects + more + [] == effects + more;
  }

  // Attempts to append need nothing beside them.
  lemma AttemptsAreAudited(tools: seq<Tool>, effects: seq<Effect>)
    requires forall i :: 0 <= i < |effects| ==> effects[i].IsAttempt() && !effects[i].event.details.ToolCall?
    ensures IsAudited(tools, effects)
  {
  }

  lemma ToolIsAudited(tools: seq<Tool>, request: ToolRequest, actor: string, ran: seq<Effect>, recorded: seq<Effect>,
                      response: ToolResponse, outcome: Outcome<ToolResponse>)
    requires IsToolCall(tools, request, actor, ran, recorded, response, outcome)
    ensures IsAudited(tools, ran + recorded)
  {
    var effects := ran + recorded;
    forall i | 0 <= i < |effects| && effects[i].ToolCalled? ensures IsToolAudited(tools, effects, i) {
      OnlyReadOnlyToolsRun(tools, request, actor, ran, recorded, response, outcome, i);
    }
    NoModelInToolCall(tools, request, actor, ran, recorded, response, outcome);
  }

  // ---- A question ----

  lemma AnswerIsTried(q: Question, evidence: seq<Evidence>, answer: Outcome<string>, responded: seq<Effect>,
                      concluded: seq<Effect>, outcome: Outcome<AskResult>)
    requires IsConclusion(q, evidence, answer, responded, concluded, outcome)
    ensures var last := responded + concluded;
            && last != [] && (forall k :: 0 <= k < |last| ==> last[k].IsAttempt())
            && var next := last[0].event.details;
               if answer.Returned? then next == ModelResponse(q.request, answer.value)
               else next.ModelError? && next.prompt == q.prompt && next.evidence == evidence
  {
  }

  // The effects of a question around its model call.
  lemma AroundModel(parts: Parts, n: nat)
    requires n == |parts.ran + parts.recorded| && |parts.ran| == 1 && |parts.recorded| == 1 && |parts.requested| == 1
    requires |parts.answered| == 1 && parts.responded + parts.concluded != []
    ensures var effects := parts.Effects();
            && n == 2 && n + 2 < |effects| && effects[n - 2] == parts.ran[0] && effects[n - 1] == parts.recorded[0]
            && effects[n] == parts.requested[0] && effects[n + 1] == parts.answered[0]
            && effects[n + 2] == (parts.responded + parts.concluded)[0]
  {
    PartsAre(parts, n - 2);
    PartsAre(parts, n - 1);
    PartsAre(parts, n);
    PartsAre(parts, n + 1);
    PartsAre(parts, n + 2);
  }

  // A call that gave Ok has run a tool that gave the same.
  lemma OkHasRun(tools: seq<Tool>, request: ToolRequest, actor: string, ran: seq<Effect>, recorded: seq<Effect>,
                 response: ToolResponse, outcome: Outcome<ToolResponse>)
    requires IsToolCall(tools, request, actor, ran, recorded, response, outcome) && response.status == Ok
    ensures |ran| == 1 && ran[0].ToolCalled? && ran[0].request == request && ran[0].outcome == Returned(response)
  {
    ResponseIsOfCall(tools, request, actor, ran, recorded, response, outcome);
  }

  lemma ModelIsAudited(q: Question, parts: Parts, response: ToolResponse, outcome: Outcome<AskResult>)
    requires |parts.ran| == 1 && parts.ran[0].ToolCalled? && parts.ran[0].request == q.request
    requires parts.ran[0].outcome == Returned(response) && response.status == Ok
    requires |parts.recorded| == 1 && parts.recorded[0].Appended? && parts.recorded[0].event.details.ToolCall?
    requires parts.recorded[0].event.details.request == q.request
    requires parts.recorded[0].event.details.response == response
    requires IsModelPart(q, response.evidence, parts, outcome) && parts.answered != []
    ensures var n := |parts.ran + parts.recorded|;
            && n + 1 < |parts.Effects()| && parts.Effects()[n + 1].ModelCalled?
            && IsModelAudited(parts.Effects(), n + 1)
  {
    AnswerIsTried(q, response.evidence, parts.answered[0].answer, parts.responded, parts.concluded, outcome);
    AroundModel(parts, |parts.ran + parts.recorded|);
  }

  // The only effects of a question that are not attempts to append are its tool call and its model call.
  lemma OtherAreAttempts(q: Question, parts: Parts, called: Outcome<ToolResponse>, outcome: Outcome<AskResult>, i: nat)
    requires IsAfter(q, parts, called, outcome) && |parts.ran + parts.recorded| <= i < |parts.Effects()|
    ensures var effect := parts.Effects()[i];
            || (effect.IsAttempt() && !effect.event.details.ToolCall?)
            || (i == |parts.ran + parts.recorded| + 1 && parts.answered != [])
    ensures parts.answered != [] ==> called.Returned? && called.value.status == Ok
  {
    PartsAre(parts, i);
  }

  lemma RecordedCall(tools: seq<Tool>, request: ToolRequest, actor: string, ran: seq<Effect>, recorded: seq<Effect>,
                     response: ToolResponse, outcome: Outcome<ToolResponse>)
    requires IsToolCall(tools, request, actor, ran, recorded, response, outcome) && outcome.Returned?
    ensures |recorded| == 1 && recorded[0].Appended? && recorded[0].event.details.ToolCall?
    ensures recorded[0].event.details.request == request && recorded[0].event.details.response == outcome.value
  {
  }

  lemma LaterIsAudited(tools: seq<Tool>, q: Question, parts: Parts, response: ToolResponse,
                       called: Outcome<ToolResponse>, outcome: Outcome<AskResult>, i: nat)
    requires IsAsk(tools, q, parts, response, called, outcome)
    requires |parts.ran + parts.recorded| <= i < |parts.Effects()|
    ensures IsAuditedAt(tools, parts.Effects(), i)
  {
    OtherAreAttempts(q, parts, called, outcome, i);
    if i == |parts.ran + parts.recorded| + 1 && parts.answered != [] {
      RecordedCall(tools, q.request, q.actor, parts.ran, parts.recorded, response, called);
      OkHasRun(tools, q.request, q.actor, parts.ran, parts.recorded, response, called);
      ModelIsAudited(q, parts, response, outcome);
    }
  }

  lemma EarlierIsAudited(tools: seq<Tool>, parts: Parts, i: nat)
    requires i < |parts.ran + parts.recorded| && IsAuditedAt(tools, parts.ran + parts.recorded, i)
    ensures i < |parts.Effects()| && IsAuditedAt(tools, parts.Effects(), i)
  {
    AuditedFirst(tools, parts.ran + parts.recorded, parts.After(), i);
  }

  lemma AskIsAudited(tools: seq<Tool>, q: Question, parts: Parts, response: ToolResponse,
                     called: Outcome<ToolResponse>, outcome: Outcome<AskResult>)
    requires IsAsk(tools, q, parts, response, called, outcome)
    ensures IsAudited(tools, parts.Effects())
  {
    ToolIsAudited(tools, q.request, q.actor, parts.ran, parts.recorded, response, called);
    forall i | 0 <= i < |parts.Effects()| ensures IsAuditedAt(tools, parts.Effects(), i) {
      if i < |parts.ran + parts.recorded| {
        EarlierIsAudited(tools, parts, i);
      } else {
        LaterIsAudited(tools, q, parts, response, called, outcome, i);
      }
    }
  }

  // ---- A request ----

  lemma ReplyIsAudited(tools: seq<Tool>, block: seq<Effect>, written: Effect)
    requires IsAudited(tools, block) && written.Written? && IsReplyAudited(block + [written], |block|)
    ensures IsAudited(tools, block + [written])
  {
    forall i | 0 <= i < |block + [written]| ensures IsAuditedAt(tools, block + [written], i) {
      if i < |block| {
        AuditedFirst(tools, block, [written], i);
      }
    }
  }

  lemma ToolRequestIsAudited(tools: seq<Tool>, id: string, request: ToolRequest, c: Called, h: Handling,
                             outcome: Outcome<Reply>)
    requires IsToolRequest(tools, id, request, c, h, outcome)
    ensures IsAudited(tools, h.block + h.written)
  {
    ToolIsAudited(tools, request, ACTOR, c.ran, c.recorded, c.made, c.response);
    if c.response.Returned? {
      NoResponseWithoutRecord(tools, request, ACTOR, c.ran, c.recorded, c.made, c.response);
      assert h.written == [h.written[0]];
      ReplyIsAudited(tools, h.block, h.written[0]);
    } else {
      assert h.block + h.written == h.block;
    }
  }

  lemma AskRequestIsAudited(tools: seq<Tool>, id: string, q: Question, c: Called, h: Handling,
                            outcome: Outcome<Reply>)
    requires IsAskRequest(tools, id, q, c, h, outcome)
    ensures IsAudited(tools, h.block + h.written)
  {
    AskIsAudited(tools, q, c.parts, c.made, c.response, c.result);
    if c.result.Returned? {
      assert h.written == [h.written[0]];
      if c.result.value.ok {
        OkMeansRecorded(tools, q, c.parts, c.made, c.response, c.result);
      }
      ReplyIsAudited(tools, h.block, h.written[0]);
    } else {
      assert h.block + h.written == h.block;
    }
  }

  lemma TryIsAudited(tools: seq<Tool>, input: Input, c: Called, h: Handling, tried: Outcome<Reply>)
    requires IsTry(tools, input, c, h, tried)
    ensures IsAudited(tools, h.Tried())
  {
    match input
    case CallTool(id, request) =>
      ToolRequestIsAudited(tools, id, request, c, h, tried);
      assert h.errors + h.written == h.written;
    case Ask(id, prompt, request) =>
      AskRequestIsAudited(tools, id, Question(prompt, request, ACTOR), c, h, tried);
      assert h.errors + h.written == h.written;
    case _ =>
  }

  lemma CatchIsAudited(tools: seq<Tool>, id: string, message: string, h: Handling, outcome: Outcome<Reply>)
    requires IsCatch(id, message, h, outcome)
    ensures IsAudited(tools, h.caught + h.answered)
  {
  }

  lemma RequestIsAudited(tools: seq<Tool>, input: Input, c: Called, h: Handling, tried: Outcome<Reply>,
                         outcome: Outcome<Reply>)
    requires IsHandled(tools, input, c, h, tried, outcome)
    ensures IsAudited(tools, h.Effects())
  {
    TryIsAudited(tools, input, c, h, tried);
    if tried.Threw? {
      CatchIsAudited(tools, input.id, tried.message, h, outcome);
    } else {
      AttemptsAreAudited(tools, h.caught + h.answered);
    }
    AuditedAppend(tools, h.Tried(), h.caught + h.answered);
  }

  // ---- A run ----

  lemma {:induction false} RunIsAudited(tools: seq<Tool>, parts: seq<seq<Effect>>)
    requires forall i :: 0 <= i < |parts| ==> IsAudited(tools, parts[i])
    ensures IsAudited(tools, Flatten(parts))
  {
    if parts != [] {
      RunIsAudited(tools, parts[..|parts| - 1]);
      AuditedAppend(tools, Flatten(parts[..|parts| - 1]), parts[|parts| - 1]);
    }
  }
}
