/** Audited tool calls and model requests. Tools and the model may throw, and so may every append to the
  * audit log. Every answer from outside is an effect, and the effects determine what the session does next and
  * what it returns. What an append that throws leaves in the file is not seen here (see AuditFile and DaemonFile).
  */
module Session {
  import opened CoreTypes
  import opened Registry
  import opened Splitting
  import opened Wrappers

  // What a call gives back: a value, a std::exception with its message, or anything else that was thrown.
  datatype Outcome<T> = Returned(value: T) | Threw(message: string) | ThrewOther

  // What an audit event says, before its strings are bounded.
  datatype Details =
    | ToolCall(request: ToolRequest, decision: PolicyDecision, response: ToolResponse)
    | ModelSkipped(prompt: string, request: ToolRequest, response: ToolResponse)
    | ModelRequest(prompt: string, request: ToolRequest, evidence: seq<Evidence>)
    | ModelResponse(request: ToolRequest, answer: string)
    | ModelError(prompt: string, request: ToolRequest, error: string, evidence: seq<Evidence>)
    | ProtocolError(requestId: string, message: string)

  datatype AuditEvent = AuditEvent(id: nat, actor: string, details: Details)

  // What can be seen from outside, in order.
  datatype Effect =
    | ToolCalled(tool: Tool, request: ToolRequest, outcome: Outcome<ToolResponse>)
    | ModelCalled(prompt: string, evidence: seq<Evidence>, answer: Outcome<string>)
    | Appended(event: AuditEvent)
    | NotAppended(event: AuditEvent, message: string) // the append threw
    | Written(reply: Reply, failure: Option<string>)  // as JSON text, or the writer threw
  {
    predicate IsAttempt() {
      Appended? || NotAppended?
    }
  }

  datatype Reply =
    | ErrorReply(id: string, message: string)
    | ListReply(id: string, names: seq<string>)
    | ToolReply(id: string, response: ToolResponse)
    | AskReply(id: string, result: AskResult)

  datatype AskResult = AskResult(ok: bool, answer: string, error: string)

  // The answers of everything outside the session; each question has a number of its own.
  datatype Environment = Environment(
    tool: (nat, Tool, ToolRequest) -> Outcome<ToolResponse>,
    model: (nat, string, seq<Evidence>) -> Outcome<string>,
    append: (nat, AuditEvent) -> Option<string>, // Some is the message of the exception
    dump: (nat, Reply) -> Option<string>)

  // One attempt to append an event, which may have failed.
  ghost predicate IsTried(effects: seq<Effect>, actor: string, details: Details) {
    && |effects| == 1 && effects[0].IsAttempt()
    && effects[0].event.actor == actor && effects[0].event.details == details
  }

  function FailureOf(effects: seq<Effect>): Option<string> {
    if |effects| == 1 && effects[0].NotAppended? then Some(effects[0].message) else None
  }

  // What an attempt to append leads to: the exception, or the value if there is none.
  function UnlessFailed<T>(effects: seq<Effect>, value: T): Outcome<T> {
    if FailureOf(effects).Some? then Threw(FailureOf(effects).value) else Returned(value)
  }

  // The ids of the events among the first n effects grow, and stay below the next id. An event that could not be
  // appended has used up its id.
  predicate IdsIncrease(trace: seq<Effect>, n: nat, next: nat)
    requires n <= |trace|
  {
    n == 0 ||
    if trace[n - 1].IsAttempt() then trace[n - 1].event.id < next && IdsIncrease(trace, n - 1, trace[n - 1].event.id)
    else IdsIncrease(trace, n - 1, next)
  }

  lemma {:induction false} IdsOfLonger(trace: seq<Effect>, n: nat, next: nat, longer: seq<Effect>, later: nat)
    requires n <= |trace| && IdsIncrease(trace, n, next) && trace <= longer && next <= later
    ensures IdsIncrease(longer, n, later)
  {
    if n > 0 {
      IdsOfLonger(trace, n - 1, if trace[n - 1].IsAttempt() then trace[n - 1].event.id else next,
                  longer, if trace[n - 1].IsAttempt() then trace[n - 1].event.id else later);
    }
  }

  lemma NextId(trace: seq<Effect>, effect: Effect, id: nat, next: nat)
    requires IdsIncrease(trace, |trace|, id) && id <= next
    requires effect.IsAttempt() ==> effect.event.id == id < next
    ensures IdsIncrease(trace, |trace|, next) && IdsIncrease(trace + [effect], |trace| + 1, next)
  {
    IdsOfLonger(trace, |trace|, id, trace, next);
    IdsOfLonger(trace, |trace|, id, trace + [effect], if effect.IsAttempt() then id else next);
  }

  lemma {:induction false} IdsAreDistinct(trace: seq<Effect>, n: nat, next: nat, i: nat, j: nat)
    requires n <= |trace| && IdsIncrease(trace, n, next) && i < j < n && trace[i].IsAttempt() && trace[j].IsAttempt()
    ensures trace[i].event.id < trace[j].event.id < next
  {
    if j < n - 1 {
      IdsAreDistinct(trace, n - 1, if trace[n - 1].IsAttempt() then trace[n - 1].event.id else next, i, j);
    } else {
      IdIsBelow(trace, n - 1, trace[n - 1].event.id, i);
    }
  }

  lemma {:induction false} IdIsBelow(trace: seq<Effect>, n: nat, next: nat, i: nat)
    requires n <= |trace| && IdsIncrease(trace, n, next) && i < n && trace[i].IsAttempt()
    ensures trace[i].event.id < next
  {
    if i < n - 1 {
      IdIsBelow(trace, n - 1, if trace[n - 1].IsAttempt() then trace[n - 1].event.id else next, i);
    }
  }

  class World {
    const env: Environment
    var asked: nat        // questions so far
    var nextEventId: nat  // the atomic counter of make_event_id
    var trace: seq<Effect>

    ghost predicate Valid()
      reads this
    {
      IdsIncrease(trace, |trace|, nextEventId)
    }

    constructor (env: Environment)
      ensures Valid() && this.env == env && asked == 0 && nextEventId == 0 && trace == []
    {
      this.env, asked, nextEventId, trace := env, 0, 0, [];
    }

    method CallTool(tool: Tool, request: ToolRequest) returns (outcome: Outcome<ToolResponse>)
      requires Valid()
      modifies this`asked, this`trace
      ensures Valid()
      ensures trace == old(trace) + [ToolCalled(tool, request, outcome)]
    {
      outcome := env.tool(asked, tool, request);
      NextId(trace, ToolCalled(tool, request, outcome), nextEventId, nextEventId);
      trace := trace + [ToolCalled(tool, request, outcome)];
      asked := asked + 1;
    }

    method Complete(prompt: string, evidence: seq<Evidence>) returns (outcome: Outcome<string>)
      requires Valid()
      modifies this`asked, this`trace
      ensures Valid()
      ensures trace == old(trace) + [ModelCalled(prompt, evidence, outcome)]
    {
      outcome := env.model(asked, prompt, evidence);
      NextId(trace, ModelCalled(prompt, evidence, outcome), nextEventId, nextEventId);
      trace := trace + [ModelCalled(prompt, evidence, outcome)];
      asked := asked + 1;
    }

    // Takes an event id, and appends the event or throws.
    method Append(actor: string, details: Details) returns (failure: Option<string>, ghost effects: seq<Effect>)
      requires Valid()
      modifies this
      ensures Valid() && trace == old(trace) + effects
      ensures IsTried(effects, actor, details) && FailureOf(effects) == failure
    {
      var event := AuditEvent(nextEventId, actor, details);
      failure := env.append(asked, event);
      asked := asked + 1;
      var effect := if failure.None? then Appended(event) else NotAppended(event, failure.value);
      NextId(trace, effect, nextEventId, nextEventId + 1);
      nextEventId := nextEventId + 1;
      trace := trace + [effect];
      effects := [effect];
    }

    // What a reply is sent as, or the message of the exception.
    method Dump(reply: Reply) returns (failure: Option<string>)
      requires Valid()
      modifies this`asked, this`trace
      ensures Valid() && trace == old(trace) + [Written(reply, failure)]
    {
      failure := env.dump(asked, reply);
      NextId(trace, Written(reply, failure), nextEventId, nextEventId);
      asked, trace := asked + 1, trace + [Written(reply, failure)];
    }
  }

  // ---- What one tool call may do ----

  function DeniedResponse(request: ToolRequest, reason: string): ToolResponse {
    ToolResponse(request.id, Denied, reason, [])
  }

  function ErrorResponse(request: ToolRequest, message: string): ToolResponse {
    ToolResponse(request.id, Error, message, [])
  }

  // A tool that throws is a tool that answered with an error.
  function ResponseOf(request: ToolRequest, outcome: Outcome<ToolResponse>): ToolResponse {
    match outcome
    case Returned(value) => value
    case Threw(message) => ErrorResponse(request, message)
    case ThrewOther => ErrorResponse(request, "tool call failed with unknown exception")
  }

  // A tool runs only when the decision allows it, and then it is a read-only tool of the registry.
  ghost predicate IsRun(tools: seq<Tool>, request: ToolRequest, ran: seq<Effect>, response: ToolResponse) {
    var decision := DecisionOf(AllowedFrom(PoliciesOf(tools)), request.toolName);
    if decision.allowed then
      && |ran| == 1 && ran[0].ToolCalled? && ran[0].request == request
      && Some(ran[0].tool) == FindIn(tools, request.toolName) && ran[0].tool.risk == ReadOnly
      && response == ResponseOf(request, ran[0].outcome)
    else
      ran == [] && response == DeniedResponse(request, decision.reason)
  }

  // The record comes after the tool and before the response: without a record there is no response.
  ghost predicate IsToolCall(tools: seq<Tool>, request: ToolRequest, actor: string, ran: seq<Effect>,
                             recorded: seq<Effect>, response: ToolResponse, outcome: Outcome<ToolResponse>)
  {
    var decision := DecisionOf(AllowedFrom(PoliciesOf(tools)), request.toolName);
    && IsRun(tools, request, ran, response)
    && IsTried(recorded, actor, ToolCall(request, decision, response)) && outcome == UnlessFailed(recorded, response)
  }

  // ---- What one question does ----

  // The effects of a question: the tool, its record, the record of the request to the model, the model, the record
  // of its response, and the record of a failure or of a skipped model.
  datatype Parts = Parts(ran: seq<Effect>, recorded: seq<Effect>, requested: seq<Effect>, answered: seq<Effect>,
                         responded: seq<Effect>, concluded: seq<Effect>)
  {
    function After(): seq<Effect> {
      requested + answered + (responded + concluded)
    }

    function Effects(): seq<Effect> {
      ran + recorded + After()
    }
  }

  datatype Question = Question(prompt: string, request: ToolRequest, actor: string)

  ghost predicate IsErrorPart(q: Question, evidence: seq<Evidence>, error: string, concluded: seq<Effect>,
                              outcome: Outcome<AskResult>)
  {
    && IsTried(concluded, q.actor, ModelError(q.prompt, q.request, error, evidence))
    && outcome == UnlessFailed(concluded, AskResult(false, "", error))
  }

  // The append of model.response stands inside the try: when it fails, its failure is the error.
  ghost predicate IsConclusion(q: Question, evidence: seq<Evidence>, answer: Outcome<string>, responded: seq<Effect>,
                               concluded: seq<Effect>, outcome: Outcome<AskResult>)
  {
    match answer
    case Returned(text) =>
      && IsTried(responded, q.actor, ModelResponse(q.request, text))
      && if FailureOf(responded).None? then concluded == [] && outcome == Returned(AskResult(true, text, ""))
         else IsErrorPart(q, evidence, FailureOf(responded).value, concluded, outcome)
    case Threw(message) => responded == [] && IsErrorPart(q, evidence, message, concluded, outcome)
    case ThrewOther =>
      responded == [] && IsErrorPart(q, evidence, "model failed with unknown exception", concluded, outcome)
  }

  // After an Ok tool call.
  ghost predicate IsModelPart(q: Question, evidence: seq<Evidence>, parts: Parts, outcome: Outcome<AskResult>) {
    && IsTried(parts.requested, q.actor, ModelRequest(q.prompt, q.request, evidence))
    && if FailureOf(parts.requested).Some? then
         && parts.answered == [] && parts.responded == [] && parts.concluded == []
         && outcome == Threw(FailureOf(parts.requested).value)
       else
         && |parts.answered| == 1 && parts.answered[0].ModelCalled?
         && parts.answered[0].prompt == q.prompt && parts.answered[0].evidence == evidence
         && IsConclusion(q, evidence, parts.answered[0].answer, parts.responded, parts.concluded, outcome)
  }

  // After any other tool call the model is skipped.
  ghost predicate IsSkipPart(q: Question, response: ToolResponse, concluded: seq<Effect>, outcome: Outcome<AskResult>) {
    && IsTried(concluded, q.actor, ModelSkipped(q.prompt, q.request, response))
    && outcome ==
       UnlessFailed(concluded, AskResult(false, "", "tool call did not succeed: " + response.message))
  }

  ghost predicate IsAfter(q: Question, parts: Parts, called: Outcome<ToolResponse>, outcome: Outcome<AskResult>) {
    if called.Returned? && called.value.status == Ok then IsModelPart(q, called.value.evidence, parts, outcome)
    else
      && parts.requested == [] && parts.answered == [] && parts.responded == []
      && match called {
           case Returned(response) => IsSkipPart(q, response, parts.concluded, outcome)
           case Threw(message) => parts.concluded == [] && outcome == Threw(message)
           case ThrewOther => false
         }
  }

  ghost predicate IsAsk(tools: seq<Tool>, q: Question, parts: Parts, response: ToolResponse,
                        called: Outcome<ToolResponse>, outcome: Outcome<AskResult>)
  {
    && IsToolCall(tools, q.request, q.actor, parts.ran, parts.recorded, response, called)
    && IsAfter(q, parts, called, outcome)
  }

  class SessionService {
    const registry: ToolRegistry
    const policy: PolicyBroker
    const world: World

    // The policy was made from the registry as it is.
    ghost predicate Valid()
      reads this, registry, policy
    {
      registry.Valid() && policy.allowedTools == AllowedFrom(PoliciesOf(registry.tools))
    }

    constructor (registry: ToolRegistry, policy: PolicyBroker, world: World)
      requires registry.Valid() && policy.allowedTools == AllowedFrom(PoliciesOf(registry.tools))
      ensures Valid() && this.registry == registry && this.policy == policy && this.world == world
    {
      this.registry, this.policy, this.world := registry, policy, world;
    }

    method ListTools() returns (names: seq<string>)
      ensures names == NamesOf(registry.tools)
    {
      names := registry.Names();
    }

    method CallTool(request: ToolRequest, actor: string)
      returns (outcome: Outcome<ToolResponse>, ghost ran: seq<Effect>, ghost recorded: seq<Effect>,
               ghost made: ToolResponse)
      requires Valid()
      requires world.Valid()
      modifies world
      ensures world.Valid()
      ensures world.trace == old(world.trace) + (ran + recorded)
      ensures IsToolCall(registry.tools, request, actor, ran, recorded, made, outcome)
    {
      AllowedIffReadOnlyTool(registry.tools, request);
      ran, recorded := [], [];
      var decision := policy.Decide(request);
      var response;
      if !decision.allowed {
        response := DeniedResponse(request, decision.reason);
      } else {
        var tool := registry.Find(request.toolName);
        if tool.None? {
          assert false; // an allowed tool is registered
        } else {
          var answer := world.CallTool(tool.value, request);
          ran := [ToolCalled(tool.value, request, answer)];
          response := ResponseOf(request, answer);
        }
      }
      made := response;
      var failure;
      failure, recorded := world.Append(actor, ToolCall(request, decision, response));
      if failure.Some? {
        return Threw(failure.value), ran, recorded, made;
      }
      return Returned(response), ran, recorded, made;
    }

    // The try and its two catches.
    method AskModel(q: Question, evidence: seq<Evidence>, ghost ran: seq<Effect>, ghost recorded: seq<Effect>)
      returns (outcome: Outcome<AskResult>, ghost parts: Parts)
      requires world.Valid()
      modifies world
      ensures world.Valid() && world.trace == old(world.trace) + parts.After()
      ensures parts.ran == ran && parts.recorded == recorded && IsModelPart(q, evidence, parts, outcome)
    {
      var failure;
      ghost var requested;
      failure, requested := world.Append(q.actor, ModelRequest(q.prompt, q.request, evidence));
      parts := Parts(ran, recorded, requested, [], [], []);
      if failure.Some? {
        return Threw(failure.value), parts;
      }
      var answer := world.Complete(q.prompt, evidence);
      parts := parts.(answered := [ModelCalled(q.prompt, evidence, answer)]);
      ghost var responded, concluded;
      outcome, responded, concluded := Conclude(q, evidence, answer);
      parts := parts.(responded := responded, concluded := concluded);
    }

    method Conclude(q: Question, evidence: seq<Evidence>, answer: Outcome<string>)
      returns (outcome: Outcome<AskResult>, ghost responded: seq<Effect>, ghost concluded: seq<Effect>)
      requires world.Valid()
      modifies world
      ensures world.Valid() && world.trace == old(world.trace) + (responded + concluded)
      ensures IsConclusion(q, evidence, answer, responded, concluded, outcome)
    {
      responded, concluded := [], [];
      var error := "model failed with unknown exception";
      if answer.Returned? {
        var unrecorded;
        unrecorded, responded := world.Append(q.actor, ModelResponse(q.request, answer.value));
        if unrecorded.None? {
          assert responded + [] == responded;
          return Returned(AskResult(true, answer.value, "")), responded, concluded;
        }
        error := unrecorded.value;
      } else if answer.Threw? {
        error := answer.message;
      }
      var failure;
      failure, concluded := world.Append(q.actor, ModelError(q.prompt, q.request, error, evidence));
      assert [] + concluded == concluded;
      outcome := if failure.Some? then Threw(failure.value) else Returned(AskResult(false, "", error));
    }

    method SkipModel(q: Question, response: ToolResponse)
      returns (outcome: Outcome<AskResult>, ghost concluded: seq<Effect>)
      requires world.Valid()
      modifies world
      ensures world.Valid() && world.trace == old(world.trace) + concluded
      ensures IsSkipPart(q, response, concluded, outcome)
    {
      var failure;
      failure, concluded := world.Append(q.actor, ModelSkipped(q.prompt, q.request, response));
      if failure.Some? {
        return Threw(failure.value), concluded;
      }
      return Returned(AskResult(false, "", "tool call did not succeed: " + response.message)), concluded;
    }

    method AskWithTool(prompt: string, request: ToolRequest, actor: string)
      returns (outcome: Outcome<AskResult>, ghost parts: Parts, ghost response: ToolResponse,
               ghost called: Outcome<ToolResponse>)
      requires Valid() && world.Valid()
      modifies world
      ensures world.Valid() && world.trace == old(world.trace) + parts.Effects()
      ensures IsAsk(registry.tools, Question(prompt, request, actor), parts, response, called, outcome)
    {
      var toolResponse;
      ghost var ran, recorded, before := [], [], world.trace;
      toolResponse, ran, recorded, response := CallTool(request, actor);
      called := toolResponse;
      outcome, parts := AskAfter(Question(prompt, request, actor), toolResponse, ran, recorded);
      Associate(before, ran + recorded, parts.After());
    }

    // What follows the tool call, whatever came of it.
    method AskAfter(q: Question, called: Outcome<ToolResponse>, ghost ran: seq<Effect>, ghost recorded: seq<Effect>)
      returns (outcome: Outcome<AskResult>, ghost parts: Parts)
      requires world.Valid() && !called.ThrewOther?
      modifies world
      ensures world.Valid() && world.trace == old(world.trace) + parts.After()
      ensures parts.ran == ran && parts.recorded == recorded && IsAfter(q, parts, called, outcome)
    {
      parts := Parts(ran, recorded, [], [], [], []);
      if !called.Returned? {
        outcome := Threw(called.message);
      } else if called.value.status != Ok {
        ghost var concluded;
        outcome, concluded := SkipModel(q, called.value);
        parts := parts.(concluded := concluded);
        assert parts.After() == concluded;
      } else {
        outcome, parts := AskModel(q, called.value.evidence, ran, recorded);
      }
    }
  }
}
