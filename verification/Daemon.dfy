/** The daemon answers a request: it reads it, asks the session, writes the reply, and turns whatever was thrown on
  * the way into a protocol error.
  */
module Daemon {
  import opened CoreTypes
  import opened Registry
  import opened Session
  import opened Splitting

  const ACTOR := "cli"

  // A line of input, once its JSON was read. Invalid stands for everything that throws before the session is
  // asked: no JSON, no id, no method, no tool or prompt of the right form.
  datatype Input =
    | Invalid(id: string, error: string)
    | ListTools(id: string)
    | CallTool(id: string, tool: ToolRequest)
    | Ask(id: string, prompt: string, tool: ToolRequest)
    | UnknownMethod(id: string)

  // ---- What one request does ----

  // The session's part of a request.
  datatype Called =
    | NotCalled
    | CalledTool(ran: seq<Effect>, recorded: seq<Effect>, made: ToolResponse, response: Outcome<ToolResponse>)
    | CalledModel(parts: Parts, made: ToolResponse, response: Outcome<ToolResponse>, result: Outcome<AskResult>)

  // The effects of the try and of the catch.
  datatype Handling = Handling(block: seq<Effect>, errors: seq<Effect>, written: seq<Effect>,
                               caught: seq<Effect>, answered: seq<Effect>)
  {
    function Tried(): seq<Effect> {
      block + (errors + written)
    }

    function Effects(): seq<Effect> {
      block + (errors + written) + (caught + answered)
    }
  }

  // One reply written as JSON, which may have thrown.
  ghost predicate IsReply(written: seq<Effect>, reply: Reply, outcome: Outcome<Reply>) {
    && |written| == 1 && written[0].Written? && written[0].reply == reply
    && outcome == if written[0].failure.None? then Returned(reply) else Threw(written[0].failure.value)
  }

  ghost predicate IsToolRequest(tools: seq<Tool>, id: string, request: ToolRequest, c: Called, h: Handling,
                                outcome: Outcome<Reply>)
  {
    && c.CalledTool? && IsToolCall(tools, request, ACTOR, c.ran, c.recorded, c.made, c.response)
    && h.block == c.ran + c.recorded && h.errors == []
    && match c.response {
         case Returned(response) => IsReply(h.written, ToolReply(id, response), outcome)
         case Threw(message) => h.written == [] && outcome == Threw(message)
         case ThrewOther => false
       }
  }

  ghost predicate IsAskRequest(tools: seq<Tool>, id: string, q: Question, c: Called, h: Handling,
                               outcome: Outcome<Reply>)
  {
    && c.CalledModel? && IsAsk(tools, q, c.parts, c.made, c.response, c.result)
    && h.block == c.parts.Effects() && h.errors == []
    && match c.result {
         case Returned(result) => IsReply(h.written, AskReply(id, result), outcome)
         case Threw(message) => h.written == [] && outcome == Threw(message)
         case ThrewOther => false
       }
  }

  // The id came out of JSON text, so the reply to an unknown method can be written as JSON again.
  ghost predicate IsUnknownMethod(id: string, h: Handling, outcome: Outcome<Reply>) {
    && h.block == [] && h.written == [] && IsTried(h.errors, ACTOR, ProtocolError(id, "unknown method"))
    && outcome == UnlessFailed(h.errors, ErrorReply(id, "unknown method"))
  }

  ghost predicate IsTry(tools: seq<Tool>, input: Input, c: Called, h: Handling, outcome: Outcome<Reply>) {
    match input
    case Invalid(_, error) => h.block == [] && h.errors == [] && h.written == [] && outcome == Threw(error)
    case ListTools(id) => h.block == [] && h.errors == [] && IsReply(h.written, ListReply(id, NamesOf(tools)), outcome)
    case CallTool(id, request) => IsToolRequest(tools, id, request, c, h, outcome)
    case Ask(id, prompt, request) => IsAskRequest(tools, id, Question(prompt, request, ACTOR), c, h, outcome)
    case UnknownMethod(id) => IsUnknownMethod(id, h, outcome)
  }

  // The catch: it records and answers; when that throws too, there is no answer.
  ghost predicate IsCatch(id: string, message: string, h: Handling, outcome: Outcome<Reply>) {
    && IsTried(h.caught, ACTOR, ProtocolError(id, message))
    && if FailureOf(h.caught).Some? then h.answered == [] && outcome == Threw(FailureOf(h.caught).value)
       else IsReply(h.answered, ErrorReply(id, message), outcome)
  }

  ghost predicate IsHandled(tools: seq<Tool>, input: Input, c: Called, h: Handling, tried: Outcome<Reply>,
                            outcome: Outcome<Reply>)
  {
    && IsTry(tools, input, c, h, tried)
    && match tried {
         case Returned(_) => h.caught == [] && h.answered == [] && outcome == tried
         case Threw(message) => IsCatch(input.id, message, h, outcome)
         case ThrewOther => false
       }
  }

  method Write(world: World, reply: Reply) returns (outcome: Outcome<Reply>, ghost written: seq<Effect>)
    requires world.Valid()
    modifies world
    ensures world.Valid() && world.trace == old(world.trace) + written && IsReply(written, reply, outcome)
  {
    var failure := world.Dump(reply);
    written := [Written(reply, failure)];
    outcome := if failure.Some? then Threw(failure.value) else Returned(reply);
  }

  method TryTool(id: string, request: ToolRequest, service: SessionService)
    returns (outcome: Outcome<Reply>, ghost c: Called, ghost h: Handling)
    requires service.Valid() && service.world.Valid()
    modifies service.world
    ensures service.world.Valid() && service.world.trace == old(service.world.trace) + h.Tried()
    ensures IsToolRequest(service.registry.tools, id, request, c, h, outcome) && h.caught == [] && h.answered == []
  {
    ghost var before, ran, recorded, made, written := service.world.trace, [], [], ErrorResponse(request, ""), [];
    var response;
    response, ran, recorded, made := service.CallTool(request, ACTOR);
    if response.Returned? {
      outcome, written := Write(service.world, ToolReply(id, response.value));
    } else {
      outcome := Threw(response.message);
    }
    c, h := CalledTool(ran, recorded, made, response), Handling(ran + recorded, [], written, [], []);
    TriedIs(before, h);
  }

  lemma TriedIs(before: seq<Effect>, h: Handling)
    requires h.errors == []
    ensures before + h.Tried() == before + h.block + h.written
    ensures h.written == [] ==> before + h.Tried() == before + h.block
  {
    assert [] + h.written == h.written;
  }

  method TryAsk(id: string, prompt: string, request: ToolRequest, service: SessionService)
    returns (outcome: Outcome<Reply>, ghost c: Called, ghost h: Handling)
    requires service.Valid() && service.world.Valid()
    modifies service.world
    ensures service.world.Valid() && service.world.trace == old(service.world.trace) + h.Tried()
    ensures IsAskRequest(service.registry.tools, id, Question(prompt, request, ACTOR), c, h, outcome)
    ensures h.caught == [] && h.answered == []
  {
    ghost var before, written := service.world.trace, [];
    ghost var parts, made, called;
    var result;
    result, parts, made, called := service.AskWithTool(prompt, request, ACTOR);
    if result.Returned? {
      outcome, written := Write(service.world, AskReply(id, result.value));
    } else {
      assert result.Threw?;
      outcome := Threw(result.message);
    }
    ghost var block := parts.Effects();
    c, h := CalledModel(parts, made, called, result), Handling(block, [], written, [], []);
    TriedIs(before, h);
  }

  // The body of the try.
  method TryRequest(input: Input, service: SessionService)
    returns (outcome: Outcome<Reply>, ghost c: Called, ghost h: Handling)
    requires service.Valid() && service.world.Valid()
    modifies service.world
    ensures service.world.Valid() && service.world.trace == old(service.world.trace) + h.Tried()
    ensures IsTry(service.registry.tools, input, c, h, outcome) && h.caught == [] && h.answered == []
  {
    c, h := NotCalled, Handling([], [], [], [], []);
    match input {
      case Invalid(_, error) =>
        outcome := Threw(error);
      case ListTools(id) =>
        var names := service.ListTools();
        ghost var written;
        outcome, written := Write(service.world, ListReply(id, names));
        h := h.(written := written);
        assert h.Tried() == written;
      case CallTool(id, request) =>
        outcome, c, h := TryTool(id, request, service);
      case Ask(id, prompt, request) =>
        outcome, c, h := TryAsk(id, prompt, request, service);
      case UnknownMethod(id) =>
        var failure;
        ghost var errors;
        failure, errors := service.world.Append(ACTOR, ProtocolError(id, "unknown method"));
        h := h.(errors := errors);
        assert h.Tried() == errors;
        outcome := if failure.Some? then Threw(failure.value) else Returned(ErrorReply(id, "unknown method"));
    }
  }

  method Catch(world: World, id: string, message: string, ghost tried: Handling)
    returns (outcome: Outcome<Reply>, ghost h: Handling)
    requires world.Valid()
    modifies world
    ensures world.Valid() && world.trace == old(world.trace) + (h.caught + h.answered)
    ensures h.block == tried.block && h.errors == tried.errors && h.written == tried.written
    ensures IsCatch(id, message, h, outcome)
  {
    ghost var before := world.trace;
    var failure;
    ghost var caught, answered;
    answered := [];
    failure, caught := world.Append(ACTOR, ProtocolError(id, message));
    if failure.Some? {
      outcome := Threw(failure.value);
    } else {
      outcome, answered := Write(world, ErrorReply(id, message));
    }
    h := tried.(caught := caught, answered := answered);
    Associate(before, caught, answered);
  }

  method HandleRequest(input: Input, service: SessionService)
    returns (outcome: Outcome<Reply>, ghost c: Called, ghost h: Handling, ghost tried: Outcome<Reply>)
    requires service.Valid() && service.world.Valid()
    modifies service.world
    ensures service.world.Valid() && service.world.trace == old(service.world.trace) + h.Effects()
    ensures IsHandled(service.registry.tools, input, c, h, tried, outcome)
  {
    ghost var before := service.world.trace;
    outcome, c, h := TryRequest(input, service);
    tried := outcome;
    NothingCaught(h);
    if outcome.Threw? {
      ghost var all := h;
      outcome, all := Catch(service.world, input.id, outcome.message, h);
      Associate(before, h.Tried(), all.caught + all.answered);
      SameTry(service.registry.tools, input, c, h, all, tried);
      h := all;
    } else {
      TryThrewNothingElse(service.registry.tools, input, c, h, tried);
    }
  }

  lemma NothingCaught(h: Handling)
    ensures h.caught == [] && h.answered == [] ==> h.Effects() == h.Tried()
  {
  }

  // The try is told by its own effects.
  lemma SameTry(tools: seq<Tool>, input: Input, c: Called, h: Handling, all: Handling, outcome: Outcome<Reply>)
    requires IsTry(tools, input, c, h, outcome)
    requires h.block == all.block && h.errors == all.errors && h.written == all.written
    ensures IsTry(tools, input, c, all, outcome)
  {
  }

  lemma TryThrewNothingElse(tools: seq<Tool>, input: Input, c: Called, h: Handling, outcome: Outcome<Reply>)
    requires IsTry(tools, input, c, h, outcome)
    ensures !outcome.ThrewOther?
  {
  }
}
