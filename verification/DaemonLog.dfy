/** What a request leaves in the audit log, whatever fails on the way: the block of the request, or a first part of
  * it, and then at most one protocol error. In the file there may be one record more, when a record stayed there
  * although its append failed.
  */
module DaemonLog {
  import opened CoreTypes
  import opened Daemon
  import opened Registry
  import opened Session
  import opened SessionProperties
  import opened Splitting

  const ANSWERED := ["tool.call", "model.request", "model.response"]

  // What one request may add to the log: a block or a part of one, then at most one protocol error.
  predicate IsRequestPart(types: seq<string>) {
    || IsBlock(types)
    || (types != [] && types[|types| - 1] == "protocol.error" && IsBlock(types[..|types| - 1]))
  }

  lemma BlockTypes(tools: seq<Tool>, input: Input, c: Called, h: Handling, outcome: Outcome<Reply>)
    requires IsTry(tools, input, c, h, outcome)
    ensures IsBlock(TypesOf(h.block)) && TypesOf(h.written) == []
    ensures TypesOf(h.errors) == if input.UnknownMethod? && outcome.Returned? then ["protocol.error"] else []
    ensures outcome.Returned? && outcome.value.AskReply? && outcome.value.result.ok ==> TypesOf(h.block) == ANSWERED
  {
    if h.written != [] {
      TypesOfOne(h.written);
    }
    match input
    case CallTool(_, request) =>
      ToolCallTypes(tools, request, ACTOR, c.ran, c.recorded, c.made, c.response);
    case Ask(_, prompt, request) =>
      AskTypes(tools, Question(prompt, request, ACTOR), c.parts, c.made, c.response, c.result);
      if c.result.Returned? && c.result.value.ok {
        AskAnswered(TypesOf(h.block), c.made.status, c.result);
      }
    case UnknownMethod(id) =>
      TypesOfTried(h.errors, ACTOR, ProtocolError(id, "unknown method"));
    case _ =>
  }

  lemma AskAnswered(types: seq<string>, status: ToolStatus, result: Outcome<AskResult>)
    requires result.Returned? && result.value.ok && types != [] && types[0] == "tool.call"
    requires AreAfterTypes(types[1..], status, result)
    ensures types == ANSWERED
  {
    assert types == [types[0]] + types[1..];
  }

  lemma CaughtTypes(tools: seq<Tool>, input: Input, c: Called, h: Handling, tried: Outcome<Reply>,
                    outcome: Outcome<Reply>)
    requires IsHandled(tools, input, c, h, tried, outcome)
    ensures TypesOf(h.answered) == []
    ensures TypesOf(h.caught) == [] || (tried.Threw? && TypesOf(h.caught) == ["protocol.error"])
    ensures tried.Threw? && outcome.Returned? ==> outcome.value.ErrorReply? && TypesOf(h.caught) == ["protocol.error"]
  {
    if tried.Threw? {
      TypesOfTried(h.caught, ACTOR, ProtocolError(input.id, tried.message));
      if h.answered != [] {
        TypesOfOne(h.answered);
      }
    }
  }

  lemma HandledTypes(tools: seq<Tool>, input: Input, c: Called, h: Handling, tried: Outcome<Reply>,
                     outcome: Outcome<Reply>)
    requires IsHandled(tools, input, c, h, tried, outcome)
    ensures TypesOf(h.Effects()) == TypesOf(h.block) + (TypesOf(h.errors) + TypesOf(h.caught))
    ensures TypesOf(h.errors) == [] || TypesOf(h.caught) == []
  {
    BlockTypes(tools, input, c, h, tried);
    CaughtTypes(tools, input, c, h, tried, outcome);
    TypesAppend(h.Tried(), h.caught + h.answered);
    TypesAppend(h.block, h.errors + h.written);
    TypesAppend(h.errors, h.written);
    TypesAppend(h.caught, h.answered);
    assert TypesOf(h.errors) + [] == TypesOf(h.errors) && TypesOf(h.caught) + [] == TypesOf(h.caught);
    Associate(TypesOf(h.block), TypesOf(h.errors), TypesOf(h.caught));
  }

  lemma BlockThenError(block: seq<string>, errors: seq<string>)
    requires IsBlock(block) && (errors == [] || errors == ["protocol.error"])
    ensures IsRequestPart(block + errors)
  {
    if errors == [] {
      assert block + errors == block;
    } else {
      assert (block + errors)[..|block|] == block;
    }
  }

  // The audit grammar of a request.
  lemma RequestAddsOnePart(tools: seq<Tool>, input: Input, c: Called, h: Handling, tried: Outcome<Reply>,
                           outcome: Outcome<Reply>)
    requires IsHandled(tools, input, c, h, tried, outcome)
    ensures IsRequestPart(TypesOf(h.Effects()))
  {
    BlockTypes(tools, input, c, h, tried);
    CaughtTypes(tools, input, c, h, tried, outcome);
    HandledTypes(tools, input, c, h, tried, outcome);
    var errors := TypesOf(h.errors) + TypesOf(h.caught);
    assert errors == TypesOf(h.errors) || errors == TypesOf(h.caught);
    BlockThenError(TypesOf(h.block), errors);
  }

  lemma RefusalIsLogged(tools: seq<Tool>, input: Input, c: Called, h: Handling, tried: Outcome<Reply>,
                        outcome: Outcome<Reply>)
    requires IsHandled(tools, input, c, h, tried, outcome) && outcome.Returned? && outcome.value.ErrorReply?
    ensures TypesOf(h.errors) + TypesOf(h.caught) == ["protocol.error"]
  {
    BlockTypes(tools, input, c, h, tried);
    CaughtTypes(tools, input, c, h, tried, outcome);
  }

  lemma NoErrorIsLogged(tools: seq<Tool>, input: Input, c: Called, h: Handling, tried: Outcome<Reply>,
                        outcome: Outcome<Reply>)
    requires IsHandled(tools, input, c, h, tried, outcome) && outcome.Returned? && !outcome.value.ErrorReply?
    ensures outcome == tried && TypesOf(h.errors) + TypesOf(h.caught) == []
    ensures outcome.value.ToolReply? ==> TypesOf(h.block) == ["tool.call"]
    ensures outcome.value.ListReply? ==> TypesOf(h.block) == []
  {
    CaughtTypes(tools, input, c, h, tried, outcome);
    BlockTypes(tools, input, c, h, tried);
    if input.CallTool? {
      ToolCallTypes(tools, input.tool, ACTOR, c.ran, c.recorded, c.made, c.response);
    }
  }

  // What the client can tell about the log from its answer.
  lemma AnswerTellsLog(tools: seq<Tool>, input: Input, c: Called, h: Handling, tried: Outcome<Reply>,
                       outcome: Outcome<Reply>)
    requires IsHandled(tools, input, c, h, tried, outcome) && outcome.Returned?
    ensures var types := TypesOf(h.Effects());
            && (outcome.value.ErrorReply? ==> types != [] && types[|types| - 1] == "protocol.error")
            && (outcome.value.AskReply? && outcome.value.result.ok ==> types == ANSWERED)
            && (outcome.value.ToolReply? ==> types == ["tool.call"])
            && (outcome.value.ListReply? ==> types == [])
  {
    HandledTypes(tools, input, c, h, tried, outcome);
    if outcome.value.ErrorReply? {
      RefusalIsLogged(tools, input, c, h, tried, outcome);
    } else {
      NoErrorIsLogged(tools, input, c, h, tried, outcome);
      BlockTypes(tools, input, c, h, tried);
      assert TypesOf(h.block) + [] == TypesOf(h.block);
    }
  }

  // ---- Who the records name ----

  predicate AreBy(actor: string, effects: seq<Effect>) {
    forall e :: e in effects && e.IsAttempt() ==> e.event.actor == actor
  }

  lemma AreByAppend(actor: string, effects: seq<Effect>, more: seq<Effect>)
    requires AreBy(actor, effects) && AreBy(actor, more)
    ensures AreBy(actor, effects + more)
  {
  }

  lemma PartsAreBy(actor: string, parts: Parts)
    requires AreBy(actor, parts.ran) && AreBy(actor, parts.recorded) && AreBy(actor, parts.requested)
    requires AreBy(actor, parts.answered) && AreBy(actor, parts.responded) && AreBy(actor, parts.concluded)
    ensures AreBy(actor, parts.Effects())
  {
    AreByAppend(actor, parts.ran, parts.recorded);
    AreByAppend(actor, parts.requested, parts.answered);
    AreByAppend(actor, parts.responded, parts.concluded);
    AreByAppend(actor, parts.requested + parts.answered, parts.responded + parts.concluded);
    AreByAppend(actor, parts.ran + parts.recorded, parts.After());
  }

  lemma AskIsBy(tools: seq<Tool>, q: Question, parts: Parts, response: ToolResponse, called: Outcome<ToolResponse>,
                outcome: Outcome<AskResult>)
    requires IsAsk(tools, q, parts, response, called, outcome)
    ensures AreBy(q.actor, parts.Effects())
  {
    AfterIsBy(q, parts, called, outcome);
    PartsAreBy(q.actor, parts);
  }

  lemma AfterIsBy(q: Question, parts: Parts, called: Outcome<ToolResponse>, outcome: Outcome<AskResult>)
    requires IsAfter(q, parts, called, outcome)
    ensures AreBy(q.actor, parts.requested) && AreBy(q.actor, parts.answered)
    ensures AreBy(q.actor, parts.responded) && AreBy(q.actor, parts.concluded)
  {
  }

  lemma BlockIsBy(tools: seq<Tool>, input: Input, c: Called, h: Handling, tried: Outcome<Reply>)
    requires IsTry(tools, input, c, h, tried)
    ensures AreBy(ACTOR, h.block)
  {
    match input
    case CallTool(_, _) => AreByAppend(ACTOR, c.ran, c.recorded);
    case Ask(_, prompt, request) =>
      AskIsBy(tools, Question(prompt, request, ACTOR), c.parts, c.made, c.response, c.result);
    case _ =>
  }

  lemma TriedIsBy(effects: seq<Effect>, actor: string, details: Details)
    requires IsTried(effects, actor, details)
    ensures AreBy(actor, effects)
  {
  }

  // At most one reply, and nothing else.
  predicate IsReplyOrNothing(effects: seq<Effect>) {
    effects == [] || (|effects| == 1 && effects[0].Written?)
  }

  lemma ErrorsAreBy(tools: seq<Tool>, input: Input, c: Called, h: Handling, tried: Outcome<Reply>)
    requires IsTry(tools, input, c, h, tried)
    ensures IsReplyOrNothing(h.written) && AreBy(ACTOR, h.errors)
  {
    if input.UnknownMethod? {
      TriedIsBy(h.errors, ACTOR, ProtocolError(input.id, "unknown method"));
    }
  }

  lemma CaughtIsBy(id: string, message: string, h: Handling, outcome: Outcome<Reply>)
    requires IsCatch(id, message, h, outcome)
    ensures IsReplyOrNothing(h.answered) && AreBy(ACTOR, h.caught)
  {
    TriedIsBy(h.caught, ACTOR, ProtocolError(id, message));
  }

  lemma RestIsBy(tools: seq<Tool>, input: Input, c: Called, h: Handling, tried: Outcome<Reply>,
                 outcome: Outcome<Reply>)
    requires IsHandled(tools, input, c, h, tried, outcome)
    ensures IsReplyOrNothing(h.written) && IsReplyOrNothing(h.answered)
    ensures AreBy(ACTOR, h.errors) && AreBy(ACTOR, h.caught)
  {
    ErrorsAreBy(tools, input, c, h, tried);
    if tried.Threw? {
      CaughtIsBy(input.id, tried.message, h, outcome);
    }
  }

  lemma HandlingIsBy(actor: string, h: Handling)
    requires AreBy(actor, h.block) && AreBy(actor, h.errors) && AreBy(actor, h.caught)
    requires IsReplyOrNothing(h.written) && IsReplyOrNothing(h.answered)
    ensures AreBy(actor, h.Effects())
  {
    AreByAppend(actor, h.errors, h.written);
    AreByAppend(actor, h.block, h.errors + h.written);
    AreByAppend(actor, h.caught, h.answered);
    AreByAppend(actor, h.Tried(), h.caught + h.answered);
  }

  // Every record that a request tries to append is by the daemon's one actor.
  lemma RequestIsByActor(tools: seq<Tool>, input: Input, c: Called, h: Handling, tried: Outcome<Reply>,
                         outcome: Outcome<Reply>)
    requires IsHandled(tools, input, c, h, tried, outcome)
    ensures AreBy(ACTOR, h.Effects())
  {
    BlockIsBy(tools, input, c, h, tried);
    RestIsBy(tools, input, c, h, tried, outcome);
    HandlingIsBy(ACTOR, h);
  }

  // ---- Runs ----

  function Flatten<T>(parts: seq<seq<T>>): seq<T> {
    if parts == [] then [] else Flatten(parts[..|parts| - 1]) + parts[|parts| - 1]
  }

  lemma FlattenNext<T>(parts: seq<seq<T>>, part: seq<T>)
    ensures Flatten(parts + [part]) == Flatten(parts) + part
  {
    assert (parts + [part])[..|parts|] == parts;
  }
}
