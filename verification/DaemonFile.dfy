/** What a request leaves in the audit file when a record may stay there although its append failed, as when only the
  * close of the file fails.
  */
module DaemonFile {
  import opened CoreTypes
  import opened Daemon
  import opened DaemonLog
  import opened Registry
  import opened Session
  import opened SessionProperties
  import opened Splitting

  // Which records stayed in the file as a whole, should their append have failed.
  type Stays = AuditEvent -> bool

  predicate IsOnFile(effect: Effect, stays: Stays) {
    effect.Appended? || (effect.NotAppended? && stays(effect.event))
  }

  // The types of the records in the file.
  function FileTypes(effects: seq<Effect>, stays: Stays): seq<string> {
    if effects == [] then []
    else (if IsOnFile(effects[0], stays) then [TypeOf(effects[0].event.details)] else []) +
         FileTypes(effects[1..], stays)
  }

  lemma {:induction false} FileTypesAppend(effects: seq<Effect>, more: seq<Effect>, stays: Stays)
    ensures FileTypes(effects + more, stays) == FileTypes(effects, stays) + FileTypes(more, stays)
  {
    if effects == [] {
      assert effects + more == more;
    } else {
      FileTypesAppend(effects[1..], more, stays);
      assert (effects + more)[1..] == effects[1..] + more;
      Associate(FileTypes([effects[0]], stays), FileTypes(effects[1..], stays), FileTypes(more, stays));
    }
  }

  // ---- One attempt ----

  predicate OnFile(effects: seq<Effect>, stays: Stays) {
    |effects| == 1 && IsOnFile(effects[0], stays)
  }

  // The append failed, and the record is there.
  predicate StayedBehind(effects: seq<Effect>, stays: Stays) {
    |effects| == 1 && effects[0].NotAppended? && stays(effects[0].event)
  }

  lemma TriedOnFile(effects: seq<Effect>, actor: string, details: Details, stays: Stays)
    requires IsTried(effects, actor, details)
    ensures FileTypes(effects, stays) == if OnFile(effects, stays) then [TypeOf(details)] else []
    ensures FailureOf(effects).None? ==> OnFile(effects, stays)
    ensures OnFile(effects, stays) ==> FailureOf(effects).None? || StayedBehind(effects, stays)
  {
    assert effects[1..] == [];
  }

  lemma NothingOnFile(effects: seq<Effect>, stays: Stays)
    requires |effects| <= 1 && (effects != [] ==> !effects[0].IsAttempt())
    ensures FileTypes(effects, stays) == []
  {
    if effects != [] {
      assert effects[1..] == [];
    }
  }

  // ---- A question ----

  // The types of the record of the tool call, of the request to the model, of its response, and of the conclusion.
  datatype Shown = Shown(recorded: seq<string>, requested: seq<string>, responded: seq<string>, concluded: seq<string>)
  {
    function All(): seq<string> {
      recorded + (requested + (responded + concluded))
    }

    predicate IsInOrder() {
      && (recorded == [] || recorded == ["tool.call"])
      && (requested == [] || (requested == ["model.request"] && recorded != []))
      && (responded == [] || (responded == ["model.response"] && requested != []))
      && match |concluded| {
           case 0 => true
           case _ =>
             || (concluded == ["model.skipped"] && recorded != [] && requested == [])
             || (concluded == ["model.error"] && requested != [])
         }
    }
  }

  function ShownOf(parts: Parts, stays: Stays): Shown {
    Shown(FileTypes(parts.recorded, stays), FileTypes(parts.requested, stays), FileTypes(parts.responded, stays),
          FileTypes(parts.concluded, stays))
  }

  const FAILED_ANSWER := ["tool.call", "model.request", "model.response", "model.error"]

  // An audit block, a first part of one, or the one in which the response stands before the error of its append.
  predicate IsFileBlock(types: seq<string>) {
    IsBlock(types) || types == FAILED_ANSWER
  }

  lemma BlockOnFile(shown: Shown)
    requires shown.IsInOrder()
    ensures IsFileBlock(shown.All())
    ensures IsBlock(shown.All()) <==> !(shown.responded != [] && shown.concluded != [])
    ensures shown.responded != [] && shown.concluded != [] ==> shown.All() == FAILED_ANSWER
  {
  }

  lemma PartsOnFile(parts: Parts, stays: Stays)
    requires |parts.ran| <= 1 && (parts.ran != [] ==> !parts.ran[0].IsAttempt())
    requires |parts.answered| <= 1 && (parts.answered != [] ==> !parts.answered[0].IsAttempt())
    ensures FileTypes(parts.Effects(), stays) == ShownOf(parts, stays).All()
  {
    NothingOnFile(parts.ran, stays);
    NothingOnFile(parts.answered, stays);
    FileTypesAppend(parts.ran + parts.recorded, parts.After(), stays);
    FileTypesAppend(parts.ran, parts.recorded, stays);
    FileTypesAppend(parts.requested + parts.answered, parts.responded + parts.concluded, stays);
    FileTypesAppend(parts.requested, parts.answered, stays);
    FileTypesAppend(parts.responded, parts.concluded, stays);
  }

  lemma ToolOnFile(tools: seq<Tool>, request: ToolRequest, actor: string, ran: seq<Effect>, recorded: seq<Effect>,
                   response: ToolResponse, outcome: Outcome<ToolResponse>, stays: Stays)
    requires IsToolCall(tools, request, actor, ran, recorded, response, outcome)
    ensures |ran| <= 1 && (ran != [] ==> !ran[0].IsAttempt())
    ensures FileTypes(recorded, stays) == if OnFile(recorded, stays) then ["tool.call"] else []
    ensures outcome.Returned? ==> OnFile(recorded, stays)
  {
    TriedOnFile(recorded, actor,
                ToolCall(request, DecisionOf(AllowedFrom(PoliciesOf(tools)), request.toolName), response), stays);
  }

  lemma ConclusionOnFile(q: Question, evidence: seq<Evidence>, answer: Outcome<string>, responded: seq<Effect>,
                         concluded: seq<Effect>, outcome: Outcome<AskResult>, stays: Stays)
    requires IsConclusion(q, evidence, answer, responded, concluded, outcome)
    ensures FileTypes(responded, stays) == [] || FileTypes(responded, stays) == ["model.response"]
    ensures FileTypes(concluded, stays) == [] || FileTypes(concluded, stays) == ["model.error"]
    ensures FileTypes(responded, stays) != [] && FileTypes(concluded, stays) != [] <==>
            StayedBehind(responded, stays) && OnFile(concluded, stays)
  {
    if answer.Returned? {
      TriedOnFile(responded, q.actor, ModelResponse(q.request, answer.value), stays);
    }
    if concluded != [] {
      TriedOnFile(concluded, q.actor, concluded[0].event.details, stays);
    }
  }

  lemma AskOnFile(tools: seq<Tool>, q: Question, parts: Parts, response: ToolResponse, called: Outcome<ToolResponse>,
                  outcome: Outcome<AskResult>, stays: Stays)
    requires IsAsk(tools, q, parts, response, called, outcome)
    ensures FileTypes(parts.Effects(), stays) == ShownOf(parts, stays).All() && ShownOf(parts, stays).IsInOrder()
    ensures ShownOf(parts, stays).responded != [] && ShownOf(parts, stays).concluded != [] <==>
            StayedBehind(parts.responded, stays) && OnFile(parts.concluded, stays)
  {
    ToolOnFile(tools, q.request, q.actor, parts.ran, parts.recorded, response, called, stays);
    AfterOnFile(q, parts, called, outcome, stays);
    PartsOnFile(parts, stays);
  }

  lemma AfterOnFile(q: Question, parts: Parts, called: Outcome<ToolResponse>, outcome: Outcome<AskResult>,
                    stays: Stays)
    requires IsAfter(q, parts, called, outcome)
    requires FileTypes(parts.recorded, stays) == [] || FileTypes(parts.recorded, stays) == ["tool.call"]
    requires called.Returned? ==> FileTypes(parts.recorded, stays) != []
    ensures |parts.answered| <= 1 && (parts.answered != [] ==> !parts.answered[0].IsAttempt())
    ensures ShownOf(parts, stays).IsInOrder()
    ensures ShownOf(parts, stays).responded != [] && ShownOf(parts, stays).concluded != [] <==>
            StayedBehind(parts.responded, stays) && OnFile(parts.concluded, stays)
  {
    if called.Returned? && called.value.status == Ok {
      TriedOnFile(parts.requested, q.actor, ModelRequest(q.prompt, q.request, called.value.evidence), stays);
      if parts.answered != [] {
        ConclusionOnFile(q, called.value.evidence, parts.answered[0].answer, parts.responded, parts.concluded,
                         outcome, stays);
      }
    } else if called.Returned? {
      TriedOnFile(parts.concluded, q.actor, ModelSkipped(q.prompt, q.request, called.value), stays);
    }
  }

  // ---- A request ----

  // A block and then at most one protocol error, or two protocol errors and no block.
  predicate IsFilePart(types: seq<string>) {
    || IsFileBlock(types)
    || (types != [] && types[|types| - 1] == "protocol.error" && IsFileBlock(types[..|types| - 1]))
    || types == ["protocol.error", "protocol.error"]
  }

  // A record stayed although its append failed, and the record of that failure is there too: the response of the
  // model before its error, or the error for an unknown method twice.
  predicate IsRecordedTwice(input: Input, c: Called, h: Handling, stays: Stays) {
    || (input.Ask? && c.CalledModel? && StayedBehind(c.parts.responded, stays) && OnFile(c.parts.concluded, stays))
    || (input.UnknownMethod? && StayedBehind(h.errors, stays) && OnFile(h.caught, stays))
  }

  lemma BlockHasNoError(types: seq<string>)
    requires IsFileBlock(types)
    ensures forall i :: 0 <= i < |types| ==> types[i] != "protocol.error"
  {
  }

  lemma ErrorIsNoBlock(types: seq<string>)
    requires types != [] && types[|types| - 1] == "protocol.error"
    ensures !IsFileBlock(types)
  {
    if IsFileBlock(types) {
      BlockHasNoError(types);
    }
  }

  lemma PartOnFile(block: seq<string>, errors: seq<string>)
    requires IsFileBlock(block)
    requires errors == [] || errors == ["protocol.error"] ||
             (errors == ["protocol.error", "protocol.error"] && block == [])
    ensures IsFilePart(block + errors)
    ensures IsRequestPart(block + errors) <==> IsBlock(block) && |errors| <= 1
  {
    var types := block + errors;
    BlockHasNoError(block);
    if errors == [] {
      assert types == block;
    } else {
      ErrorIsNoBlock(types);
      assert |errors| == 1 ==> types[..|types| - 1] == block;
      assert |errors| == 2 ==> types == errors && types[..1] == ["protocol.error"];
      ErrorIsNoBlock(["protocol.error"]);
    }
  }

  // The types of the records of a request are those of its block, of its refusal and of its catch.
  lemma HandlingOnFile(h: Handling, stays: Stays)
    requires IsReplyOrNothing(h.written) && IsReplyOrNothing(h.answered)
    ensures FileTypes(h.Effects(), stays) ==
            FileTypes(h.block, stays) + (FileTypes(h.errors, stays) + FileTypes(h.caught, stays))
  {
    NothingOnFile(h.written, stays);
    NothingOnFile(h.answered, stays);
    FileTypesAppend(h.Tried(), h.caught + h.answered, stays);
    FileTypesAppend(h.block, h.errors + h.written, stays);
    FileTypesAppend(h.errors, h.written, stays);
    FileTypesAppend(h.caught, h.answered, stays);
    var block, errors, caught := FileTypes(h.block, stays), FileTypes(h.errors, stays), FileTypes(h.caught, stays);
    assert errors + [] == errors && caught + [] == caught;
    Associate(block, errors, caught);
  }

  lemma ErrorsOnFile(tools: seq<Tool>, input: Input, c: Called, h: Handling, tried: Outcome<Reply>,
                     outcome: Outcome<Reply>, stays: Stays)
    requires IsHandled(tools, input, c, h, tried, outcome)
    ensures FileTypes(h.caught, stays) == if OnFile(h.caught, stays) then ["protocol.error"] else []
    ensures FileTypes(h.errors, stays) == if OnFile(h.errors, stays) then ["protocol.error"] else []
    ensures OnFile(h.errors, stays) ==> input.UnknownMethod? && h.block == []
    ensures OnFile(h.errors, stays) && OnFile(h.caught, stays) <==>
            input.UnknownMethod? && StayedBehind(h.errors, stays) && OnFile(h.caught, stays)
  {
    if tried.Threw? {
      TriedOnFile(h.caught, ACTOR, ProtocolError(input.id, tried.message), stays);
    }
    if input.UnknownMethod? {
      TriedOnFile(h.errors, ACTOR, ProtocolError(input.id, "unknown method"), stays);
    }
  }

  lemma AskBlockOnFile(tools: seq<Tool>, q: Question, parts: Parts, made: ToolResponse,
                       called: Outcome<ToolResponse>, result: Outcome<AskResult>, stays: Stays)
    requires IsAsk(tools, q, parts, made, called, result)
    ensures IsFileBlock(FileTypes(parts.Effects(), stays))
    ensures IsBlock(FileTypes(parts.Effects(), stays)) <==>
            !(StayedBehind(parts.responded, stays) && OnFile(parts.concluded, stays))
  {
    AskOnFile(tools, q, parts, made, called, result, stays);
    BlockOnFile(ShownOf(parts, stays));
  }

  lemma BlocksOnFile(tools: seq<Tool>, input: Input, c: Called, h: Handling, tried: Outcome<Reply>, stays: Stays)
    requires IsTry(tools, input, c, h, tried)
    ensures IsFileBlock(FileTypes(h.block, stays))
    ensures IsBlock(FileTypes(h.block, stays)) <==>
            !(input.Ask? && c.CalledModel? && StayedBehind(c.parts.responded, stays) &&
              OnFile(c.parts.concluded, stays))
  {
    match input
    case CallTool(_, request) =>
      ToolOnFile(tools, request, ACTOR, c.ran, c.recorded, c.made, c.response, stays);
      NothingOnFile(c.ran, stays);
      FileTypesAppend(c.ran, c.recorded, stays);
    case Ask(_, prompt, request) =>
      AskBlockOnFile(tools, Question(prompt, request, ACTOR), c.parts, c.made, c.response, c.result, stays);
    case _ =>
  }

  // The grammar of the file, whatever stayed in it, and exactly when it is that of the successful appends.
  lemma RequestOnFile(tools: seq<Tool>, input: Input, c: Called, h: Handling, tried: Outcome<Reply>,
                      outcome: Outcome<Reply>, stays: Stays)
    requires IsHandled(tools, input, c, h, tried, outcome)
    ensures IsFilePart(FileTypes(h.Effects(), stays))
    ensures IsRequestPart(FileTypes(h.Effects(), stays)) <==> !IsRecordedTwice(input, c, h, stays)
  {
    BlocksOnFile(tools, input, c, h, tried, stays);
    ErrorsOnFile(tools, input, c, h, tried, outcome, stays);
    RestIsBy(tools, input, c, h, tried, outcome);
    HandlingOnFile(h, stays);
    PartOnFile(FileTypes(h.block, stays), FileTypes(h.errors, stays) + FileTypes(h.caught, stays));
  }

  // It happens: the response stayed in the file, its append failed, and that failure is recorded.
  lemma ResponseBeforeItsError(q: Question, evidence: seq<Evidence>, text: string, message: string, id: nat)
    ensures var responded := [NotAppended(AuditEvent(id, q.actor, ModelResponse(q.request, text)), message)];
            var failed := ModelError(q.prompt, q.request, message, evidence);
            var concluded := [Appended(AuditEvent(id + 1, q.actor, failed))];
            && IsConclusion(q, evidence, Returned(text), responded, concluded, Returned(AskResult(false, "", message)))
            && FileTypes(responded + concluded, _ => true) == ["model.response", "model.error"]
  {
    var responded := [NotAppended(AuditEvent(id, q.actor, ModelResponse(q.request, text)), message)];
    var concluded := [Appended(AuditEvent(id + 1, q.actor, ModelError(q.prompt, q.request, message, evidence)))];
    FileTypesAppend(responded, concluded, _ => true);
    assert FileTypes(responded, _ => true) == ["model.response"];
    assert FileTypes(concluded, _ => true) == ["model.error"];
  }

  // ---- Runs ----

  function PartTypes(parts: seq<seq<Effect>>, stays: Stays): seq<seq<string>> {
    seq(|parts|, i requires 0 <= i < |parts| => FileTypes(parts[i], stays))
  }

  // The file of a run is the files of its requests, one after another.
  lemma {:induction false} RunOnFile(parts: seq<seq<Effect>>, stays: Stays)
    ensures FileTypes(Flatten(parts), stays) == Flatten(PartTypes(parts, stays))
  {
    if parts != [] {
      var before, last := parts[..|parts| - 1], parts[|parts| - 1];
      RunOnFile(before, stays);
      FileTypesAppend(Flatten(before), last, stays);
      assert PartTypes(parts, stays) == PartTypes(before, stays) + [FileTypes(last, stays)];
      FlattenNext(PartTypes(before, stays), FileTypes(last, stays));
    }
  }
}
