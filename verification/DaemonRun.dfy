/** The daemon from its start on: any number of requests, one after another. */
module DaemonRun {
  import opened Daemon
  import opened DaemonAudit
  import opened DaemonFile
  import opened DaemonLog
  import opened Registry
  import opened Session
  import opened SessionProperties
  import opened Splitting
  import opened Wrappers

  // What one request may add: to the log, and to the file whatever records of failed appends stay there. All of it is
  // audited.
  ghost predicate IsPart(tools: seq<Tool>, part: seq<Effect>) {
    && IsRequestPart(TypesOf(part)) && AreBy(ACTOR, part) && IsAudited(tools, part)
    && forall stays: Stays :: IsFilePart(FileTypes(part, stays))
  }

  lemma HandlingIsPart(tools: seq<Tool>, input: Input, c: Called, h: Handling, tried: Outcome<Reply>,
                       outcome: Outcome<Reply>)
    requires IsHandled(tools, input, c, h, tried, outcome)
    ensures IsPart(tools, h.Effects())
  {
    RequestAddsOnePart(tools, input, c, h, tried, outcome);
    RequestIsByActor(tools, input, c, h, tried, outcome);
    RequestIsAudited(tools, input, c, h, tried, outcome);
    forall stays: Stays ensures IsFilePart(FileTypes(h.Effects(), stays)) {
      RequestOnFile(tools, input, c, h, tried, outcome, stays);
    }
  }

  // Any number of requests, one after another. A request that threw leaves the client without an answer and the
  // daemon ready for the next one.
  method Serve(inputs: seq<Input>, service: SessionService) returns (ghost parts: seq<seq<Effect>>)
    requires service.Valid() && service.world.Valid()
    modifies service.world
    ensures service.world.Valid() && service.world.trace == old(service.world.trace) + Flatten(parts)
    ensures |parts| == |inputs| && forall i :: 0 <= i < |parts| ==> IsPart(service.registry.tools, parts[i])
    ensures IsAudited(service.registry.tools, Flatten(parts))
  {
    parts := [];
    ghost var before, tools := service.world.trace, service.registry.tools;
    for i := 0 to |inputs|
      invariant service.world.Valid() && service.world.trace == before + Flatten(parts)
      invariant |parts| == i && forall k :: 0 <= k < i ==> IsPart(tools, parts[k])
    {
      ghost var c, h, tried;
      var outcome;
      outcome, c, h, tried := HandleRequest(inputs[i], service);
      HandlingIsPart(tools, inputs[i], c, h, tried, outcome);
      FlattenNext(parts, h.Effects());
      Associate(before, Flatten(parts), h.Effects());
      parts := parts + [h.Effects()];
    }
    RunIsAudited(tools, parts);
  }

  predicate HasIncreasingIds(trace: seq<Effect>) {
    forall i, j :: 0 <= i < j < |trace| && trace[i].IsAttempt() && trace[j].IsAttempt() ==>
      trace[i].event.id < trace[j].event.id
  }

  lemma AllIdsIncrease(trace: seq<Effect>, next: nat)
    requires IdsIncrease(trace, |trace|, next)
    ensures HasIncreasingIds(trace)
  {
    forall i, j | 0 <= i < j < |trace| && trace[i].IsAttempt() && trace[j].IsAttempt()
      ensures trace[i].event.id < trace[j].event.id
    {
      IdsAreDistinct(trace, |trace|, next, i, j);
    }
  }

  // A daemon that starts with any tools: the registry has some of them, all that happens is audited, and the event ids
  // are distinct, as long as the counter does not wrap around.
  method Run(tools: seq<Option<Tool>>, env: Environment, inputs: seq<Input>)
    returns (world: World, ghost registered: seq<Tool>, ghost parts: seq<seq<Effect>>)
    ensures world.trace == Flatten(parts) && |parts| == |inputs|
    ensures forall tool :: tool in registered ==> Some(tool) in tools
    ensures forall i :: 0 <= i < |parts| ==> IsPart(registered, parts[i])
    ensures IsAudited(registered, world.trace)
    ensures HasIncreasingIds(world.trace)
  {
    var registry := AddAll(tools);
    registered := registry.tools;
    var policies := registry.Policies();
    var policy := new PolicyBroker(policies);
    world := new World(env);
    var service := new SessionService(registry, policy, world);
    parts := Serve(inputs, service);
    AllIdsIncrease(world.trace, world.nextEventId);
  }
}
