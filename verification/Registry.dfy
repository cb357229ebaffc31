/** Tools are registered once under each name, and the policy is made from the finished registry. */
module Registry {
  import opened CoreTypes
  import opened Wrappers

  datatype Tool = Tool(name: string, risk: RiskClass)

  datatype ToolPolicy = ToolPolicy(toolName: string, risk: RiskClass)

  datatype PolicyDecision = PolicyDecision(allowed: bool, reason: string)

  datatype AddResult = Added | NullTool | DuplicateName

  // The first tool of that name.
  function FindIn(tools: seq<Tool>, name: string): (found: Option<Tool>)
    ensures found.Some? ==> found.value in tools && found.value.name == name
    ensures found.None? ==> forall tool :: tool in tools ==> tool.name != name
  {
    if tools == [] then None
    else if tools[0].name == name then Some(tools[0])
    else FindIn(tools[1..], name)
  }

  predicate HaveUniqueNames(tools: seq<Tool>) {
    forall i, j :: 0 <= i < j < |tools| ==> tools[i].name != tools[j].name
  }

  lemma FoundIsOnly(tools: seq<Tool>, tool: Tool)
    requires HaveUniqueNames(tools) && tool in tools
    ensures FindIn(tools, tool.name) == Some(tool)
  {
    var found := FindIn(tools, tool.name);
    var i :| 0 <= i < |tools| && tools[i] == tool;
    var j :| 0 <= j < |tools| && tools[j] == found.value;
  }

  class ToolRegistry {
    var tools: seq<Tool>

    ghost predicate Valid()
      reads this
    {
      HaveUniqueNames(tools)
    }

    constructor ()
      ensures Valid() && tools == []
    {
      tools := [];
    }

    method Add(tool: Option<Tool>) returns (result: AddResult)
      requires Valid()
      modifies this
      ensures Valid()
      ensures result == if tool.None? then NullTool
                        else if exists other :: other in old(tools) && other.name == tool.value.name then DuplicateName
                        else Added
      ensures tools == if result == Added then old(tools) + [tool.value] else old(tools)
    {
      if tool.None? {
        return NullTool;
      }
      if Find(tool.value.name).Some? {
        return DuplicateName;
      }
      tools := tools + [tool.value];
      return Added;
    }

    function Find(name: string): Option<Tool>
      reads this
    {
      FindIn(tools, name)
    }

    method Names() returns (names: seq<string>)
      ensures names == NamesOf(tools)
    {
      names := [];
      for i := 0 to |tools|
        invariant names == NamesOf(tools)[..i]
      {
        names := names + [tools[i].name];
      }
    }

    method Policies() returns (policies: seq<ToolPolicy>)
      ensures policies == PoliciesOf(tools)
    {
      policies := [];
      for i := 0 to |tools|
        invariant policies == PoliciesOf(tools[..i])
      {
        policies := policies + [ToolPolicy(tools[i].name, tools[i].risk)];
        assert tools[..i + 1][..i] == tools[..i];
      }
      assert tools[..|tools|] == tools;
    }
  }

  function NamesOf(tools: seq<Tool>): (names: seq<string>)
    ensures |names| == |tools| && forall i :: 0 <= i < |tools| ==> names[i] == tools[i].name
  {
    if tools == [] then [] else [tools[0].name] + NamesOf(tools[1..])
  }

  function PoliciesOf(tools: seq<Tool>): (policies: seq<ToolPolicy>)
    ensures |policies| == |tools|
  {
    if tools == [] then []
    else
      var last := tools[|tools| - 1];
      PoliciesOf(tools[..|tools| - 1]) + [ToolPolicy(last.name, last.risk)]
  }

  // A map that keeps the first risk of a name.
  function AllowedFrom(policies: seq<ToolPolicy>): map<string, RiskClass> {
    if policies == [] then map[]
    else
      var before, last := AllowedFrom(policies[..|policies| - 1]), policies[|policies| - 1];
      if last.toolName in before then before else before[last.toolName := last.risk]
  }

  class PolicyBroker {
    var allowedTools: map<string, RiskClass>

    constructor (policies: seq<ToolPolicy>)
      ensures allowedTools == AllowedFrom(policies)
    {
      var allowed := map[];
      for i := 0 to |policies|
        invariant allowed == AllowedFrom(policies[..i])
      {
        assert policies[..i + 1][..i] == policies[..i];
        if policies[i].toolName !in allowed {
          allowed := allowed[policies[i].toolName := policies[i].risk];
        }
      }
      assert policies[..|policies|] == policies;
      allowedTools := allowed;
    }

    function Decide(request: ToolRequest): PolicyDecision
      reads this
    {
      DecisionOf(allowedTools, request.toolName)
    }
  }

  // The risk that the caller claims has no part in it.
  function DecisionOf(allowed: map<string, RiskClass>, name: string): PolicyDecision {
    if name !in allowed then PolicyDecision(false, "tool is not registered in policy allowlist")
    else if allowed[name] != ReadOnly then PolicyDecision(false, "only read-only tools are allowed in v1")
    else PolicyDecision(true, "read-only tool allowed")
  }

  // A name is allowed with a risk when the registry finds a tool of that name with that risk.
  predicate AgreesOn(tools: seq<Tool>, allowed: map<string, RiskClass>, name: string) {
    var found := FindIn(tools, name);
    (name in allowed <==> found.Some?) && (name in allowed ==> allowed[name] == found.value.risk)
  }

  lemma {:induction false} AllowedAreTools(tools: seq<Tool>, name: string)
    ensures AgreesOn(tools, AllowedFrom(PoliciesOf(tools)), name)
  {
    if tools != [] {
      var before, last := tools[..|tools| - 1], tools[|tools| - 1];
      assert tools == before + [last];
      assert PoliciesOf(tools)[..|tools| - 1] == PoliciesOf(before);
      AllowedAreTools(before, name);
      AllowedAreTools(before, last.name);
      FindInAppend(before, last, name);
    }
  }

  lemma {:induction false} FindInAppend(tools: seq<Tool>, last: Tool, name: string)
    ensures FindIn(tools + [last], name) == if FindIn(tools, name).Some? then FindIn(tools, name)
                                           else if last.name == name then Some(last) else None
  {
    if tools == [] {
      assert ([] + [last])[1..] == [];
    } else {
      assert (tools + [last])[1..] == tools[1..] + [last];
      FindInAppend(tools[1..], last, name);
    }
  }

  // A policy made from a registry allows exactly what the registry finds and calls read-only.
  lemma AllowedIffReadOnlyTool(tools: seq<Tool>, request: ToolRequest)
    ensures var decision, found := DecisionOf(AllowedFrom(PoliciesOf(tools)), request.toolName),
                                   FindIn(tools, request.toolName);
            decision.allowed <==> found.Some? && found.value.risk == ReadOnly
  {
    AllowedAreTools(tools, request.toolName);
  }

  // What the policy says of a request, told by the registry alone.
  lemma DecisionTellsRegistry(tools: seq<Tool>, name: string)
    ensures var decision := DecisionOf(AllowedFrom(PoliciesOf(tools)), name);
            match FindIn(tools, name) {
              case None =>
                !decision.allowed && decision.reason == "tool is not registered in policy allowlist"
              case Some(tool) =>
                && (decision.allowed <==> tool.risk == ReadOnly)
                && decision.reason == if tool.risk == ReadOnly then "read-only tool allowed"
                                      else "only read-only tools are allowed in v1"
            }
  {
    AllowedAreTools(tools, name);
  }

  // After any sequence of additions the names are unique, and no tool that was added is lost.
  method AddAll(toAdd: seq<Option<Tool>>) returns (registry: ToolRegistry)
    ensures fresh(registry) && registry.Valid()
    ensures forall i :: 0 <= i < |toAdd| && toAdd[i].Some? ==> registry.Find(toAdd[i].value.name).Some?
    ensures forall tool :: tool in registry.tools ==> Some(tool) in toAdd
  {
    registry := new ToolRegistry();
    for i := 0 to |toAdd|
      invariant registry.Valid() && fresh(registry)
      invariant forall tool :: tool in registry.tools ==> Some(tool) in toAdd[..i]
      invariant forall k :: 0 <= k < i && toAdd[k].Some? ==> registry.Find(toAdd[k].value.name).Some?
    {
      ghost var before := registry.tools;
      var result := registry.Add(toAdd[i]);
      forall k | 0 <= k <= i && toAdd[k].Some? ensures registry.Find(toAdd[k].value.name).Some? {
        var name := toAdd[k].value.name;
        if result == Added {
          FindInAppend(before, toAdd[i].value, name);
        }
      }
    }
  }
}
