/** The values that tools, sessions and audits pass around. */
module CoreTypes {

  datatype RiskClass = ReadOnly | LowRiskUser | Admin | Destructive

  datatype ToolStatus = Ok | Denied | Error

  datatype Evidence = Evidence(id: string, source: string, summary: string, body: string, timestamp: string)

  datatype ToolRequest = ToolRequest(id: string, toolName: string, risk: RiskClass, params: map<string, string>)

  datatype ToolResponse = ToolResponse(requestId: string, status: ToolStatus, message: string, evidence: seq<Evidence>)

  function StatusName(status: ToolStatus): string {
    match status
    case Ok => "ok"
    case Denied => "denied"
    case Error => "error"
  }
}
