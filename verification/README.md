# Kasli, verified

Kasli is a small read-only daemon: a client sends one line over a Unix socket, the daemon runs one of its tools,
perhaps asks a language model about the evidence, and writes what it did to an audit log. This project models the
logic between the system calls in Dafny 4.11 and proves what it promises. `dafny verify dfyconfig.toml` checks it.

## How it is modelled

- **Redactor** (`Text`, `Keywords`, `Regex`, `RedactionPatterns`, and the proofs in `Replacing`, `RedactionScan`,
  `RedactionShapes`, `Redaction`, `RedactionValues`, `RedactionPlain`, `RedactionSecrets`, `RedactionKept`,
  `RedactionLimits`, `RedactionCuts`, `RedactionFront`, `RedactionMarks`, `RedactionPrefix`, `RedactionWords`,
  `RedactionSpelling`, `RedactionLaws`). The four patterns are values of a small regular-expression type, matched by backtracking with all ends in the order ECMAScript tries them, so that
  `\s*` can give characters back (`\s` holds `\v` and `\f`, which the value classes accept). The four passes run in
  the order of the source. The proofs use a second form, a scanner for each pass, that is proved to find the same
  matches. All properties hold for every string. `RedactionLaws` states what comes out by character codes alone, for
  keywords in any casing.
- **Line framing** (`LineFraming`). A connection has a schedule of what `send` and `read` will answer: partial
  counts, interruptions, failures. When a schedule ends, the call waits. The loops are the ones of the source, with
  the 4096-byte buffer as an array.
- **Session** (`Registry`, `Session`, `SessionProperties`, `Daemon`, `DaemonLog`, `DaemonFile`, `DaemonAudit`,
  `DaemonRun`, `AuditDetails`, `AuditReading`, `AuditSecrets`, `Decimals`). Tools, the model,
  every append to the audit log and every JSON dump may fail, as functions of a question number. The world keeps a
  trace of tool calls, model calls, attempts to append and replies, each with its outcome. The contracts say exactly
  which attempts follow which outcomes and what is returned; the lemmas draw the audit properties from them. What
  a failed append leaves in the file is a parameter of `DaemonFile`, and `AuditFile.AuditLog` says what it can be.
  The append of `model.response` is inside the `try`.
- **Audit file** (`AuditFile`). A step model of any number of threads that lock, open, write in portions, flush,
  close and unlock in any interleaving, and the single append, and sequences of appends, with their failures and torn tails.
- **Evidence bodies** (`EvidenceBody`, `Journal`, `JournalProperties`, `UnitStatus`, `ServiceDiagnosis`, `DiagnosisLaws`). The in-place accumulator, with
  the cap as a parameter, and the formatters that fold over it.
- **Parsers and selections** (`Splitting`, `CpuLines`, `CpuInfo`, `CpuInfoParser`, `CpuInfoProperties`, `CpuCores`,
  `CpuInput`, `MountInfo`, `Sorting`, `ChangeLog`, `PackageRows`, `PackageList`).
- **Supervision** (`Autostart`, `CommandSupervisor`). Loops around a scripted environment.

A byte is a `char`. Numbers are unbounded except where the source lets a `size_t` wrap around
(`CpuLines.ParseSize`, `CpuInfoParser.SumOf`, the counter of `Decimals.EventId`); a count of lines or rows cannot
reach 2^64. Clocks, files, sockets, JSON text and child processes are parameters or schedules.

## What the code does not promise

Each of these has an input that shows it and the exact condition under which the promise is kept.

- Physical cores within logical processors. `CpuInfoProperties.UnnamedCoresAreBelieved` is a two-line file with one
  processor and any number of cores; `CpuInfoProperties.CoresWithinProcessors` says that the promise is kept exactly
  when some group names a core (both ids) or what the file claims does not exceed its processors.
- One core for each pair of a physical id and a core id. The two are joined by a colon, so that in
  `CpuCores.CoresThatRunTogether` two cores of two sockets are counted as one. `CpuCores.CoresArePairs` says that the
  count is that of the pairs exactly when no two pairs run together, the colon between the ids of the one being a
  colon in an id of the other; it is enough that no physical id has a colon.
- The newest package changes among the shown ones. Only the first 2000 rows in log order are sorted.
  `PackageRows.NewestRowIsMissing` is a log of 2001 lines whose newest row is missing while all shown rows are older;
  `PackageRows.NothingNewerIsMissing` says when none is missing, by counting parsed rows.
- Redaction of `protocol.error` records. Their id and message are cut but not redacted (src/kaslid/main.cpp:97-117).
  `AuditSecrets.SecretIdIsWritten` is an id whose secret is written. `AuditSecrets.ProtocolErrorIsUnredacted` says
  that what is written is what the redactor would have left exactly when it shows no secret: a text that fits, when
  no pattern finds one; a longer text, when no pass finds one that starts before the cut and shows, and the redacted
  text does not fit either. All other records depend on the redacted strings only:
  `AuditSecrets.OnlyRedactedTextIsWritten`.
- An audit file of whole records. `AuditFile.TornTailIsGlued` is a failed append whose torn tail takes the next
  record; `AuditFile.LinesAreRecordsIffNoneTorn` says that the lines are the whole records exactly when each append
  left none or all of its own.
- An audit file that agrees with the appends that succeeded. A record can stay although its append failed, and then
  the response of a model is followed by its error (`DaemonFile.ResponseBeforeItsError`).
  `DaemonFile.RequestOnFile` gives the grammar of the file and exactly when it is that of the log.
- Redaction of a quoted value, whatever stands before it. In `RedactionLimits.MispairedSecretStays` an earlier quote is
  open. `RedactionSecrets.QuotedSecretDoesNotLeak` says that the output is the same for all contents of the quotes
  exactly when a scan of the text before them arrives at the opening quote with a kept text; an assignment that is
  closed before, as in `token="a" password="b"`, does no harm (`RedactionLimits.SecondSecretIsHidden`).
- A redacted quoted value that keeps its quotes. With a vertical tab or a form feed in front of the opening quote a
  later pass takes what is left of it for an unquoted value: `RedactionLaws.QuotedIsRedacted` says that the quotes stay
  exactly when there is neither. The value is hidden in any case.
- Redaction of an unquoted value, whatever stands before it. In `RedactionLimits.SpacedSecretStays` its keyword is the
  value of an earlier assignment. `RedactionPlain.PlainSecretDoesNotLeak` says that the output is the same for two
  plain values exactly when a scan of the text before them, pass by pass, takes them;
  `RedactionKept.KeptTextIsTaken` is a condition on that text alone which is enough.

## Model

| member | source | states |
|---|---|---|
| RedactionPatterns.PatternIsPass | src/core/json.cpp:8-23 | each `regex_replace` of the source gives the same text as the scanner of its pass, on every string, backtracking included; what both match is in `RedactionLaws` |
| RedactionPatterns.PatternsArePasses | src/core/json.cpp:20-23 | the four replacements in their order are the four scanners in their order; what comes of written assignments is in `RedactionLaws` |
| RedactionLaws.AssignmentIsRedacted | src/core/json.cpp:11-13 | a keyword in any casing, spaces, `=`, spaces and any plain value become the same with `[REDACTED]` for the value |
| RedactionLaws.ColonIsRedacted | src/core/json.cpp:14-16 | the same with a colon |
| RedactionLaws.AuthorizationIsRedacted | src/core/json.cpp:17-18 | the same for `Authorization: Bearer` in any casing, with any spaces around the colon and before the value |
| RedactionLaws.QuotedIsRedacted | src/core/json.cpp:8-10 | the same for any text between quotes, the quotes staying exactly when no vertical tab or form feed stands before the first |
| RedactionLaws.ValueIsReplaced | src/core/json.cpp:11-18 | behind a kept text at the start, the pass replaces the characters up to the first that is none of a value, by code, and looks at the rest anew |
| RedactionLaws.QuotedValueIsReplaced | src/core/json.cpp:8-10 | behind a kept text at the start, the pass replaces what stands up to the next quote and looks at the rest anew |
| RedactionLaws.UnnamedIsKept | src/core/json.cpp:7-24 | a text that has none of the seven keywords and no `authorization` in it, in any casing, is left as it is |
| RedactionSpelling.KeywordTextIsKept | src/core/json.cpp:11-16 | a keyword in any casing, spaces, the separator and spaces are a kept text |
| RedactionSpelling.BearerTextIsKept | src/core/json.cpp:17-18 | `authorization`, a colon and `bearer` in any casing with spaces between and behind are a kept text |
| RedactionPatterns.RedactingTwiceIsRedactingOnce | src/core/json.cpp:20-23 | redaction is idempotent on every string |
| RedactionPatterns.RedactedHasNoResidue | src/core/json.cpp:8-23 | in every output each match of each pass, overlapping ones included, has the value `[REDACTED]` |
| RedactionPatterns.NothingLeftToRedact | src/core/json.cpp:8-23 | at every place of every output, what a pattern of the source matches and would replace is its replacement already |
| Redaction.PassLeavesNoResidue | src/core/json.cpp:20-23 | a pass leaves nothing of its own kind, and keeps every text clean of another kind clean |
| Redaction.NoResidueIsFixed | src/core/json.cpp:20-23 | a text that is clean for all four passes is a fixed point |
| RedactionShapes.PassesAreSeparate | src/core/json.cpp:8-18 | no kept text of one pattern ends between two kept texts of another, so a later replacement cannot split or re-pair an earlier match |
| RedactionSecrets.QuotedSecretDoesNotLeak | src/core/json.cpp:7-24 | the output is the same for all texts without a quote between two quotes exactly when a scan of what stands before arrives at the first quote with a kept text, no earlier quoted value being open there |
| RedactionSecrets.QuotedPassIsScan | src/core/json.cpp:8-10 | the first pass takes such a secret, or it ends an earlier value at its opening quote and looks at the text from there on anew, as the scan says |
| RedactionSecrets.ClosedIsPassed | src/core/json.cpp:8-10 | behind a quoted assignment that is closed the scan goes on at its closing quote |
| RedactionLimits.SecondSecretIsHidden | src/core/json.cpp:7-24 | the second of two quoted secrets of a line does not show, like the first |
| RedactionPlain.PlainSecretIsTakenOrKept | src/core/json.cpp:7-24 | the output around any value without blanks, quotes, separators and opening brackets is one text that a scan of what stands before and behind gives, or the value as it was between two such texts; the scan does not look at the value |
| RedactionPlain.PlainSecretDoesNotLeak | src/core/json.cpp:7-24 | the output is the same for two such values exactly when the scan takes them; values that together with what follows are part of a kept text are not meant |
| RedactionKept.KeptTextIsTaken | src/core/json.cpp:11-18 | the scan takes the value when the text before it ends in `keyword:`, `keyword=` or `Authorization: Bearer` and its last word, or all of it from its start or some blank on, has no quote, no bracket and no other kept text in it |
| RedactionKept.LastSecretDoesNotLeak | src/core/json.cpp:11-18 | at the end of a text, behind a kept text without blanks, no such value gets through, whatever stands before it |
| RedactionValues.RunIsScan | src/core/json.cpp:20-23 | one pass replaces every such value or copies it, and the scan of the text before it tells which and gives the rest of the result |
| RedactionLimits.MispairedSecretStays | src/core/json.cpp:8-10 | in `token="a password="` followed by a secret and a quote the secret stays, since the first match takes its opening quote |
| RedactionLimits.SpacedSecretStays | src/core/json.cpp:11-13 | in `password= password= ` followed by a secret the secret stays, since the first value is the second keyword |
| RedactionCuts.CutStaysCut | src/core/json.cpp:20-23 | redacting a redacted text again after it was cut and marked does not make it longer |
| RedactionCuts.RunOfCut | src/core/json.cpp:20-23 | on such a text a pass changes nothing or the value that runs into the mark |
| RedactionFront.FrontOfRun | src/core/json.cpp:20-23 | a pass leaves the first n characters as they are exactly when every match, overlapping ones included, whose value starts among them shows there as `[REDACTED]` |
| RedactionMarks.StillMarked | src/core/json.cpp:20-23 | where earlier passes first changed a text there is a mark behind a kept text, and a later pass leaves it or sets one further ahead: nothing is changed back |
| RedactionPrefix.FrontOfRedacted | src/core/json.cpp:20-23 | all four passes leave the first n characters as they are exactly when none of them, in turn, finds a value that starts among them and shows |
| RedactionSecrets.RedactedLineIsLine | src/core/json.cpp:7-24 | redaction adds no newline |
| RedactionWords.RedactedIsPlainWord | src/core/json.cpp:7-24 | a text is redacted to a plain word exactly when it is that word |
| Regex.ReplacementsAgree | src/core/json.cpp:20-23 | leftmost replacement with a pattern and with a finder that sees the same matches give the same text |
| Regex.FirstMatchIsLast | src/core/json.cpp:8-18 | of the ends that a greedy run of spaces gives back, the match takes the last after which the rest matches |
| LineFraming.Connection.WriteAll | src/ipc/unix_socket.cpp:89-106 | for every schedule the bytes taken are the data or the prefix the schedule has room for, and the result says which |
| LineFraming.Connection.WriteLine | src/ipc/unix_socket.cpp:108-116 | payloads that are too large or have a newline send nothing; others send a prefix of the line, all of it exactly on success |
| LineFraming.Connection.ReadLine | src/ipc/unix_socket.cpp:118-145 | the result is a function of the bytes of the stream and of how it ends, for every chunking and every interruption |
| LineFraming.TakePortion | src/ipc/unix_socket.cpp:135-143 | one portion ends the line, exceeds the limit, or extends the prefix read so far |
| LineFraming.WholeLine | src/ipc/unix_socket.cpp:118-145 | a newline after at most 2^20 other bytes gives exactly those bytes |
| LineFraming.LongLine | src/ipc/unix_socket.cpp:139-141 | more than 2^20 bytes before a newline are too large |
| LineFraming.NoLine | src/ipc/unix_socket.cpp:123-134 | at most 2^20 bytes without a newline give what the end of the stream gives |
| LineFraming.LineArrivesWholeOrNotAtAll | src/ipc/unix_socket.cpp:89-145 | from any part of a written line the reader gets the payload if and only if all of it arrived, and never another line |
| LineFraming.UnfinishedLine | src/ipc/unix_socket.cpp:123-134 | a stream without a newline: the end of file and a reset count as missing framing, a failure as a failure, whatever the schedule says after them |
| LineFraming.UnfinishedWrite | src/ipc/unix_socket.cpp:89-106 | a write that is not taken to its end: zero bytes and a failure are different errors, and what was taken before is sent |
| LineFraming.RefusedUnsent | src/ipc/unix_socket.cpp:108-116 | a payload that is too large or has a newline is refused unsent, for its size first |
| LineFraming.RoundTrip | src/ipc/unix_socket.cpp:89-145 | every accepted payload comes back, for every schedule of short writes and interruptions and every chunking |
| LineFraming.Connection.Request | src/ipc/unix_socket.cpp:298-313 | the client sends its line and reads an answer only after all of it was written |
| LineFraming.Connection.AcceptOne | src/ipc/unix_socket.cpp:274-296 | the server answers only what it read as a whole line and its handler answered, and reports which of reading, handling and writing failed |
| LineFraming.ExchangeIsFaithful | src/ipc/unix_socket.cpp:274-313 | the client holds an answer exactly when all of the handler's answer to its own request arrived |
| Registry.ToolRegistry.Add | src/tools/tool_registry.cpp:8-18 | a null tool and a used name are refused and change nothing; otherwise the tool is added and names stay unique |
| Registry.ToolRegistry.Names | src/tools/tool_registry.cpp:30-37 | the names of all tools, in order |
| Registry.ToolRegistry.Policies | src/tools/tool_registry.cpp:39-46 | one policy for each tool, in order |
| Registry.AddAll | src/tools/tool_registry.cpp:8-28 | after any sequence of additions names are unique and every added name is found |
| Registry.FoundIsOnly | src/tools/tool_registry.cpp:20-28 | with unique names a registered tool is what its name finds |
| Registry.PolicyBroker.constructor | src/policy/policy_broker.cpp:5-9 | the first risk of each name is kept |
| Registry.AllowedIffReadOnlyTool | src/policy/policy_broker.cpp:5-20 | a broker made from a registry allows a request exactly when the registry finds a read-only tool, whatever risk the caller claims |
| Registry.DecisionTellsRegistry | src/policy/policy_broker.cpp:11-20 | what the broker decides, and the reason it gives, by what the registry has under the name: nothing, a tool that is not read-only, or a read-only one |
| Session.SessionService.CallTool | src/session/session_service.cpp:108-156 | only an allowed tool runs, the branch for an unregistered tool is unreachable, and a response is returned only with its `tool.call` record; its status is in `SessionProperties.ResponseIsOfCall` |
| SessionProperties.ResponseIsOfCall | src/session/session_service.cpp:108-156 | a call that ran no tool is Denied, without evidence, under the id of the request and with the reason of the registry; one whose tool threw is an Error without evidence; any other gives what the tool returned |
| Session.SessionService.AskModel | src/session/session_service.cpp:184-242 | the model runs exactly when the record of the request was appended, once, with the same prompt and evidence |
| Session.SessionService.Conclude | src/session/session_service.cpp:193-242 | a response is recorded and returned; what the model threw, or the failed append of its response, is recorded as `model.error` and returned as the error |
| Session.SessionService.SkipModel | src/session/session_service.cpp:163-182 | after a tool call that is not Ok the model does not run and the skip is recorded |
| Session.SessionService.AskWithTool | src/session/session_service.cpp:158-243 | the effects of a question are those of its tool call and then of the model part or the skip; that the model sees only evidence of a tool that ran and returned Ok is in `DaemonAudit.RequestIsAudited` |
| Session.IdsAreDistinct | src/core/uuid.cpp:9-13 | the event ids of a log grow |
| Decimals.EventIdsDiffer | src/core/uuid.cpp:9-13 | id strings with different counters differ, whatever the clock shows |
| SessionProperties.ModelOnlyAfterRecords | src/session/session_service.cpp:184-195 | the model runs at most once, right after the records of an Ok tool call and of the request, with the evidence of that call |
| SessionProperties.OkMeansRecorded | src/session/session_service.cpp:194-212 | an ok answer is what the model said, and `model.response` with it is the last record |
| SessionProperties.AskTypes | src/session/session_service.cpp:162-242 | the records of a question are one of the three blocks or a first part of one, and a result fixes which |
| SessionProperties.ToolCallTypes | src/session/session_service.cpp:146-155 | a tool call adds exactly its record when it returns and nothing when it throws |
| Daemon.TryRequest | src/kaslid/main.cpp:139-166 | for each kind of request, exactly what is called, recorded and written, and what is returned or thrown |
| Daemon.HandleRequest | src/kaslid/main.cpp:134-171 | what the try threw is recorded once and answered with an error; when that fails too there is no answer |
| DaemonLog.RequestAddsOnePart | src/kaslid/main.cpp:134-171 | a request appends one audit block or a first part of one, then at most one `protocol.error` |
| DaemonLog.AnswerTellsLog | src/kaslid/main.cpp:134-171 | an error answer means that a `protocol.error` is the last record, an ok answer that the whole block is there, a tool answer its record, a list nothing |
| DaemonLog.RequestIsByActor | src/kaslid/main.cpp:107-166 | every record of a request names the one actor `cli` |
| DaemonFile.RequestOnFile | src/session/session_service.cpp:193-242 | whatever records stay in the file although their append failed, a request leaves a block, or one with the response before its error, and at most one `protocol.error`, or two and no block; it is the grammar of the log exactly when no record stayed together with the record of its failure |
| DaemonFile.ResponseBeforeItsError | src/session/session_service.cpp:193-229 | a response that stayed although its append failed is followed by the `model.error` of that append |
| DaemonFile.RunOnFile | src/kaslid/main.cpp:213-227 | the file of a run is the files of its requests, one after another |
| DaemonAudit.RequestIsAudited | src/kaslid/main.cpp:134-171 | in the effects of every request: a record of a tool call says allowed exactly when a read-only registered tool ran right before it, with what that tool gave, and otherwise tells of a refusal; the model is called only three effects after a tool that returned Ok, with its evidence and behind its two records; a reply stands behind its record |
| DaemonAudit.RunIsAudited | src/kaslid/main.cpp:213-227 | so it is at every place of the trace of any run |
| DaemonRun.Serve | src/kaslid/main.cpp:213-227 | over any run the log and the file only grow, by one such piece for each request, and the whole trace is audited |
| DaemonRun.Run | src/kaslid/main.cpp:181-227 | a daemon that starts with any tools keeps all of this, with tools that are among the given ones, and no two events have the same id, appended or not |
| AuditDetails.Shortened | src/session/session_service.cpp:22-33 | a bounded string never exceeds its limit, for every limit; a short one is unchanged, a longer one is its first part and then the marker |
| AuditDetails.EvidenceRefs | src/session/session_service.cpp:47-64 | the loop gives the references of the items, cut after 64 |
| AuditDetails.RefsAt | src/session/session_service.cpp:47-64 | there is one reference for each of the first 64 items, and one mark for all others |
| AuditDetails.RecordsAreBounded | src/session/session_service.cpp:70-95 | the type, the summary and every detail of every record are bounded, whatever tools, the model and clients say; which value stands under which key is in `AuditReading` |
| AuditDetails.EvidenceBodiesStayOut | src/session/session_service.cpp:47-95 | the details of an event do not depend on the bodies of its evidence |
| AuditReading.RecordIsRead | src/session/session_service.cpp:70-95 | every record is read back by its literal keys: the names of risk, decision and status, the decimal counts, and each string of the event redacted and cut to its limit |
| AuditReading.WholeEventIsRead | src/session/session_service.cpp:70-95 | of an event whose strings fit and that the redactor leaves alone, every string, parameter and reference is read as it was |
| AuditReading.RecordDeterminesEvent | src/session/session_service.cpp:70-95 | two such events have one record exactly when they are by one actor and say the same, evidence bodies aside, if the JSON writer loses nothing |
| AuditReading.RecordTellsWhatHappened | src/session/session_service.cpp:108-156 | in an audited trace the record of a tool call shows `policy_allowed` exactly when a tool ran right before it, and the status and the number of items that the tool gave, or error or denied and none |
| AuditSecrets.OnlyRedactedTextIsWritten | src/session/session_service.cpp:22-95 | but for protocol errors, two events that differ only in what the redactor replaces are written alike, summary and all details, the length of an answer aside |
| AuditSecrets.RedactedIsShown | src/session/session_service.cpp:22-95 | with any idempotent redactor an event and the event with all its strings redacted are written alike |
| AuditSecrets.ProtocolErrorIsUnredacted | src/kaslid/main.cpp:97-117 | a protocol error is written with its own id and message, cut; they are what the redactor would have left exactly when they show no secret, for strings of any length |
| AuditSecrets.UnredactedIffNoSecret | src/kaslid/main.cpp:97-104 | cutting alone and redacting before cutting give the same exactly when no pattern finds a secret, or, for a text that is cut, when none starts before the cut and shows and the redacted text does not fit |
| AuditSecrets.SecretIdIsWritten | src/kaslid/main.cpp:97-117 | an unknown method with the id `password=` and a secret leaves the secret in the log |
| AuditFile.AuditLog.Append | src/audit/audit_log.cpp:28-52 | the file gains exactly what the stream wrote of the record: all of it on success, nothing when it cannot be opened, a first part, which may be all, when a write, the flush or the close fails |
| AuditFile.LinesAreRecordsIffNoneTorn | src/audit/audit_log.cpp:28-52 | after any appends and failures the lines of the file are the whole records, one for one, exactly when each append left none or all of its record |
| AuditFile.TornTailIsGlued | src/audit/audit_log.cpp:38-41 | a torn record and the next one are one line |
| AuditFile.RunKeepsInvariant | src/audit/audit_log.cpp:28-52 | in every interleaving the file is the finished records and a part of the holder's |
| AuditFile.AppendsLinearise | src/audit/audit_log.cpp:28-52 | whenever the lock is free the lines of the file are the records in lock order, and each thread's are in its own order |
| AuditFile.FileOnlyGrows | src/audit/audit_log.cpp:33-38 | what is in the file stays there |
| EvidenceBody.Body.AppendBounded | src/tools/hardware_tool.cpp:26-41 | after any sequence of appends the body is all the text, or its first part and the marker; no subtraction underflows |
| EvidenceBody.Body.AppendTruncationMarker | src/tools/journal_tool.cpp:49-54 | the marker is appended once |
| EvidenceBody.BoundedPieces | src/tools/hardware_tool.cpp:27-39 | the three overflow cases of an append give the closed form |
| EvidenceBody.BoundedAbsorbs | src/tools/hardware_tool.cpp:26-41 | what comes after a cut does not matter |
| EvidenceBody.FormatRows | src/tools/systemd_tool.cpp:166-184 | heads, rows until the body is full, and a marker for missing rows give the closed form of all of them |
| EvidenceBody.FormatAll | src/tools/hardware_tool.cpp:290-359 | going on after the cut gives the closed form too |
| EvidenceBody.EarlyReturnAgrees | src/tools/hardware_tool.cpp:361-371 | stopping at the first cut and going on give the same body |
| Journal.Query | src/tools/journal_tool.cpp:110-175 | a blank unit and a fixture that cannot be opened are errors; otherwise the body is the bounded report: the first fifty matching rows, then a marker for more rows or the count of invalid lines; what its lines are is in `JournalProperties` |
| Journal.FullWithinRows | src/tools/journal_tool.cpp:145-162 | a body that is full within the first fifty rows is the body of the whole report |
| JournalProperties.SecretsOfMessagesDoNotShow | src/tools/journal_tool.cpp:130-162 | two fixtures that differ only in what the redactor replaces in their messages have one body |
| JournalProperties.RedactedFixtureIsAlike | src/tools/journal_tool.cpp:150-151 | a fixture with all its messages redacted beforehand has the same body |
| JournalProperties.BodyShowsEntries | src/tools/journal_tool.cpp:130-162 | the lines of a body that fits are, in order, one for each of the first fifty entries of the unit, its priority, a blank and its redacted message, then `truncated=true` for more entries or the number of invalid lines, and nothing else |
| UnitStatus.FormatSystemdUnitStatusBody | src/tools/systemd_tool.cpp:217-249 | the body is the bounded text of the lines of the status, in order |
| UnitStatus.ParseKeyValueLines | src/tools/service_diagnose_tool.cpp:48-60 | the map has the first value of each key, and nothing from lines without one |
| UnitStatus.PrintableRoundTrip | src/tools/service_diagnose_tool.cpp:48-60 | printed items are read back exactly, also with `=` in their values |
| UnitStatus.StatusRoundTrip | src/tools/systemd_tool.cpp:217-249 | a one-line status that fits its body is read back: every key with its redacted value, and no other key |
| DiagnosisLaws.StatusIsReadByKey | src/tools/systemd_tool.cpp:217-249 | each property of the unit is read back, redacted, under its own key, and there are eight keys, or eleven for a service |
| DiagnosisLaws.ValueIsSaid | src/tools/service_diagnose_tool.cpp:48-60 | a key has a value exactly when the first line that begins with the key and `=` goes on with it |
| ServiceDiagnosis.Diagnose | src/tools/service_diagnose_tool.cpp:127-210 | the diagnosis is the bounded report of its lines, as new evidence before that of both tools, Ok when either was |
| ServiceDiagnosis.DiagnosisIsOfUnit | src/tools/service_diagnose_tool.cpp:127-210 | a diagnosis that fits is its head, the status lines as they stood in the status, in order, and a tail with the verdict the unit itself deserves |
| ServiceDiagnosis.VerdictIsOfUnit | src/tools/service_diagnose_tool.cpp:176-191 | the verdict reached through redacted text is the one the unit's own state deserves |
| DiagnosisLaws.VerdictTellsLines | src/tools/service_diagnose_tool.cpp:176-190 | the verdict by the first lines of the status text with the two keys, or else by which tool succeeded |
| DiagnosisLaws.VerdictWithoutStatus | src/tools/service_diagnose_tool.cpp:176-190 | without evidence of the status the verdict says which of the two tools succeeded |
| DiagnosisLaws.FailureTermIsSpelled | src/tools/service_diagnose_tool.cpp:68-80 | the journal names a failure exactly when one of the six terms stands in it in any casing |
| DiagnosisLaws.EntriesByCode | src/tools/service_diagnose_tool.cpp:62-66 | there are entries exactly when some evidence body has a character that is no space, tab or line end |
| DiagnosisLaws.HeadIsWritten | src/tools/service_diagnose_tool.cpp:127-166 | the first five lines: unit, status and message of both tools, each under its key |
| DiagnosisLaws.TailTells | src/tools/service_diagnose_tool.cpp:167-191 | the last three lines tell whether the journal has entries, whether it names a failure, and the verdict |
| CpuLines.TrimString | src/tools/hardware_tool.cpp:43-56 | the loops give the trimmed text |
| CpuLines.TrimIsEmpty | src/tools/hardware_tool.cpp:188-188 | a line is blank exactly when it has only spaces, tabs and line ends |
| CpuLines.SizeRoundTrip | src/tools/hardware_tool.cpp:69-75 | every size that is printed in decimal is read back |
| CpuLines.SizeIsRead | src/tools/hardware_tool.cpp:69-75 | white space, a sign and digits are read and the rest is not; too large is 0 and a minus counts down from 2^64 |
| CpuLines.NoDigitsNoSize | src/tools/hardware_tool.cpp:69-75 | without a digit behind them white space and a sign give 0 |
| CpuLines.TrimIsInner | src/tools/hardware_tool.cpp:43-56 | spaces and tabs go on both sides, line ends behind only, and the rest stays |
| CpuInfoParser.FinalizeCpuBlock | src/tools/hardware_tool.cpp:146-165 | the running totals are those of the groups so far and this one; what the totals count is in `CpuCores` |
| CpuInfoParser.ParseCpuInfoSummary | src/tools/hardware_tool.cpp:171-248 | the one-pass parser gives the declarative reading of the file; what that is for a file of listed processors is in `CpuCores` |
| CpuInfoParser.SumOf | src/tools/hardware_tool.cpp:237-241 | the sum over the sockets, in any order, with wrap-around |
| CpuInfo.SocketCoresNext | src/tools/hardware_tool.cpp:161-163 | raising one socket entry keeps the map of maxima |
| CpuInfoProperties.OrderOfBlocksDoesNotMatter | src/tools/hardware_tool.cpp:171-248 | both counts are the same for a file with its blocks in another order |
| CpuInfoProperties.NamedCoresWithinProcessors | src/tools/hardware_tool.cpp:234-236 | with one core named, cores do not exceed processors |
| CpuInfoProperties.CoresWithinProcessors | src/tools/hardware_tool.cpp:229-245 | the cores of a file stay within its processors exactly when a core is named or the claimed count does |
| CpuInfoProperties.UnnamedCoresAreBelieved | src/tools/hardware_tool.cpp:242-243 | a file with one processor and no id has as many cores as it says |
| CpuCores.CoresArePairs | src/tools/hardware_tool.cpp:146-165 | with a named core the physical cores are at most the different pairs of ids, and just as many exactly when no two pairs run together at a colon |
| CpuCores.ListedCoresAreCounted | src/tools/hardware_tool.cpp:171-248 | for a file that lists processors as the kernel does: every one counts, and the cores are the different pairs of ids if no physical id has a colon |
| CpuCores.CoresThatRunTogether | src/tools/hardware_tool.cpp:159-160 | two listed processors of two cores that are counted as one core |
| CpuCores.SocketsAreSummed | src/tools/hardware_tool.cpp:237-241 | of a listed file without a named core the largest claims of the sockets add up, modulo 2^64 |
| CpuCores.LargestClaimIsBelieved | src/tools/hardware_tool.cpp:242-245 | of a listed file without a named core and a socket that claims cores it is the largest claim, or the number of processors |
| CpuCores.ListedNamesAreFirst | src/tools/hardware_tool.cpp:206-209 | vendor and model name are the first of the listed ones that are not empty |
| CpuInput.TruncateHardwareInput | src/tools/hardware_tool.cpp:277-288 | the input is a prefix of at most 64 KiB that ends with the last whole line in it when there is one |
| CpuInput.PrefixHasNoMoreProcessors | src/tools/hardware_tool.cpp:171-248 | no prefix of a file shows more processors than the file |
| CpuInput.SummarizeFile | src/tools/hardware_tool.cpp:107-117 | the summary of a bounded read shows no more processors than the file, and is exact for files within the bound |
| MountInfo.SplitSpaces | src/tools/disk_tool.cpp:40-60 | the fields are the non-empty pieces between spaces |
| MountInfo.DecodeMountinfoValue | src/tools/disk_tool.cpp:69-86 | the loop decodes escapes of three octal digits, to eight bits |
| MountInfo.ParseMountinfoLine | src/tools/disk_tool.cpp:121-142 | the line is read through its fields, or refused |
| MountInfo.DecodeAfterEncode | src/tools/disk_tool.cpp:62-86 | values come back for every set of escaped characters that holds space, tab, newline and backslash |
| MountInfo.EscapeStandsForOne | src/tools/disk_tool.cpp:69-86 | a backslash and three octal digits stand for the character of that number without its ninth bit |
| MountInfo.DecodeKeepsOthers | src/tools/disk_tool.cpp:69-86 | a text without an escape is left as it is, other backslashes included |
| MountInfo.MountIffFields | src/tools/disk_tool.cpp:121-135 | a line is a mount exactly when it has ten fields, six of them before the first `-` and three behind it |
| MountInfo.MountInfoRoundTrip | src/tools/disk_tool.cpp:121-142 | mount point, type and source come back with any number of optional fields, none before the separator being `-` |
| PackageRows.RecentChanges | src/tools/package_tool.cpp:456-503 | the shown rows are newest first, every parsed row is shown, omitted or lost exactly once, no omitted row is newer than a shown one, and there is more exactly when more than 100 were parsed |
| PackageRows.NothingNewerIsMissing | src/tools/package_tool.cpp:479-503 | no missing row is newer than a shown one exactly when each row behind the first 2000 has enough rows among those that are not older; always so for at most 2000 |
| PackageRows.NewestRowIsMissing | src/tools/package_tool.cpp:479-503 | of 2000 lines of one time and a later line, the later row is missing and every shown row is older |
| ChangeLog.VerbLineRoundTrip | src/tools/package_tool.cpp:310-335 | a transaction line of any of the seven verbs is read back: time, what the verb means, package |
| ChangeLog.CallbackLineRoundTrip | src/tools/package_tool.cpp:52-77 | a callback line of any of the five actions is read back: time, action, package |
| ChangeLog.OnlyInfoLinesAreRows | src/tools/package_tool.cpp:310-335 | every row comes from a line of level INFO and names its log |
| PackageList.SplitTabFields | src/tools/package_tool.cpp:91-104 | the fields are all pieces between tabs, empty ones included |
| PackageList.ParseRpmPackageListLine | src/tools/package_tool.cpp:337-359 | a row has exactly six non-empty fields |
| PackageList.ListPackages | src/tools/package_tool.cpp:541-563 | the list is a permutation of the first 500 valid rows, ordered by name and architecture, and says whether there were more |
| PackageList.PackageListRoundTrip | src/tools/package_tool.cpp:337-359 | the rows that the query format prints are read back |
| PackageList.RowIsPrinted | src/tools/package_tool.cpp:337-359 | a line is a given row exactly when it is the row printed in the query format |
| PackageList.PrecedesIsOrder | src/tools/package_tool.cpp:558-563 | the comparison is a strict weak order, as a sort requires |
| PackageList.PrecedesByNameFirst | src/tools/package_tool.cpp:558-563 | a row comes before another when its name does, byte by byte, or its architecture among equal names |
| PackageRows.NewerIsOrder | src/tools/package_tool.cpp:496-498 | the comparison is a strict weak order, as a sort requires |
| PackageRows.NewerIsLater | src/tools/package_tool.cpp:496-498 | a row is newer when its timestamp is later, byte by byte |
| Autostart.Client.RequestAfterStart | src/app/daemon_autostart.cpp:31-64 | one look each 100 ms, one attempt for each look that found the socket, until the first attempt that is not a missing socket or 2000 ms |
| Autostart.Client.RequestWithOptionalUserServiceStart | src/app/daemon_autostart.cpp:82-102 | the first attempt, then the start and the polling only when the socket was missing and starting is allowed |
| Autostart.DeliveredAtMostOnce | src/app/daemon_autostart.cpp:31-102 | in every environment all attempts but the last found no socket or nobody listening (errno 2 or 111); at most 22 attempts, a start exactly when it is allowed and the first attempt failed so, 2000 ms of sleep at most and exactly that much on a timeout; and each result tells the last attempt |
| CommandSupervisor.DrainPipe | src/tools/package_tool.cpp:186-224 | one drain collects every chunk in order; it ends as its last read says, or at the limit exactly when its data exceed it |
| CommandSupervisor.Round | src/tools/package_tool.cpp:185-258 | one round of the loop keeps what is known of the child and the pipe, or ends with a justified failure |
| CommandSupervisor.Supervise | src/tools/package_tool.cpp:179-284 | the loop ends, by the deadline; no result comes without its reason; exactly the three stops kill, and they kill a reaped child exactly when the loop had seen it end before, with the pipe still open or the time up |
| CommandSupervisor.RunFixedCommand | src/tools/package_tool.cpp:125-284 | success means exit status 0, end of file seen, child reaped and all output within 4 MiB; after a fork the read end is closed exactly once |

## Left out

- Socket paths and stale-socket removal, permissions, peer credentials, `fork`/`exec`, D-Bus, sd-journal, `/sys`
  and HTTP calls: their results are parameters or schedules.
- JSON text: `nlohmann::json` is a value with a `dump` that may fail; envelopes and field-by-field conversions are
  not modelled. A request line is its parsed form, with one case for everything that throws before the session.
- Prompt texts, model providers, command-line options, environment defaults.
- The network, power, hardware and list formatters one by one: they are instances of `EvidenceBody.FormatRows` and
  `EvidenceBody.FormatAll` with their own heads and rows.
- `parse_meminfo_summary`, `is_disk_usage_mount_candidate` and `used_percent`: thin branches and rounding.
- PackageRows.RecentChanges: rows with equal timestamps come in no promised order, as with `std::ranges::sort`.
- LineFraming.Connection.ReadLine: bytes behind the first newline of a chunk are dropped, as in the source, which
  reads one line for each connection.
- Session.SessionService.CallTool: a record is a value with its request, decision and response;
  `AuditDetails.DetailsOf` gives the strings that are written. Timestamps are left out.
- Daemon.TryRequest: the reply to an unknown method is taken to be writable as JSON, since its only free string
  came out of parsed JSON text.
- DaemonRun.Run: event ids are distinct until the counter wraps around at 2^64.
- AuditFile.AppendsLinearise: assumes that no write fails and that only one process appends; the mutex is one of
  the process. Failures are in `AuditFile.LinesAreRecordsIffNoneTorn`, for appends one after another.
- RedactionPlain.PlainSecretDoesNotLeak: a value that is, with what follows it, part of a kept text is left out; there
  the two texts have different assignments in them.
- CommandSupervisor.Supervise: the clock moves on between two readings and every drain of the pipe is finite;
  without that the loop need not end. The blocking wait after a kill may be interrupted, so a stopped child is not
  claimed to be reaped.
- CpuInfoProperties.OrderOfBlocksDoesNotMatter: vendor and model name are not in it, they come from the first block
  that has them.
