/** The diagnosis of a service reads the status text of another tool. Nothing is lost on the way: it shows the
  * lines of that text again, and its verdict is the one the unit deserves.
  */
module ServiceDiagnosis {
  import opened CoreTypes
  import opened EvidenceBody
  import opened RedactionPatterns
  import opened RedactionWords
  import opened UnitStatus
  import Text

  const MAX_DIAGNOSIS_BYTES := 12 * 1024

  const SHOWN_KEYS := ["load_state", "active_state", "sub_state", "unit_file_state", "fragment_path",
                       "service_result", "exec_main_code", "exec_main_status"]

  const FAILURE_TERMS := ["failed", "failure", "error", "denied", "refused", "address already in use"]

  function FirstBody(response: ToolResponse): string {
    if response.evidence == [] then "" else response.evidence[0].body
  }

  predicate HasEntries(response: ToolResponse) {
    exists i :: 0 <= i < |response.evidence| && !Text.IsBlankText(response.evidence[i].body)
  }

  predicate HasFailureTerm(text: string) {
    exists t, i :: 0 <= t < |FAILURE_TERMS| && 0 <= i < |text| && Text.HasWordAt(FAILURE_TERMS[t], text, i)
  }

  function YesNo(yes: bool): string {
    if yes then "true" else "false"
  }

  // The values worth showing, in the order of the keys from k on.
  function ShownItems(values: map<string, string>, keys: seq<string>): seq<Item> {
    if keys == [] then []
    else
      (if keys[0] in values && values[keys[0]] != "" then [Item(keys[0], values[keys[0]])] else [])
      + ShownItems(values, keys[1..])
  }

  function Verdict(values: map<string, string>, statusOk: bool, journalOk: bool): string {
    if "active_state" in values && values["active_state"] == "failed" then "service is failed"
    else if "service_result" in values && values["service_result"] != "" && values["service_result"] != "success" then
      "service reports a non-success result"
    else if "active_state" in values && values["active_state"] == "active" then "service is active"
    else if !statusOk && journalOk then "status unavailable; journal evidence collected"
    else if statusOk && !journalOk then "status collected; journal unavailable"
    else "partial evidence collected"
  }

  function HeadItems(unit: string, status: ToolResponse, journal: ToolResponse): seq<Item> {
    [Item("unit", unit),
     Item("status_tool_status", StatusName(status.status)), Item("status_tool_message", status.message),
     Item("journal_tool_status", StatusName(journal.status)), Item("journal_tool_message", journal.message)]
  }

  function TailItems(present: string, terms: string, verdict: string): seq<Item> {
    [Item("journal_entries_present", present), Item("journal_failure_terms_present", terms),
     Item("diagnosis", verdict)]
  }

  function DiagnosisItems(unit: string, status: ToolResponse, journal: ToolResponse): seq<Item> {
    var values := ValuesOf(FirstBody(status));
    HeadItems(unit, status, journal)
    + ShownItems(values, SHOWN_KEYS)
    + TailItems(YesNo(HasEntries(journal)), YesNo(HasFailureTerm(FirstBody(journal))),
                Verdict(values, status.status.Ok?, journal.status.Ok?))
  }

  // The lines of a report whose values pass through a redactor.
  function Report(redact: Redactor, items: seq<Item>): string {
    Concat(LinesOf(Redacted(redact, items)))
  }

  lemma {:induction false} LinesAppend(items: seq<Item>, more: seq<Item>)
    ensures LinesOf(items + more) == LinesOf(items) + LinesOf(more)
  {
    if items == [] {
      assert items + more == more;
    } else {
      assert (items + more)[1..] == items[1..] + more;
      LinesAppend(items[1..], more);
    }
  }

  lemma ReportNext(redact: Redactor, items: seq<Item>, item: Item)
    ensures Report(redact, items + [item]) == Report(redact, items) + (item.key + "=" + redact(item.value) + "\n")
  {
    var line := Item(item.key, redact(item.value));
    assert Redacted(redact, items + [item]) == Redacted(redact, items) + [line];
    LinesAppend(Redacted(redact, items), [line]);
    ConcatAppend(LinesOf(Redacted(redact, items)), LinesOf([line]));
    assert LinesOf([line]) == [LineOf(line)] + LinesOf([]);
    assert Concat([LineOf(line)]) == LineOf(line) + Concat([]);
  }

  method AppendLine(b: Body, redact: Redactor, key: string, value: string, ghost items: seq<Item>)
    requires b.Valid() && b.appended == Report(redact, items)
    modifies b
    ensures b.Valid() && b.appended == Report(redact, items + [Item(key, value)])
  {
    b.AppendBounded(key + "=" + redact(value) + "\n");
    ReportNext(redact, items, Item(key, value));
  }

  lemma ShownNext(values: map<string, string>, keys: seq<string>, i: nat, items: seq<Item>)
    requires i < |keys|
    ensures items + ShownItems(values, keys[i..]) ==
            (if keys[i] in values && values[keys[i]] != "" then items + [Item(keys[i], values[keys[i]])] else items)
            + ShownItems(values, keys[i + 1..])
  {
    assert keys[i..][1..] == keys[i + 1..];
  }

  method AppendShown(b: Body, redact: Redactor, values: map<string, string>, keys: seq<string>,
                     ghost before: seq<Item>)
    requires b.Valid() && b.appended == Report(redact, before)
    modifies b
    ensures b.Valid() && b.appended == Report(redact, before + ShownItems(values, keys))
  {
    ghost var items, all := before, before + ShownItems(values, keys);
    assert keys[0..] == keys;
    for i := 0 to |keys|
      invariant b.Valid() && b.appended == Report(redact, items)
      invariant items + ShownItems(values, keys[i..]) == all
    {
      ShownNext(values, keys, i, items);
      if keys[i] in values && values[keys[i]] != "" {
        AppendLine(b, redact, keys[i], values[keys[i]], items);
        items := items + [Item(keys[i], values[keys[i]])];
      }
    }
    assert items + ShownItems(values, []) == items;
  }

  method AppendHead(b: Body, redact: Redactor, unit: string, status: ToolResponse, journal: ToolResponse)
    requires b.Valid() && b.appended == ""
    modifies b
    ensures b.Valid() && b.appended == Report(redact, HeadItems(unit, status, journal))
  {
    ghost var items := [];
    assert Report(redact, items) == "";
    AppendLine(b, redact, "unit", unit, items);
    items := items + [Item("unit", unit)];
    AppendLine(b, redact, "status_tool_status", StatusName(status.status), items);
    items := items + [Item("status_tool_status", StatusName(status.status))];
    AppendLine(b, redact, "status_tool_message", status.message, items);
    items := items + [Item("status_tool_message", status.message)];
    AppendLine(b, redact, "journal_tool_status", StatusName(journal.status), items);
    items := items + [Item("journal_tool_status", StatusName(journal.status))];
    AppendLine(b, redact, "journal_tool_message", journal.message, items);
    assert items + [Item("journal_tool_message", journal.message)] == HeadItems(unit, status, journal);
  }

  method AppendTail(b: Body, redact: Redactor, present: string, terms: string, verdict: string,
                    ghost items: seq<Item>)
    requires b.Valid() && b.appended == Report(redact, items)
    modifies b
    ensures b.Valid() && b.appended == Report(redact, items + TailItems(present, terms, verdict))
  {
    AppendLine(b, redact, "journal_entries_present", present, items);
    ghost var more := items + [Item("journal_entries_present", present)];
    AppendLine(b, redact, "journal_failure_terms_present", terms, more);
    more := more + [Item("journal_failure_terms_present", terms)];
    AppendLine(b, redact, "diagnosis", verdict, more);
    assert more + [Item("diagnosis", verdict)] == items + TailItems(present, terms, verdict);
  }

  method DiagnosisBody(redact: Redactor, unit: string, status: ToolResponse, journal: ToolResponse)
    returns (body: string)
    ensures body == Bounded(MAX_DIAGNOSIS_BYTES, Report(redact, DiagnosisItems(unit, status, journal)))
  {
    var values := ParseKeyValueLines(FirstBody(status));
    var b := new Body(MAX_DIAGNOSIS_BYTES);
    AppendHead(b, redact, unit, status, journal);
    AppendShown(b, redact, values, SHOWN_KEYS, HeadItems(unit, status, journal));
    AppendTail(b, redact, YesNo(HasEntries(journal)), YesNo(HasFailureTerm(FirstBody(journal))),
               Verdict(values, status.status.Ok?, journal.status.Ok?),
               HeadItems(unit, status, journal) + ShownItems(values, SHOWN_KEYS));
    return b.body;
  }

  method Diagnose(requestId: string, unit: string, status: ToolResponse, journal: ToolResponse, now: string)
    returns (response: ToolResponse)
    ensures Text.IsBlankText(unit) ==>
              response == ToolResponse(requestId, Error, "service.diagnose requires a non-empty unit parameter", [])
    ensures !Text.IsBlankText(unit) ==>
              && response.requestId == requestId
              && response.status == (if status.status.Ok? || journal.status.Ok? then Ok else Error)
              && response.message ==
                   (if response.status.Ok? then "service diagnosis collected" else "service diagnosis failed")
              && response.evidence != [] && response.evidence[1..] == status.evidence + journal.evidence
              && var body := Bounded(12 * 1024,
                                     Report(RedactLikelySecret, DiagnosisItems(unit, status, journal)));
                 response.evidence[0] ==
                 Evidence(requestId + ":service.diagnose", "service.diagnose",
                          "aggregated service diagnosis for " + unit, body, now)
  {
    if Text.IsBlankText(unit) {
      return ToolResponse(requestId, Error, "service.diagnose requires a non-empty unit parameter", []);
    }
    var anyOk := status.status.Ok? || journal.status.Ok?;
    var body := DiagnosisBody(RedactLikelySecret, unit, status, journal);
    var evidence := [Evidence(requestId + ":service.diagnose", "service.diagnose",
                              "aggregated service diagnosis for " + unit, body, now)];
    evidence := evidence + (status.evidence + journal.evidence);
    return ToolResponse(requestId, if anyOk then Ok else Error,
                        if anyOk then "service diagnosis collected" else "service diagnosis failed", evidence);
  }

  // ---- Two hops ----

  // What the status of the unit itself deserves, when its status tool succeeded.
  function VerdictOfUnit(unit: UnitStatus, journalOk: bool): string {
    if unit.activeState == "failed" then "service is failed"
    else if unit.isService && unit.serviceResult != "" && unit.serviceResult != "success" then
      "service reports a non-success result"
    else if unit.activeState == "active" then "service is active"
    else if !journalOk then "status collected; journal unavailable"
    else "partial evidence collected"
  }

  lemma KeyHolds(values: map<string, string>, redact: Redactor, items: seq<Item>, i: nat)
    requires i < |items| && Holds(values, Redacted(redact, items))
    ensures items[i].key in values && values[items[i].key] == redact(items[i].value)
  {
    assert Redacted(redact, items)[i].key == items[i].key;
  }

  lemma NoSuchKey(values: map<string, string>, redact: Redactor, items: seq<Item>, key: string)
    requires Holds(values, Redacted(redact, items)) && forall i :: 0 <= i < |items| ==> items[i].key != key
    ensures key !in values
  {
  }

  ghost predicate KeepsWord(redact: Redactor, word: string) {
    forall value :: redact(value) == word <==> value == word
  }

  ghost predicate KeepsStatusWords(redact: Redactor) {
    KeepsWord(redact, "failed") && KeepsWord(redact, "active") && KeepsWord(redact, "") && KeepsWord(redact, "success")
  }

  lemma RedactorKeepsWord(word: string)
    requires IsPlain(word)
    ensures KeepsWord(RedactLikelySecret, word)
  {
    forall value ensures RedactLikelySecret(value) == word <==> value == word {
      RedactedIsPlainWord(value, word);
    }
  }

  lemma RedactorKeepsStatusWords()
    ensures KeepsStatusWords(RedactLikelySecret)
  {
    RedactorKeepsWord("failed");
    RedactorKeepsWord("active");
    RedactorKeepsWord("");
    RedactorKeepsWord("success");
  }

  lemma KeysOfUnit(unit: UnitStatus)
    ensures var items := ItemsOf(unit);
            && 8 <= |items| && items[4] == Item("active_state", unit.activeState)
            && (unit.isService ==> |items| == 11 && items[8] == Item("service_result", unit.serviceResult))
            && (!unit.isService ==> forall i :: 0 <= i < |items| ==> items[i].key != "service_result")
  {
    KeysAreDistinct(unit);
    assert Position("service_result") == 8;
  }

  lemma VerdictThroughText(redact: Redactor, unit: UnitStatus, values: map<string, string>, journalOk: bool)
    requires KeepsStatusWords(redact) && Holds(values, Redacted(redact, ItemsOf(unit)))
    ensures Verdict(values, true, journalOk) == VerdictOfUnit(unit, journalOk)
  {
    var items := ItemsOf(unit);
    KeysOfUnit(unit);
    KeyHolds(values, redact, items, 4);
    if unit.isService {
      KeyHolds(values, redact, items, 8);
    } else {
      NoSuchKey(values, redact, items, "service_result");
    }
  }

  // A verdict that was reached through redacted text is the verdict on the unit.
  lemma VerdictIsOfUnit(unit: UnitStatus, status: ToolResponse, journalOk: bool)
    requires IsOneLine(unit) && |TextOf(unit)| <= MAX_BODY_BYTES
    requires FirstBody(status) == Bounded(MAX_BODY_BYTES, TextOf(unit))
    ensures Verdict(ValuesOf(FirstBody(status)), true, journalOk) == VerdictOfUnit(unit, journalOk)
  {
    StatusRoundTrip(unit);
    RedactorKeepsStatusWords();
    VerdictThroughText(RedactLikelySecret, unit, ValuesOf(FirstBody(status)), journalOk);
  }

  // The items of a status that a diagnosis shows: from the fourth on, unless they are empty.
  function NonEmpty(items: seq<Item>): seq<Item> {
    if items == [] then [] else (if items[0].value == "" then [] else [items[0]]) + NonEmpty(items[1..])
  }

  lemma {:induction false} ShownAgain(values: map<string, string>, items: seq<Item>, keys: seq<string>)
    requires |items| <= |keys| && forall i :: 0 <= i < |items| ==> items[i].key == keys[i]
    requires forall i :: 0 <= i < |items| ==> items[i].key in values && values[items[i].key] == items[i].value
    requires forall i :: |items| <= i < |keys| ==> keys[i] !in values
    ensures ShownItems(values, keys) == NonEmpty(items)
  {
    if keys != [] {
      if items == [] {
        ShownAgain(values, [], keys[1..]);
      } else {
        ShownAgain(values, items[1..], keys[1..]);
        assert items[0] == Item(keys[0], values[keys[0]]);
      }
    }
  }

  lemma {:induction false} ShownValuesAreFixed(redact: Redactor, items: seq<Item>)
    requires forall i :: 0 <= i < |items| ==> redact(items[i].value) == items[i].value
    ensures Redacted(redact, NonEmpty(items)) == NonEmpty(items)
  {
    if items != [] {
      ShownValuesAreFixed(redact, items[1..]);
      if items[0].value == "" {
        assert NonEmpty(items) == [] + NonEmpty(items[1..]);
      } else {
        assert NonEmpty(items)[1..] == NonEmpty(items[1..]);
      }
    }
  }

  lemma ShownKeysOfUnit(unit: UnitStatus)
    ensures var items := ItemsOf(unit);
            && 8 <= |items| <= 11 == 3 + |SHOWN_KEYS|
            && (forall i :: 0 <= i < |items| - 3 ==> items[3 + i].key == SHOWN_KEYS[i])
            && (forall i :: |items| - 3 <= i < 8 ==> forall k :: 0 <= k < |items| ==> items[k].key != SHOWN_KEYS[i])
  {
    KeysAreDistinct(unit);
    var items := ItemsOf(unit);
    if !unit.isService {
      assert Position(SHOWN_KEYS[5]) == 8 && Position(SHOWN_KEYS[6]) == 9 && Position(SHOWN_KEYS[7]) == 10;
    }
  }

  lemma StatusLinesShown(redact: Redactor, unit: UnitStatus, values: map<string, string>)
    requires Holds(values, Redacted(redact, ItemsOf(unit)))
    requires forall value :: redact(redact(value)) == redact(value)
    ensures var shown := NonEmpty(Redacted(redact, ItemsOf(unit))[3..]);
            ShownItems(values, SHOWN_KEYS) == shown && Redacted(redact, shown) == shown
  {
    ShownKeysOfUnit(unit);
    var items := Redacted(redact, ItemsOf(unit));
    forall i | |items| - 3 <= i < 8 ensures SHOWN_KEYS[i] !in values {
      NoSuchKey(values, redact, ItemsOf(unit), SHOWN_KEYS[i]);
    }
    var last := items[3..];
    assert forall i :: 0 <= i < |last| ==> last[i] == items[3 + i];
    ShownAgain(values, last, SHOWN_KEYS);
    ShownValuesAreFixed(redact, last);
  }

  // The lines of the status, from the load state on, stand in the diagnosis as they stood in the status.
  lemma DiagnosisShowsStatusLines(unit: UnitStatus, status: ToolResponse)
    requires IsOneLine(unit) && |TextOf(unit)| <= MAX_BODY_BYTES
    requires FirstBody(status) == Bounded(MAX_BODY_BYTES, TextOf(unit))
    ensures LinesOf(Redacted(RedactLikelySecret, ShownItems(ValuesOf(FirstBody(status)), SHOWN_KEYS))) ==
            LinesOf(NonEmpty(Redacted(RedactLikelySecret, ItemsOf(unit))[3..]))
  {
    StatusRoundTrip(unit);
    forall value: string ensures RedactLikelySecret(RedactLikelySecret(value)) == RedactLikelySecret(value) {
      RedactingTwiceIsRedactingOnce(value);
    }
    StatusLinesShown(RedactLikelySecret, unit, ValuesOf(FirstBody(status)));
  }

  lemma ReportAppend(redact: Redactor, items: seq<Item>, more: seq<Item>)
    ensures Report(redact, items + more) == Report(redact, items) + Report(redact, more)
  {
    assert Redacted(redact, items + more) == Redacted(redact, items) + Redacted(redact, more);
    LinesAppend(Redacted(redact, items), Redacted(redact, more));
    ConcatAppend(LinesOf(Redacted(redact, items)), LinesOf(Redacted(redact, more)));
  }

  // A diagnosis that fits is its head, the status lines as they stood in the status, and a tail with the verdict that
  // the unit deserves.
  lemma DiagnosisIsOfUnit(name: string, unit: UnitStatus, status: ToolResponse, journal: ToolResponse)
    requires IsOneLine(unit) && |TextOf(unit)| <= MAX_BODY_BYTES && status.status.Ok?
    requires FirstBody(status) == Bounded(MAX_BODY_BYTES, TextOf(unit))
    requires |Report(RedactLikelySecret, DiagnosisItems(name, status, journal))| <= MAX_DIAGNOSIS_BYTES
    ensures Bounded(MAX_DIAGNOSIS_BYTES, Report(RedactLikelySecret, DiagnosisItems(name, status, journal))) ==
            Report(RedactLikelySecret, HeadItems(name, status, journal))
            + Concat(LinesOf(NonEmpty(Redacted(RedactLikelySecret, ItemsOf(unit))[3..])))
            + Report(RedactLikelySecret, TailItems(YesNo(HasEntries(journal)),
                                                   YesNo(HasFailureTerm(FirstBody(journal))),
                                                   VerdictOfUnit(unit, journal.status.Ok?)))
  {
    VerdictIsOfUnit(unit, status, journal.status.Ok?);
    DiagnosisShowsStatusLines(unit, status);
    ReportOfDiagnosis(RedactLikelySecret, name, status, journal);
  }

  lemma ReportOfDiagnosis(redact: Redactor, name: string, status: ToolResponse, journal: ToolResponse)
    ensures var values := ValuesOf(FirstBody(status));
            Report(redact, DiagnosisItems(name, status, journal)) ==
            Report(redact, HeadItems(name, status, journal))
            + Concat(LinesOf(Redacted(redact, ShownItems(values, SHOWN_KEYS))))
            + Report(redact, TailItems(YesNo(HasEntries(journal)), YesNo(HasFailureTerm(FirstBody(journal))),
                                       Verdict(values, status.status.Ok?, journal.status.Ok?)))
  {
    var values := ValuesOf(FirstBody(status));
    var head, shown := HeadItems(name, status, journal), ShownItems(values, SHOWN_KEYS);
    var tail := TailItems(YesNo(HasEntries(journal)), YesNo(HasFailureTerm(FirstBody(journal))),
                          Verdict(values, status.status.Ok?, journal.status.Ok?));
    ReportAppend(redact, head + shown, tail);
    ReportAppend(redact, head, shown);
  }
}
