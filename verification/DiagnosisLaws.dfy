/** What a diagnosis says, in the terms of the texts that it reads: the lines of the status and the words of the
  * journal.
  */
module DiagnosisLaws {
  import opened CoreTypes
  import opened EvidenceBody
  import opened RedactionLaws
  import opened RedactionPatterns
  import opened RedactionSpelling
  import opened ServiceDiagnosis
  import opened Splitting
  import opened UnitStatus
  import Text

  // ---- Lines of a status ----

  // The first line that begins with the key and an equals sign goes on with the value.
  predicate Says(lines: seq<string>, key: string, value: string) {
    if lines == [] then false
    else if key + "=" <= lines[0] then lines[0] == key + "=" + value
    else Says(lines[1..], key, value)
  }

  lemma LineBegins(line: string, key: string)
    requires IsKey(key)
    ensures key + "=" <= line <==> IndexOf('=', line) == |key| < |line| && line[..|key|] == key
    ensures key + "=" <= line ==> line == key + "=" + line[|key| + 1..]
  {
    if key + "=" <= line {
      assert line[..|key|] == (key + "=")[..|key|] == key && line[|key|] == (key + "=")[|key|] == '=';
      assert '=' !in key;
      IndexOfIsUnique('=', line, |key|);
    }
  }

  predicate HasValue(values: map<string, string>, key: string, value: string) {
    key in values && values[key] == value
  }

  lemma EmplacedHolds(values: map<string, string>, line: string, key: string, value: string)
    requires IsKey(key)
    ensures HasValue(Emplace(values, line), key, value) <==>
            if key !in values && key + "=" <= line then line == key + "=" + value else HasValue(values, key, value)
    ensures key in Emplace(values, line) <==> key in values || key + "=" <= line
  {
    LineBegins(line, key);
    assert key + "=" + value == line ==> line[|key| + 1..] == value;
  }

  lemma {:induction false} ValuesSay(values: map<string, string>, lines: seq<string>, key: string, value: string)
    requires IsKey(key)
    ensures HasValue(ValuesFrom(values, lines), key, value) <==>
            if key in values then values[key] == value else Says(lines, key, value)
    decreases |lines|
  {
    if lines != [] {
      EmplacedHolds(values, lines[0], key, value);
      ValuesSay(Emplace(values, lines[0]), lines[1..], key, value);
      if key !in values && key + "=" <= lines[0] {
        assert key in Emplace(values, lines[0]);
      }
    }
  }

  // A key has the value of its first line.
  lemma ValueIsSaid(body: string, key: string, value: string)
    requires IsKey(key)
    ensures key in ValuesOf(body) && ValuesOf(body)[key] == value <==> Says(Split('\n', body), key, value)
  {
    ValuesSay(map[], Split('\n', body), key, value);
  }

  // ---- The verdict ----

  ghost predicate SaysFailure(lines: seq<string>) {
    exists value :: value != "" && value != "success" && Says(lines, "service_result", value)
  }

  lemma VerdictKeys()
    ensures IsKey("active_state") && IsKey("service_result")
  {
  }

  lemma FailureIsSaid(body: string)
    ensures SaysFailure(Split('\n', body)) <==>
            "service_result" in ValuesOf(body) && ValuesOf(body)["service_result"] != "" &&
            ValuesOf(body)["service_result"] != "success"
  {
    VerdictKeys();
    if "service_result" in ValuesOf(body) {
      ValueIsSaid(body, "service_result", ValuesOf(body)["service_result"]);
    }
    forall value | Says(Split('\n', body), "service_result", value)
      ensures "service_result" in ValuesOf(body) && ValuesOf(body)["service_result"] == value
    {
      ValueIsSaid(body, "service_result", value);
    }
  }

  // What the lines of the status deserve, or else which of the two tools succeeded.
  lemma VerdictTellsLines(body: string, statusOk: bool, journalOk: bool)
    ensures var lines, verdict := Split('\n', body), Verdict(ValuesOf(body), statusOk, journalOk);
            if Says(lines, "active_state", "failed") then verdict == "service is failed"
            else if SaysFailure(lines) then verdict == "service reports a non-success result"
            else if Says(lines, "active_state", "active") then verdict == "service is active"
            else if !statusOk && journalOk then verdict == "status unavailable; journal evidence collected"
            else if statusOk && !journalOk then verdict == "status collected; journal unavailable"
            else verdict == "partial evidence collected"
  {
    VerdictKeys();
    FailureIsSaid(body);
    ValueIsSaid(body, "active_state", "failed");
    ValueIsSaid(body, "active_state", "active");
  }

  // Without evidence of the status it is the journal that decides.
  lemma VerdictWithoutStatus(status: ToolResponse, journalOk: bool)
    requires status.evidence == []
    ensures Verdict(ValuesOf(FirstBody(status)), status.status.Ok?, journalOk) ==
            if !status.status.Ok? && journalOk then "status unavailable; journal evidence collected"
            else if status.status.Ok? && !journalOk then "status collected; journal unavailable"
            else "partial evidence collected"
  {
    VerdictTellsLines("", status.status.Ok?, journalOk);
    SplitFirst('\n', "", "");
    forall key, value | IsKey(key) ensures !Says([""], key, value) {
    }
    VerdictKeys();
  }

  // ---- The journal ----

  // Space, tab, newline, carriage return.
  predicate IsBlankCode(c: char) {
    var code := c as int;
    code == 32 || code == 9 || code == 10 || code == 13
  }

  lemma EntriesByCode(journal: ToolResponse)
    ensures HasEntries(journal) <==>
            exists i, k :: 0 <= i < |journal.evidence| && 0 <= k < |journal.evidence[i].body| &&
              !IsBlankCode(journal.evidence[i].body[k])
  {
    forall i | 0 <= i < |journal.evidence|
      ensures Text.IsBlankText(journal.evidence[i].body) <==>
              forall k :: 0 <= k < |journal.evidence[i].body| ==> IsBlankCode(journal.evidence[i].body[k])
    {
      var body := journal.evidence[i].body;
      if Text.IsBlankText(body) {
        assert forall k :: 0 <= k < |body| ==> body[k] in body;
      }
    }
  }

  predicate IsFailureTerm(term: string) {
    || term == "failed" || term == "failure" || term == "error" || term == "denied" || term == "refused"
    || term == "address already in use"
  }

  lemma TermsAreTerms(term: string)
    ensures IsFailureTerm(term) <==> term in FAILURE_TERMS
  {
    assert FAILURE_TERMS[0] == "failed" && FAILURE_TERMS[1] == "failure" && FAILURE_TERMS[2] == "error";
    assert FAILURE_TERMS[3] == "denied" && FAILURE_TERMS[4] == "refused";
    assert FAILURE_TERMS[5] == "address already in use";
  }

  lemma TermHasNoCapital(term: string)
    requires IsFailureTerm(term)
    ensures HasNoCapital(term)
  {
  }

  lemma TermAt(text: string, i: nat, term: string)
    requires HasNoCapital(term)
    ensures IsSpelledAt(text, i, term) <==> Text.HasWordAt(term, text, i)
  {
    if IsSpelledAt(text, i, term) {
      SpelledIsWord(text, i, term);
    }
    if Text.HasWordAt(term, text, i) {
      WordIsSpelled(text, i, term);
    }
  }

  // The journal has a failure term exactly when one of the six stands somewhere in it, in any casing.
  lemma FailureTermIsSpelled(text: string)
    ensures HasFailureTerm(text) <==>
            exists i: nat, term: string :: i < |text| && IsFailureTerm(term) && IsSpelledAt(text, i, term)
  {
    forall i: nat, term: string | IsFailureTerm(term)
      ensures IsSpelledAt(text, i, term) <==> Text.HasWordAt(term, text, i)
    {
      TermHasNoCapital(term);
      TermAt(text, i, term);
    }
    forall term ensures IsFailureTerm(term) <==> term in FAILURE_TERMS {
      TermsAreTerms(term);
    }
    if HasFailureTerm(text) {
      var t: nat, i: nat :| t < |FAILURE_TERMS| && i < |text| && Text.HasWordAt(FAILURE_TERMS[t], text, i);
      assert FAILURE_TERMS[t] in FAILURE_TERMS;
      assert IsSpelledAt(text, i, FAILURE_TERMS[t]);
    }
    if i: nat, term: string :| i < |text| && IsFailureTerm(term) && IsSpelledAt(text, i, term) {
      var t: nat :| t < |FAILURE_TERMS| && FAILURE_TERMS[t] == term;
      assert Text.HasWordAt(FAILURE_TERMS[t], text, i);
    }
  }

  // ---- The lines around the status ----

  lemma OneMore(redact: Redactor, items: seq<Item>, key: string, value: string, before: string)
    requires Report(redact, items) == before
    ensures Report(redact, items + [Item(key, value)]) == before + (key + "=" + redact(value) + "\n")
  {
    ReportNext(redact, items, Item(key, value));
  }

  function Line(redact: Redactor, key: string, value: string): string {
    key + "=" + redact(value) + "\n"
  }

  lemma HeadIsWritten(redact: Redactor, unit: string, status: ToolResponse, journal: ToolResponse)
    ensures Report(redact, HeadItems(unit, status, journal)) ==
            Line(redact, "unit", unit)
            + Line(redact, "status_tool_status", StatusName(status.status))
            + Line(redact, "status_tool_message", status.message)
            + Line(redact, "journal_tool_status", StatusName(journal.status))
            + Line(redact, "journal_tool_message", journal.message)
  {
    var items: seq<Item>, text := [], "";
    assert Report(redact, items) == "";
    OneMore(redact, items, "unit", unit, text);
    items, text := items + [Item("unit", unit)], text + Line(redact, "unit", unit);
    OneMore(redact, items, "status_tool_status", StatusName(status.status), text);
    items := items + [Item("status_tool_status", StatusName(status.status))];
    text := text + Line(redact, "status_tool_status", StatusName(status.status));
    OneMore(redact, items, "status_tool_message", status.message, text);
    items := items + [Item("status_tool_message", status.message)];
    text := text + Line(redact, "status_tool_message", status.message);
    OneMore(redact, items, "journal_tool_status", StatusName(journal.status), text);
    items := items + [Item("journal_tool_status", StatusName(journal.status))];
    text := text + Line(redact, "journal_tool_status", StatusName(journal.status));
    OneMore(redact, items, "journal_tool_message", journal.message, text);
    assert items + [Item("journal_tool_message", journal.message)] == HeadItems(unit, status, journal);
  }

  lemma TailIsWritten(redact: Redactor, present: string, terms: string, verdict: string)
    ensures Report(redact, TailItems(present, terms, verdict)) ==
            Line(redact, "journal_entries_present", present)
            + Line(redact, "journal_failure_terms_present", terms)
            + Line(redact, "diagnosis", verdict)
  {
    var first, second := Item("journal_entries_present", present), Item("journal_failure_terms_present", terms);
    assert Report(redact, []) == "";
    OneMore(redact, [], "journal_entries_present", present, "");
    OneMore(redact, [] + [first], "journal_failure_terms_present", terms,
            "" + Line(redact, "journal_entries_present", present));
    OneMore(redact, [] + [first] + [second], "diagnosis", verdict,
            "" + Line(redact, "journal_entries_present", present)
            + Line(redact, "journal_failure_terms_present", terms));
    assert [] + [first] + [second] + [Item("diagnosis", verdict)] == TailItems(present, terms, verdict);
  }

  // The end of a diagnosis: whether the journal has entries, whether it names a failure, and the verdict.
  lemma TailTells(redact: Redactor, journal: ToolResponse, verdict: string)
    ensures var has := exists i, k :: 0 <= i < |journal.evidence| && 0 <= k < |journal.evidence[i].body| &&
                                      !IsBlankCode(journal.evidence[i].body[k]);
            var text := if journal.evidence == [] then "" else journal.evidence[0].body;
            var names := exists i: nat, term: string ::
                           i < |text| && IsFailureTerm(term) && IsSpelledAt(text, i, term);
            Report(redact, TailItems(YesNo(HasEntries(journal)), YesNo(HasFailureTerm(FirstBody(journal))), verdict)) ==
            Line(redact, "journal_entries_present", if has then "true" else "false")
            + Line(redact, "journal_failure_terms_present", if names then "true" else "false")
            + Line(redact, "diagnosis", verdict)
  {
    EntriesByCode(journal);
    FailureTermIsSpelled(FirstBody(journal));
    TailIsWritten(redact, YesNo(HasEntries(journal)), YesNo(HasFailureTerm(FirstBody(journal))), verdict);
  }

  // ---- The status by its keys ----

  lemma ValueOfItem(redact: Redactor, status: UnitStatus, values: map<string, string>, i: nat, item: Item)
    requires Holds(values, Redacted(redact, ItemsOf(status))) && i < |ItemsOf(status)| && ItemsOf(status)[i] == item
    ensures HasValue(values, item.key, redact(item.value))
  {
    KeyHolds(values, redact, ItemsOf(status), i);
  }

  lemma NameValues(redact: Redactor, status: UnitStatus, values: map<string, string>)
    requires Holds(values, Redacted(redact, ItemsOf(status)))
    ensures HasValue(values, "unit", redact(status.unit)) && HasValue(values, "id", redact(status.id))
    ensures HasValue(values, "description", redact(status.description))
    ensures HasValue(values, "fragment_path", redact(status.fragmentPath))
  {
    ValueOfItem(redact, status, values, 0, Item("unit", status.unit));
    ValueOfItem(redact, status, values, 1, Item("id", status.id));
    ValueOfItem(redact, status, values, 2, Item("description", status.description));
    ValueOfItem(redact, status, values, 7, Item("fragment_path", status.fragmentPath));
  }

  lemma StateValues(redact: Redactor, status: UnitStatus, values: map<string, string>)
    requires Holds(values, Redacted(redact, ItemsOf(status)))
    ensures HasValue(values, "load_state", redact(status.loadState))
    ensures HasValue(values, "active_state", redact(status.activeState))
    ensures HasValue(values, "sub_state", redact(status.subState))
    ensures HasValue(values, "unit_file_state", redact(status.unitFileState))
  {
    ValueOfItem(redact, status, values, 3, Item("load_state", status.loadState));
    ValueOfItem(redact, status, values, 4, Item("active_state", status.activeState));
    ValueOfItem(redact, status, values, 5, Item("sub_state", status.subState));
    ValueOfItem(redact, status, values, 6, Item("unit_file_state", status.unitFileState));
  }

  lemma ServiceValues(redact: Redactor, status: UnitStatus, values: map<string, string>)
    requires Holds(values, Redacted(redact, ItemsOf(status))) && status.isService
    ensures HasValue(values, "service_result", redact(status.serviceResult))
    ensures HasValue(values, "exec_main_code", redact(status.execMainCode))
    ensures HasValue(values, "exec_main_status", redact(status.execMainStatus))
  {
    ValueOfItem(redact, status, values, 8, Item("service_result", status.serviceResult));
    ValueOfItem(redact, status, values, 9, Item("exec_main_code", status.execMainCode));
    ValueOfItem(redact, status, values, 10, Item("exec_main_status", status.execMainStatus));
  }

  // A status that fits its body is read back by name: each property of the unit under its key, redacted.
  lemma StatusIsReadByKey(status: UnitStatus)
    requires IsOneLine(status) && |TextOf(status)| <= MAX_BODY_BYTES
    ensures var values := ValuesOf(Bounded(MAX_BODY_BYTES, TextOf(status)));
            && HasValue(values, "unit", RedactLikelySecret(status.unit))
            && HasValue(values, "id", RedactLikelySecret(status.id))
            && HasValue(values, "description", RedactLikelySecret(status.description))
            && HasValue(values, "load_state", RedactLikelySecret(status.loadState))
            && HasValue(values, "active_state", RedactLikelySecret(status.activeState))
            && HasValue(values, "sub_state", RedactLikelySecret(status.subState))
            && HasValue(values, "unit_file_state", RedactLikelySecret(status.unitFileState))
            && HasValue(values, "fragment_path", RedactLikelySecret(status.fragmentPath))
            && (status.isService ==>
                  && HasValue(values, "service_result", RedactLikelySecret(status.serviceResult))
                  && HasValue(values, "exec_main_code", RedactLikelySecret(status.execMainCode))
                  && HasValue(values, "exec_main_status", RedactLikelySecret(status.execMainStatus)))
            && |values| == if status.isService then 11 else 8
  {
    var values := ValuesOf(Bounded(MAX_BODY_BYTES, TextOf(status)));
    StatusRoundTrip(status);
    NameValues(RedactLikelySecret, status, values);
    StateValues(RedactLikelySecret, status, values);
    if status.isService {
      ServiceValues(RedactLikelySecret, status, values);
    }
    KeysOfStatus(RedactLikelySecret, status, values);
  }

  ghost function KeysOf(items: seq<Item>): set<string> {
    set i | 0 <= i < |items| :: items[i].key
  }

  lemma {:induction false} CountOfKeys(items: seq<Item>)
    requires forall i, j :: 0 <= i < j < |items| ==> items[i].key != items[j].key
    ensures |KeysOf(items)| == |items|
  {
    if items != [] {
      var before, last := items[..|items| - 1], items[|items| - 1];
      CountOfKeys(before);
      assert KeysOf(items) == KeysOf(before) + {last.key};
    }
  }

  lemma KeysOfStatus(redact: Redactor, status: UnitStatus, values: map<string, string>)
    requires Holds(values, Redacted(redact, ItemsOf(status)))
    ensures |values| == if status.isService then 11 else 8
  {
    KeysAreDistinct(status);
    var items := ItemsOf(status);
    forall i, j | 0 <= i < j < |items| ensures items[i].key != items[j].key {
      assert Position(items[i].key) == i && Position(items[j].key) == j;
    }
    CountOfKeys(items);
    SameKeys(redact, items, values);
    assert |values| == |values.Keys|;
  }

  lemma SameKeys(redact: Redactor, items: seq<Item>, values: map<string, string>)
    requires Holds(values, Redacted(redact, items))
    ensures values.Keys == KeysOf(items)
  {
    assert forall i :: 0 <= i < |items| ==> Redacted(redact, items)[i].key == items[i].key;
  }
}
