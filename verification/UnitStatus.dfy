/** The status of a unit as key=value lines, and the reader of such lines. */
module UnitStatus {
  import opened EvidenceBody
  import opened RedactionPatterns
  import opened RedactionSecrets
  import opened Splitting

  const MAX_BODY_BYTES := 64 * 1024

  datatype UnitStatus = UnitStatus(unit: string, id: string, description: string, loadState: string,
                                   activeState: string, subState: string, unitFileState: string,
                                   fragmentPath: string, isService: bool, serviceResult: string,
                                   execMainCode: string, execMainStatus: string)

  datatype Item = Item(key: string, value: string)

  function ManagerItems(status: UnitStatus): seq<Item> {
    [Item("unit", status.unit), Item("id", status.id), Item("description", status.description),
     Item("load_state", status.loadState), Item("active_state", status.activeState),
     Item("sub_state", status.subState), Item("unit_file_state", status.unitFileState),
     Item("fragment_path", status.fragmentPath)]
  }

  function ServiceItems(status: UnitStatus): seq<Item> {
    [Item("service_result", status.serviceResult), Item("exec_main_code", status.execMainCode),
     Item("exec_main_status", status.execMainStatus)]
  }

  function ItemsOf(status: UnitStatus): seq<Item> {
    ManagerItems(status) + if status.isService then ServiceItems(status) else []
  }

  function Redacted(redact: Redactor, items: seq<Item>): (redacted: seq<Item>)
    ensures |redacted| == |items|
    ensures forall i :: 0 <= i < |items| ==> redacted[i] == Item(items[i].key, redact(items[i].value))
  {
    if items == [] then [] else [Item(items[0].key, redact(items[0].value))] + Redacted(redact, items[1..])
  }

  function LineOf(item: Item): string {
    item.key + "=" + item.value + "\n"
  }

  function LinesOf(items: seq<Item>): seq<string> {
    if items == [] then [] else [LineOf(items[0])] + LinesOf(items[1..])
  }

  // The text of a status, before it is bounded.
  function TextOf(status: UnitStatus): string {
    Concat(LinesOf(Redacted(RedactLikelySecret, ItemsOf(status))))
  }

  method FormatSystemdUnitStatusBody(status: UnitStatus) returns (body: string)
    ensures body == Bounded(64 * 1024, TextOf(status))
  {
    body := FormatAll(MAX_BODY_BYTES, LinesOf(Redacted(RedactLikelySecret, ItemsOf(status))));
  }

  // The first line with a key wins; a line without a key says nothing.
  function Emplace(values: map<string, string>, line: string): map<string, string> {
    var separator := IndexOf('=', line);
    if separator == |line| || separator == 0 || line[..separator] in values then values
    else values[line[..separator] := line[separator + 1..]]
  }

  function ValuesFrom(values: map<string, string>, lines: seq<string>): map<string, string>
    decreases |lines|
  {
    if lines == [] then values else ValuesFrom(Emplace(values, lines[0]), lines[1..])
  }

  function ValuesOf(body: string): map<string, string> {
    ValuesFrom(map[], Split('\n', body))
  }

  lemma ValuesNext(values: map<string, string>, line: string, more: seq<string>)
    ensures ValuesFrom(values, [line] + more) == ValuesFrom(Emplace(values, line), more)
  {
    assert ([line] + more)[1..] == more;
  }

  lemma ValuesOfNothing(values: map<string, string>)
    ensures ValuesFrom(values, Split('\n', "")) == values
  {
    assert Split('\n', "") == [""] + [];
    ValuesNext(values, "", []);
  }

  // std::getline gives the lines of the body, without the empty one at its end.
  method ParseKeyValueLines(body: string) returns (values: map<string, string>)
    ensures values == ValuesOf(body)
  {
    values := map[];
    var start := 0;
    ghost var lines, all := Split('\n', body), ValuesOf(body);
    assert body[0..] == body;
    while start < |body|
      invariant start <= |body| && lines == Split('\n', body[start..])
      invariant all == ValuesFrom(values, lines)
      decreases |body| - start
    {
      var line, next, last;
      line, next, last, lines := LineFrom(body, start);
      ValuesNext(values, line, lines);
      var separator := IndexOf('=', line);
      if separator < |line| && separator != 0 {
        if line[..separator] !in values {
          values := values[line[..separator] := line[separator + 1..]];
        }
      }
      if last {
        return;
      }
      start := next;
    }
    assert body[start..] == "";
    ValuesOfNothing(values);
  }

  // ---- What is printed is read back ----

  predicate IsKey(key: string) {
    key != "" && forall i :: 0 <= i < |key| ==> key[i] != '=' && key[i] != '\n'
  }

  predicate ArePrintable(items: seq<Item>) {
    && (forall i :: 0 <= i < |items| ==> IsKey(items[i].key) && '\n' !in items[i].value)
    && (forall i, j :: 0 <= i < j < |items| ==> items[i].key != items[j].key)
  }

  lemma LineIsRead(values: map<string, string>, item: Item)
    requires IsKey(item.key) && '\n' !in item.value && item.key !in values
    ensures '\n' !in item.key + "=" + item.value
    ensures Emplace(values, item.key + "=" + item.value) == values[item.key := item.value]
  {
    var line := item.key + "=" + item.value;
    assert line[..|item.key|] == item.key && line[|item.key| + 1..] == item.value;
    IndexOfIsUnique('=', line, |item.key|);
  }

  lemma FirstLineIsRead(values: map<string, string>, item: Item, more: seq<string>)
    requires IsKey(item.key) && '\n' !in item.value && item.key !in values
    ensures ValuesFrom(values, Split('\n', Concat([LineOf(item)] + more))) ==
            ValuesFrom(values[item.key := item.value], Split('\n', Concat(more)))
  {
    var line := item.key + "=" + item.value;
    LineIsRead(values, item);
    assert ([LineOf(item)] + more)[1..] == more;
    SplitHead('\n', line, Concat(more), LineOf(item) + Concat(more));
    ValuesNext(values, line, Split('\n', Concat(more)));
  }

  // Every key has its value, and there is no other key.
  ghost predicate Holds(values: map<string, string>, items: seq<Item>) {
    && (forall i :: 0 <= i < |items| ==> items[i].key in values && values[items[i].key] == items[i].value)
    && (forall key :: key in values ==> exists i :: 0 <= i < |items| && items[i].key == key)
  }

  lemma NextHolds(values: map<string, string>, items: seq<Item>, n: nat)
    requires n < |items| && ArePrintable(items) && Holds(values, items[..n])
    ensures items[n].key !in values
    ensures Holds(values[items[n].key := items[n].value], items[..n + 1])
  {
    var before, after := items[..n], items[..n + 1];
    assert forall i :: 0 <= i < n ==> before[i] == items[i] == after[i];
    assert after[n] == items[n];
  }

  lemma {:induction false} ItemsAreRead(items: seq<Item>, n: nat, values: map<string, string>)
    requires n <= |items| && ArePrintable(items) && Holds(values, items[..n])
    ensures Holds(ValuesFrom(values, Split('\n', Concat(LinesOf(items[n..])))), items)
    decreases |items| - n
  {
    if n == |items| {
      ValuesOfNothing(values);
      assert items[..n] == items;
    } else {
      NextHolds(values, items, n);
      assert items[n..][1..] == items[n + 1..];
      FirstLineIsRead(values, items[n], LinesOf(items[n + 1..]));
      ItemsAreRead(items, n + 1, values[items[n].key := items[n].value]);
    }
  }

  // No value of the status has a newline in it.
  predicate IsOneLine(status: UnitStatus) {
    forall i :: 0 <= i < |ItemsOf(status)| ==> '\n' !in ItemsOf(status)[i].value
  }

  // Where a key stands in a status: its length tells, with its first letter for the two of length 14.
  function Position(key: string): nat {
    match |key|
    case 4 => 0
    case 2 => 1
    case 11 => 2
    case 10 => 3
    case 12 => 4
    case 9 => 5
    case 15 => 6
    case 13 => 7
    case 14 => if key[0] == 's' then 8 else 9
    case _ => 10
  }

  predicate HavePositions(items: seq<Item>, from: nat) {
    forall i :: 0 <= i < |items| ==> IsKey(items[i].key) && Position(items[i].key) == from + i
  }

  lemma NameKeys()
    ensures IsKey("unit") && IsKey("id") && IsKey("description") && IsKey("fragment_path")
  {
  }

  lemma StateKeys()
    ensures IsKey("load_state") && IsKey("active_state") && IsKey("sub_state") && IsKey("unit_file_state")
  {
  }

  lemma ServiceKeys()
    ensures IsKey("service_result") && IsKey("exec_main_code") && IsKey("exec_main_status")
  {
  }

  lemma ManagerPositions(status: UnitStatus)
    ensures HavePositions(ManagerItems(status), 0)
  {
    NameKeys();
    StateKeys();
  }

  lemma ServicePositions(status: UnitStatus)
    ensures HavePositions(ServiceItems(status), 8)
  {
    ServiceKeys();
  }

  lemma KeysAreDistinct(status: UnitStatus)
    ensures HavePositions(ItemsOf(status), 0)
  {
    ManagerPositions(status);
    ServicePositions(status);
    PositionsGoOn(ManagerItems(status), if status.isService then ServiceItems(status) else []);
  }

  lemma PositionsGoOn(items: seq<Item>, more: seq<Item>)
    requires HavePositions(items, 0) && HavePositions(more, |items|)
    ensures HavePositions(items + more, 0)
  {
  }

  lemma DistinctArePrintable(items: seq<Item>)
    requires HavePositions(items, 0) && forall i :: 0 <= i < |items| ==> '\n' !in items[i].value
    ensures ArePrintable(items)
  {
    forall i, j | 0 <= i < j < |items| ensures items[i].key != items[j].key {
      assert Position(items[i].key) == i && Position(items[j].key) == j;
    }
  }

  lemma RedactedArePrintable(redact: Redactor, items: seq<Item>)
    requires ArePrintable(items) && forall value :: '\n' !in value ==> '\n' !in redact(value)
    ensures ArePrintable(Redacted(redact, items))
  {
  }

  lemma RedactorKeepsLines()
    ensures forall value :: '\n' !in value ==> '\n' !in RedactLikelySecret(value)
  {
    forall value: string | '\n' !in value ensures '\n' !in RedactLikelySecret(value) {
      RedactedLineIsLine(value);
    }
  }

  lemma PrintableRoundTrip(items: seq<Item>)
    requires ArePrintable(items)
    ensures Holds(ValuesOf(Concat(LinesOf(items))), items)
  {
    ItemsAreRead(items, 0, map[]);
    assert items[0..] == items;
  }

  // A status that fits its body is read back: every key with its redacted value.
  lemma StatusRoundTrip(status: UnitStatus)
    requires IsOneLine(status) && |TextOf(status)| <= MAX_BODY_BYTES
    ensures Holds(ValuesOf(Bounded(MAX_BODY_BYTES, TextOf(status))), Redacted(RedactLikelySecret, ItemsOf(status)))
  {
    KeysAreDistinct(status);
    DistinctArePrintable(ItemsOf(status));
    RedactorKeepsLines();
    RedactedArePrintable(RedactLikelySecret, ItemsOf(status));
    PrintableRoundTrip(Redacted(RedactLikelySecret, ItemsOf(status)));
  }
}
