/** The rows of the package tools: which of the parsed rows are shown, and in which order. */
module PackageRows {
  import opened ChangeLog
  import opened Sorting
  import opened Splitting
  import opened Wrappers

  const MAX_CHANGES := 100
  const MAX_COLLECTED := 2000
  const MAX_LIST_ROWS := 500

  datatype ListRow = ListRow(name: string, epoch: string, version: string, release: string, arch: string,
                             installTime: string, source: string)

  // ---- Recent changes ----

  predicate Newer(left: ChangeRow, right: ChangeRow) {
    Less(right.timestamp, left.timestamp)
  }

  lemma NewerIsOrder()
    ensures IsOrder(Newer)
  {
    forall a: ChangeRow, b: ChangeRow ensures Newer(a, b) ==> !Newer(b, a) {
      LessIsTotal(a.timestamp, b.timestamp);
    }
    forall a: ChangeRow, b: ChangeRow, c: ChangeRow | !Newer(b, a) && !Newer(c, b) ensures !Newer(c, a) {
      NotLessIsTransitive(c.timestamp, b.timestamp, a.timestamp);
    }
  }

  // The later timestamp comes first.
  lemma NewerIsLater(left: ChangeRow, right: ChangeRow)
    ensures Newer(left, right) <==> IsBefore(right.timestamp, left.timestamp)
  {
    LessIsBefore(right.timestamp, left.timestamp);
  }

  // A log file: its lines, if it can be read.
  datatype Log = Log(path: string, lines: Option<seq<string>>)

  function RowsOfLines(lines: seq<string>, source: string): seq<ChangeRow> {
    if lines == [] then []
    else
      var before := RowsOfLines(lines[..|lines| - 1], source);
      var last := ParsePackageChangeLogLine(lines[|lines| - 1], source);
      if last.Some? then before + [last.value] else before
  }

  function RowsOfLogs(logs: seq<Log>): seq<ChangeRow> {
    if logs == [] then []
    else
      var before, log := RowsOfLogs(logs[..|logs| - 1]), logs[|logs| - 1];
      if log.lines.Some? then before + RowsOfLines(log.lines.value, log.path) else before
  }

  predicate SawLog(logs: seq<Log>) {
    exists i :: 0 <= i < |logs| && logs[i].lines.Some?
  }

  function Least(a: nat, b: nat): nat {
    if a < b then a else b
  }

  // The first rows, up to a limit.
  function FirstRows<T>(rows: seq<T>, limit: nat): seq<T> {
    rows[..Least(|rows|, limit)]
  }

  lemma FirstRowsNext<T>(rows: seq<T>, row: T, limit: nat)
    ensures FirstRows(rows + [row], limit) ==
            if |FirstRows(rows, limit)| < limit then FirstRows(rows, limit) + [row] else FirstRows(rows, limit)
  {
  }

  method CollectLines(lines: seq<string>, source: string, rows: seq<ChangeRow>, hasMore: bool,
                      ghost before: seq<ChangeRow>)
    returns (collected: seq<ChangeRow>, more: bool)
    requires rows == FirstRows(before, MAX_COLLECTED) && hasMore == (|before| > MAX_COLLECTED)
    ensures collected == FirstRows(before + RowsOfLines(lines, source), MAX_COLLECTED)
    ensures more == (|before + RowsOfLines(lines, source)| > MAX_COLLECTED)
  {
    collected, more := rows, hasMore;
    assert before + RowsOfLines(lines[..0], source) == before;
    for i := 0 to |lines|
      invariant collected == FirstRows(before + RowsOfLines(lines[..i], source), MAX_COLLECTED)
      invariant more == (|before + RowsOfLines(lines[..i], source)| > MAX_COLLECTED)
    {
      ghost var all := before + RowsOfLines(lines[..i], source);
      assert lines[..i + 1][..i] == lines[..i];
      var row := ParsePackageChangeLogLine(lines[i], source);
      if row.None? {
        continue;
      }
      FirstRowsNext(all, row.value, MAX_COLLECTED);
      Associate(before, RowsOfLines(lines[..i], source), [row.value]);
      if |collected| < MAX_COLLECTED {
        collected := collected + [row.value];
      } else {
        more := true;
      }
    }
    assert lines[..|lines|] == lines;
  }

  method Collect(logs: seq<Log>) returns (rows: seq<ChangeRow>, hasMore: bool, sawLog: bool)
    ensures rows == FirstRows(RowsOfLogs(logs), MAX_COLLECTED)
    ensures hasMore == (|RowsOfLogs(logs)| > MAX_COLLECTED) && sawLog == SawLog(logs)
  {
    rows, hasMore, sawLog := [], false, false;
    for i := 0 to |logs|
      invariant rows == FirstRows(RowsOfLogs(logs[..i]), MAX_COLLECTED)
      invariant hasMore == (|RowsOfLogs(logs[..i])| > MAX_COLLECTED)
      invariant sawLog == exists k :: 0 <= k < i && logs[k].lines.Some?
    {
      assert logs[..i + 1][..i] == logs[..i];
      if logs[i].lines.None? {
        continue;
      }
      sawLog := true;
      rows, hasMore := CollectLines(logs[i].lines.value, logs[i].path, rows, hasMore, RowsOfLogs(logs[..i]));
    }
    assert logs[..|logs|] == logs;
  }

  // The shown rows, the collected rows that are not shown, and the parsed rows that were not collected.
  method RecentChanges(logs: seq<Log>)
    returns (shown: Option<seq<ChangeRow>>, hasMore: bool, ghost omitted: seq<ChangeRow>, ghost lost: seq<ChangeRow>)
    ensures shown.Some? <==> SawLog(logs)
    ensures shown.Some? ==> IsSelection(RowsOfLogs(logs), shown.value, omitted, lost)
    ensures shown.Some? ==> (hasMore <==> |RowsOfLogs(logs)| > 100)
  {
    var rows, sawLog;
    rows, hasMore, sawLog := Collect(logs);
    omitted, lost := [], [];
    if !sawLog {
      return None, hasMore, omitted, lost;
    }
    ghost var parsed := RowsOfLogs(logs);
    NewerIsOrder();
    var sorted := Sort(Newer, rows);
    SortedHasLength(sorted, rows);
    var n := Least(|sorted|, MAX_CHANGES);
    Foremost(Newer, sorted, n);
    omitted, lost := sorted[n..], parsed[Least(|parsed|, MAX_COLLECTED)..];
    SelectionOf(parsed, rows, sorted, n);
    if |sorted| > MAX_CHANGES {
      return Some(sorted[..MAX_CHANGES]), true, omitted, lost;
    }
    assert sorted[..n] == sorted;
    return Some(sorted), hasMore, omitted, lost;
  }

  lemma SortedHasLength<T>(sorted: seq<T>, rows: seq<T>)
    requires multiset(sorted) == multiset(rows)
    ensures |sorted| == |rows|
  {
    assert |sorted| == |multiset(sorted)| && |rows| == |multiset(rows)|;
  }

  // Newest first, every parsed row is shown or not shown once, and no row that was collected and not shown is newer
  // than a shown one.
  ghost predicate IsSelection(parsed: seq<ChangeRow>, shown: seq<ChangeRow>, omitted: seq<ChangeRow>,
                              lost: seq<ChangeRow>)
  {
    && IsSorted(Newer, shown) && |shown| == Least(|parsed|, 100) && lost == parsed[Least(|parsed|, 2000)..]
    && multiset(parsed) == multiset(shown) + multiset(omitted) + multiset(lost)
    && forall a, b :: a in shown && b in omitted ==> !Newer(b, a)
  }

  lemma SelectionOf(parsed: seq<ChangeRow>, rows: seq<ChangeRow>, sorted: seq<ChangeRow>, n: nat)
    requires rows == FirstRows(parsed, MAX_COLLECTED) && multiset(sorted) == multiset(rows)
    requires IsSorted(Newer, sorted) && n == Least(|sorted|, MAX_CHANGES)
    ensures IsSelection(parsed, sorted[..n], sorted[n..], parsed[Least(|parsed|, MAX_COLLECTED)..])
  {
    Foremost(Newer, sorted, n);
    SortedHasLength(sorted, rows);
    assert parsed == rows + parsed[Least(|parsed|, MAX_COLLECTED)..];
  }

  // ---- When no missing row is newer than a shown one ----

  // How many rows a row is not newer than.
  function NotOlder(rows: seq<ChangeRow>, row: ChangeRow): (count: nat)
    ensures count <= |rows|
  {
    if rows == [] then 0
    else NotOlder(rows[..|rows| - 1], row) + if Newer(row, rows[|rows| - 1]) then 0 else 1
  }

  lemma {:induction false} NotOlderAppend(rows: seq<ChangeRow>, more: seq<ChangeRow>, row: ChangeRow)
    ensures NotOlder(rows + more, row) == NotOlder(rows, row) + NotOlder(more, row)
  {
    if more == [] {
      assert rows + more == rows;
    } else {
      NotOlderAppend(rows, more[..|more| - 1], row);
      assert (rows + more)[..|rows + more| - 1] == rows + more[..|more| - 1];
    }
  }

  lemma {:induction false} NotOlderPermuted(a: seq<ChangeRow>, b: seq<ChangeRow>, row: ChangeRow)
    requires multiset(a) == multiset(b)
    ensures NotOlder(a, row) == NotOlder(b, row)
  {
    if a == [] {
      SortedHasLength(a, b);
    } else {
      var j := TakeOut(a, b);
      NotOlderPermuted(a[..|a| - 1], b[..j] + b[j + 1..], row);
      NotOlderAppend(b[..j], b[j + 1..], row);
      NotOlderAppend(b[..j], [b[j]], row);
      NotOlderAppend(b[..j] + [b[j]], b[j + 1..], row);
      assert NotOlder([b[j]], row) == NotOlder([], row) + if Newer(row, b[j]) then 0 else 1;
    }
  }

  lemma {:induction false} NotOlderThanAll(rows: seq<ChangeRow>, row: ChangeRow)
    ensures NotOlder(rows, row) == |rows| <==> forall a :: a in rows ==> !Newer(row, a)
  {
    if rows != [] {
      var before, last := rows[..|rows| - 1], rows[|rows| - 1];
      assert rows == before + [last];
      NotOlderThanAll(before, row);
    }
  }

  lemma {:induction false} NewerThanAll(rows: seq<ChangeRow>, row: ChangeRow)
    requires forall b :: b in rows ==> Newer(row, b)
    ensures NotOlder(rows, row) == 0
  {
    if rows != [] {
      var before, last := rows[..|rows| - 1], rows[|rows| - 1];
      assert last in rows && forall b :: b in before ==> b in rows;
      NewerThanAll(before, row);
    }
  }

  lemma CollectedAreShownOrOmitted(parsed: seq<ChangeRow>, shown: seq<ChangeRow>, omitted: seq<ChangeRow>,
                                   lost: seq<ChangeRow>)
    requires IsSelection(parsed, shown, omitted, lost)
    ensures multiset(FirstRows(parsed, MAX_COLLECTED)) == multiset(shown + omitted)
  {
    var collected := FirstRows(parsed, MAX_COLLECTED);
    assert parsed == collected + lost;
    assert multiset(parsed) == multiset(collected) + multiset(lost);
    assert multiset(collected) == multiset(parsed) - multiset(lost);
    assert multiset(shown + omitted) == multiset(parsed) - multiset(lost);
  }

  // One row is newer than no shown row exactly when enough of the collected rows are not older than it.
  lemma NewerThanNoneShown(parsed: seq<ChangeRow>, shown: seq<ChangeRow>, omitted: seq<ChangeRow>,
                           lost: seq<ChangeRow>, row: ChangeRow)
    requires IsSelection(parsed, shown, omitted, lost)
    ensures (forall a :: a in shown ==> !Newer(row, a)) <==>
            NotOlder(FirstRows(parsed, MAX_COLLECTED), row) >= Least(|parsed|, MAX_CHANGES)
  {
    CollectedAreShownOrOmitted(parsed, shown, omitted, lost);
    NotOlderPermuted(FirstRows(parsed, MAX_COLLECTED), shown + omitted, row);
    NotOlderAppend(shown, omitted, row);
    NotOlderThanAll(shown, row);
    if a :| a in shown && Newer(row, a) {
      NewerIsOrder();
      forall b | b in omitted ensures Newer(row, b) {
        assert !Newer(b, a);
      }
      NewerThanAll(omitted, row);
    }
  }

  // No missing row is newer than a shown one exactly when, for every row behind the first two thousand, enough of
  // those are not older than it. With at most two thousand rows there is no such row.
  lemma NothingNewerIsMissing(parsed: seq<ChangeRow>, shown: seq<ChangeRow>, omitted: seq<ChangeRow>,
                              lost: seq<ChangeRow>)
    requires IsSelection(parsed, shown, omitted, lost)
    ensures (forall a, b :: a in shown && b in omitted + lost ==> !Newer(b, a)) <==>
            (forall i :: MAX_COLLECTED <= i < |parsed| ==>
               NotOlder(FirstRows(parsed, MAX_COLLECTED), parsed[i]) >= Least(|parsed|, MAX_CHANGES))
  {
    forall i | MAX_COLLECTED <= i < |parsed|
      ensures parsed[i] in lost
      ensures (forall a :: a in shown ==> !Newer(parsed[i], a)) <==>
              NotOlder(FirstRows(parsed, MAX_COLLECTED), parsed[i]) >= Least(|parsed|, MAX_CHANGES)
    {
      assert lost[i - MAX_COLLECTED] == parsed[i];
      NewerThanNoneShown(parsed, shown, omitted, lost, parsed[i]);
    }
    forall b | b in lost ensures exists i :: MAX_COLLECTED <= i < |parsed| && parsed[i] == b {
      var k :| 0 <= k < |lost| && lost[k] == b;
      assert parsed[MAX_COLLECTED + k] == b;
    }
  }

  // ---- A log whose newest row is missing ----

  function Repeated<T>(value: T, n: nat): (values: seq<T>)
    ensures |values| == n && forall i :: 0 <= i < n ==> values[i] == value
  {
    if n == 0 then [] else Repeated(value, n - 1) + [value]
  }

  lemma {:induction false} RowsOfRepeated(line: string, row: ChangeRow, n: nat)
    requires ParsePackageChangeLogLine(line, row.source) == Some(row)
    ensures RowsOfLines(Repeated(line, n), row.source) == Repeated(row, n)
  {
    if n > 0 {
      RowsOfRepeated(line, row, n - 1);
      assert Repeated(line, n)[..n - 1] == Repeated(line, n - 1);
    }
  }

  // Two thousand lines of one time and then one line of a later time: the later one is missing, and all that is
  // shown is older.
  lemma NewestRowIsMissing(shown: seq<ChangeRow>, omitted: seq<ChangeRow>, lost: seq<ChangeRow>)
    requires var early, late := VerbLine("1", "Installed", "a"), VerbLine("2", "Installed", "a");
             var log := Log("dnf.log", Some(Repeated(early, MAX_COLLECTED) + [late]));
             IsSelection(RowsOfLogs([log]), shown, omitted, lost)
    ensures |shown| == MAX_CHANGES && lost == [ChangeRow("2", "install", "a", "dnf.log")]
    ensures forall a :: a in shown ==> Newer(lost[0], a)
  {
    var early, late := VerbLine("1", "Installed", "a"), VerbLine("2", "Installed", "a");
    var first, last := ChangeRow("1", "install", "a", "dnf.log"), ChangeRow("2", "install", "a", "dnf.log");
    VerbLineRoundTrip("1", "Installed", "install", "a", "dnf.log");
    VerbLineRoundTrip("2", "Installed", "install", "a", "dnf.log");
    RowsOfRepeated(early, first, MAX_COLLECTED);
    RowsOfOneLog(Repeated(early, MAX_COLLECTED), late, last);
    LateRowIsLost(first, last, shown, omitted, lost);
  }

  lemma RowsOfOneLog(lines: seq<string>, late: string, last: ChangeRow)
    requires ParsePackageChangeLogLine(late, last.source) == Some(last)
    ensures RowsOfLogs([Log(last.source, Some(lines + [late]))]) == RowsOfLines(lines, last.source) + [last]
  {
    var log := Log(last.source, Some(lines + [late]));
    assert [log][..0] == [] && RowsOfLogs([]) == [];
    assert (lines + [late])[..|lines|] == lines;
    assert [] + RowsOfLines(lines + [late], last.source) == RowsOfLines(lines + [late], last.source);
  }

  lemma LateRowIsLost(first: ChangeRow, last: ChangeRow, shown: seq<ChangeRow>, omitted: seq<ChangeRow>,
                      lost: seq<ChangeRow>)
    requires Newer(last, first) && IsSelection(Repeated(first, MAX_COLLECTED) + [last], shown, omitted, lost)
    ensures |shown| == MAX_CHANGES && lost == [last] && forall a :: a in shown ==> Newer(last, a)
  {
    var parsed := Repeated(first, MAX_COLLECTED) + [last];
    CollectedAreShownOrOmitted(parsed, shown, omitted, lost);
    assert FirstRows(parsed, MAX_COLLECTED) == Repeated(first, MAX_COLLECTED);
    forall a | a in shown ensures a == first {
      assert a in multiset(shown + omitted);
      assert a in multiset(Repeated(first, MAX_COLLECTED));
    }
  }
}
