/** The package list: lines of six tab-separated fields, the first five hundred of them sorted by name and
  * architecture.
  */
module PackageList {
  import opened PackageRows
  import opened Sorting
  import opened Splitting
  import opened Wrappers

  method SplitTabFields(line: string) returns (fields: seq<string>)
    ensures fields == Split('\t', line)
  {
    fields := [];
    var start := 0;
    ghost var rest := Split('\t', line);
    assert line[0..] == line;
    while start <= |line|
      invariant start <= |line| && rest == Split('\t', line[start..])
      invariant Split('\t', line) == fields + rest
      decreases |line| - start
    {
      var separator := start + IndexOf('\t', line[start..]);
      PieceAt('\t', line, start, separator);
      var field := line[start..separator];
      ghost var more := if separator == |line| then [] else Split('\t', line[separator + 1..]);
      Associate(fields, [field], more);
      fields, rest := fields + [field], more;
      if separator == |line| {
        break;
      }
      start := separator + 1;
    }
  }

  function RowOfFields(fields: seq<string>, source: string): Option<ListRow> {
    if |fields| != 6 || "" in fields then None
    else Some(ListRow(fields[0], fields[1], fields[2], fields[3], fields[4], fields[5], source))
  }

  function RowOfLine(line: string, source: string): Option<ListRow> {
    RowOfFields(Split('\t', line), source)
  }

  method ParseRpmPackageListLine(line: string, source: string) returns (row: Option<ListRow>)
    ensures row == RowOfLine(line, source)
  {
    var fields := SplitTabFields(line);
    if |fields| != 6 {
      return None;
    }
    for i := 0 to |fields|
      invariant "" !in fields[..i]
    {
      if fields[i] == "" {
        return None;
      }
      assert fields[..i + 1] == fields[..i] + [fields[i]];
    }
    assert fields[..|fields|] == fields;
    return Some(ListRow(fields[0], fields[1], fields[2], fields[3], fields[4], fields[5], source));
  }

  // The valid rows of the lines, in their order.
  function ValidRows(lines: seq<string>): seq<ListRow> {
    if lines == [] then []
    else
      var row, more := RowOfLine(lines[0], "rpmdb"), ValidRows(lines[1..]);
      if row.Some? then [row.value] + more else more
  }

  lemma ValidRowsNext(line: string, more: seq<string>)
    ensures ValidRows([line] + more) ==
            (if RowOfLine(line, "rpmdb").Some? then [RowOfLine(line, "rpmdb").value] else []) + ValidRows(more)
  {
    assert ([line] + more)[1..] == more;
  }

  lemma EmptyLineIsNoRow()
    ensures ValidRows(Split('\n', "")) == []
  {
    SplitFirst('\t', "", "");
    assert Split('\n', "") == [""] + [];
    ValidRowsNext("", []);
  }

  // First by name, then by architecture.
  predicate Precedes(left: ListRow, right: ListRow) {
    if left.name == right.name then Less(left.arch, right.arch) else Less(left.name, right.name)
  }

  lemma PrecedesIsOrder()
    ensures IsOrder(Precedes)
  {
    forall a: ListRow, b: ListRow ensures Precedes(a, b) ==> !Precedes(b, a) {
      LessIsTotal(a.name, b.name);
      LessIsTotal(a.arch, b.arch);
    }
    forall a: ListRow, b: ListRow, c: ListRow | !Precedes(b, a) && !Precedes(c, b) ensures !Precedes(c, a) {
      LessIsTotal(a.name, b.name);
      LessIsTotal(b.name, c.name);
      LessIsTotal(a.name, c.name);
      if a.name == b.name == c.name {
        NotLessIsTransitive(a.arch, b.arch, c.arch);
      } else if a.name != b.name && b.name != c.name {
        NotLessIsTransitive(a.name, b.name, c.name);
      }
    }
  }

  method CollectRows(output: string) returns (rows: seq<ListRow>, hasMore: bool)
    ensures rows == FirstRows(ValidRows(Split('\n', output)), MAX_LIST_ROWS)
    ensures hasMore == (|ValidRows(Split('\n', output))| > MAX_LIST_ROWS)
  {
    rows, hasMore := [], false;
    var start := 0;
    ghost var all, read, lines := ValidRows(Split('\n', output)), [], Split('\n', output);
    assert output[0..] == output;
    while start < |output|
      invariant start <= |output| && lines == Split('\n', output[start..]) && all == read + ValidRows(lines)
      invariant rows == FirstRows(read, MAX_LIST_ROWS) && hasMore == (|read| > MAX_LIST_ROWS)
      decreases |output| - start
    {
      var line, next, last;
      line, next, last, lines := LineFrom(output, start);
      ValidRowsNext(line, lines);
      var row := ParseRpmPackageListLine(line, "rpmdb");
      if row.Some? {
        FirstRowsNext(read, row.value, MAX_LIST_ROWS);
        Associate(read, [row.value], ValidRows(lines));
        read := read + [row.value];
        if |rows| < MAX_LIST_ROWS {
          rows := rows + [row.value];
        } else {
          hasMore := true;
        }
      }
      if last {
        assert all == read;
        return;
      }
      start := next;
    }
    assert output[start..] == "";
    EmptyLineIsNoRow();
  }

  // The list is a permutation of the first valid rows, in order, and says whether there were more.
  method ListPackages(output: string) returns (shown: seq<ListRow>, hasMore: bool)
    ensures IsSorted(Precedes, shown)
    ensures multiset(shown) == multiset(FirstRows(ValidRows(Split('\n', output)), 500))
    ensures hasMore <==> |ValidRows(Split('\n', output))| > 500
  {
    var rows;
    rows, hasMore := CollectRows(output);
    PrecedesIsOrder();
    shown := Sort(Precedes, rows);
  }

  // ---- What the command prints is what the list reads ----

  predicate IsField(field: string) {
    field != "" && '\t' !in field && '\n' !in field
  }

  predicate IsPrintable(row: ListRow) {
    && IsField(row.name) && IsField(row.epoch) && IsField(row.version) && IsField(row.release) && IsField(row.arch)
    && IsField(row.installTime) && row.source == "rpmdb"
  }

  function FieldsOf(row: ListRow): seq<string> {
    [row.name, row.epoch, row.version, row.release, row.arch, row.installTime]
  }

  // Fields with a tab between any two.
  function Tabbed(fields: seq<string>): string {
    if fields == [] then "" else if |fields| == 1 then fields[0] else fields[0] + ['\t'] + Tabbed(fields[1..])
  }

  lemma {:induction false} TabbedRoundTrip(fields: seq<string>)
    requires fields != [] && forall i :: 0 <= i < |fields| ==> '\t' !in fields[i]
    ensures Split('\t', Tabbed(fields)) == fields
    decreases |fields|
  {
    if |fields| == 1 {
      SplitFirst('\t', fields[0], "");
      assert [fields[0]] == fields;
    } else {
      TabbedRoundTrip(fields[1..]);
      SplitHead('\t', fields[0], Tabbed(fields[1..]), Tabbed(fields));
    }
  }

  lemma {:induction false} TabbedHasNoNewline(fields: seq<string>)
    requires forall i :: 0 <= i < |fields| ==> '\n' !in fields[i]
    ensures '\n' !in Tabbed(fields)
    decreases |fields|
  {
    if |fields| > 1 {
      TabbedHasNoNewline(fields[1..]);
    }
  }

  lemma RowRoundTrip(row: ListRow)
    requires IsPrintable(row)
    ensures RowOfLine(Tabbed(FieldsOf(row)), "rpmdb") == Some(row)
    ensures '\n' !in Tabbed(FieldsOf(row))
  {
    TabbedRoundTrip(FieldsOf(row));
    TabbedHasNoNewline(FieldsOf(row));
  }

  function LinesOf(rows: seq<ListRow>): seq<string> {
    if rows == [] then [] else [Tabbed(FieldsOf(rows[0]))] + LinesOf(rows[1..])
  }

  lemma {:induction false} PrintedRowsAreValid(rows: seq<ListRow>)
    requires forall i :: 0 <= i < |rows| ==> IsPrintable(rows[i])
    ensures forall i :: 0 <= i < |LinesOf(rows)| ==> '\n' !in LinesOf(rows)[i]
    ensures ValidRows(LinesOf(rows) + [""]) == rows
  {
    if rows == [] {
      EmptyLineIsNoRow();
      assert Split('\n', "") == LinesOf(rows) + [""];
    } else {
      RowRoundTrip(rows[0]);
      PrintedRowsAreValid(rows[1..]);
      ValidRowsNext(Tabbed(FieldsOf(rows[0])), LinesOf(rows[1..]) + [""]);
      Associate([Tabbed(FieldsOf(rows[0]))], LinesOf(rows[1..]), [""]);
      assert [rows[0]] + rows[1..] == rows;
    }
  }

  // Every printed row is read back.
  lemma PackageListRoundTrip(rows: seq<ListRow>)
    requires forall i :: 0 <= i < |rows| ==> IsPrintable(rows[i])
    ensures ValidRows(Split('\n', Terminated('\n', LinesOf(rows)))) == rows
  {
    PrintedRowsAreValid(rows);
    SplitTerminated('\n', LinesOf(rows));
  }

  // The printed rows are the only lines that are rows: six fields between tabs, none of them empty.
  lemma RowIsPrinted(line: string, row: ListRow)
    requires row.source == "rpmdb" && '\n' !in line
    ensures RowOfLine(line, "rpmdb") == Some(row) <==> IsPrintable(row) && line == Tabbed(FieldsOf(row))
  {
    if RowOfLine(line, "rpmdb") == Some(row) {
      var fields := Split('\t', line);
      assert FieldsOf(row) == fields;
      FieldsAreOfLine(line);
      assert forall i :: 0 <= i < 6 ==> fields[i] in fields;
    }
    if IsPrintable(row) && line == Tabbed(FieldsOf(row)) {
      RowRoundTrip(row);
    }
  }

  lemma {:induction false} FieldsAreOfLine(line: string)
    ensures Tabbed(Split('\t', line)) == line
    ensures '\n' !in line ==> forall i :: 0 <= i < |Split('\t', line)| ==> '\n' !in Split('\t', line)[i]
    decreases |line|
  {
    var n := IndexOf('\t', line);
    if n == |line| {
      SplitFirst('\t', line, "");
    } else {
      assert line == line[..n] + ['\t'] + line[n + 1..];
      SplitHead('\t', line[..n], line[n + 1..], line);
      FieldsAreOfLine(line[n + 1..]);
    }
  }

  // By name first, and by architecture among rows of one name.
  lemma PrecedesByNameFirst(left: ListRow, right: ListRow)
    ensures Precedes(left, right) <==>
            IsBefore(left.name, right.name) || (left.name == right.name && IsBefore(left.arch, right.arch))
  {
    LessIsBefore(left.name, right.name);
    LessIsBefore(left.arch, right.arch);
    LessIsTotal(left.name, right.name);
  }
}
