/** The journal query: at most fifty rows of one unit, in a bounded body. */
module Journal {
  import opened CoreTypes
  import opened Decimals
  import opened EvidenceBody
  import opened RedactionPatterns
  import opened Splitting
  import opened Wrappers
  import Text

  const MAX_ENTRIES := 50
  const MAX_BODY_BYTES := 16 * 1024

  // A line of the journal, once its JSON was read: a line that is no JSON object is invalid.
  datatype JournalLine = Invalid | Entry(unit: string, priority: string, message: string)

  function RowOf(entry: JournalLine): string
    requires entry.Entry?
  {
    entry.priority + " " + RedactLikelySecret(entry.message) + "\n"
  }

  function RowsOf(unit: string, lines: seq<JournalLine>): seq<string> {
    if lines == [] then []
    else if lines[0].Entry? && lines[0].unit == unit then [RowOf(lines[0])] + RowsOf(unit, lines[1..])
    else RowsOf(unit, lines[1..])
  }

  function CountInvalid(lines: seq<JournalLine>): nat {
    if lines == [] then 0 else (if lines[0].Invalid? then 1 else 0) + CountInvalid(lines[1..])
  }

  function SkippedLine(skipped: nat): string {
    if skipped > 0 then "skipped_invalid_entries=" + Decimal(skipped) + "\n" else ""
  }

  // Everything a query would say if there were no bound on its size.
  function Report(unit: string, lines: seq<JournalLine>): string {
    var rows := RowsOf(unit, lines);
    if |rows| > MAX_ENTRIES then Concat(rows[..MAX_ENTRIES]) + MARKER
    else Concat(rows) + SkippedLine(CountInvalid(lines))
  }

  // A body that overflowed within the first rows is the body of the whole report.
  lemma FullWithinRows(cap: nat, unit: string, lines: seq<JournalLine>, first: seq<string>, more: seq<string>)
    requires RowsOf(unit, lines) == first + more && |first| <= MAX_ENTRIES
    requires |MARKER| <= cap < |Concat(first)|
    ensures Bounded(cap, Report(unit, lines)) == Bounded(cap, Concat(first))
  {
    var shown := if |first + more| > MAX_ENTRIES then more[..MAX_ENTRIES - |first|] else more;
    var tail := if |first + more| > MAX_ENTRIES then MARKER else SkippedLine(CountInvalid(lines));
    assert |first + more| > MAX_ENTRIES ==> (first + more)[..MAX_ENTRIES] == first + shown;
    ConcatAppend(first, shown);
    assert Report(unit, lines) == Concat(first + shown) + tail;
    BoundedAbsorbs(cap, Concat(first), Concat(shown) + tail);
    Associate(Concat(first), Concat(shown), tail);
  }

  lemma NextLine(unit: string, lines: seq<JournalLine>, i: nat)
    requires i < |lines|
    ensures RowsOf(unit, lines[i..]) ==
            (if lines[i].Entry? && lines[i].unit == unit then [RowOf(lines[i])] else []) + RowsOf(unit, lines[i + 1..])
    ensures CountInvalid(lines[i..]) == (if lines[i].Invalid? then 1 else 0) + CountInvalid(lines[i + 1..])
  {
    assert lines[i..][1..] == lines[i + 1..];
  }

  lemma NextRow(rows: seq<string>, row: string)
    ensures Concat(rows + [row]) == Concat(rows) + row
  {
    ConcatAppend(rows, [row]);
    assert Concat([row]) == row + Concat([]);
  }

  // The lines of the fixture at the path, if it can be opened.
  method Query(requestId: string, unit: string, path: string, fixture: Option<seq<JournalLine>>, now: string)
    returns (response: ToolResponse)
    ensures Text.IsBlankText(unit) ==>
              response == ToolResponse(requestId, Error, "journal.query requires a non-empty unit parameter", [])
    ensures !Text.IsBlankText(unit) && fixture.None? ==>
              response == ToolResponse(requestId, Error, "failed to open journal fixture: " + path, [])
    ensures !Text.IsBlankText(unit) && fixture.Some? ==>
              response == ToolResponse(requestId, Ok, "journal fixture queried",
                                       [Evidence(requestId + ":journal.query", "journal.query",
                                                 "bounded journal entries for " + unit,
                                                 Bounded(16 * 1024, Report(unit, fixture.value)), now)])
  {
    if Text.IsBlankText(unit) {
      return ToolResponse(requestId, Error, "journal.query requires a non-empty unit parameter", []);
    }
    if fixture.None? {
      return ToolResponse(requestId, Error, "failed to open journal fixture: " + path, []);
    }
    var body := QueryBody(unit, fixture.value);
    var item := Evidence(requestId + ":journal.query", "journal.query", "bounded journal entries for " + unit, body,
                         now);
    return ToolResponse(requestId, Ok, "journal fixture queried", [item]);
  }

  method QueryBody(unit: string, lines: seq<JournalLine>) returns (body: string)
    ensures body == Bounded(MAX_BODY_BYTES, Report(unit, lines))
  {
    var b := new Body(MAX_BODY_BYTES);
    var entries, skipped := 0, 0;
    ghost var rows := []; // the rows of the lines read so far
    for i := 0 to |lines|
      invariant b.Valid() && b.cap == MAX_BODY_BYTES && fresh(b)
      invariant !b.truncated && b.appended == Concat(rows)
      invariant RowsOf(unit, lines) == rows + RowsOf(unit, lines[i..])
      invariant entries == |rows| <= MAX_ENTRIES
      invariant CountInvalid(lines) == skipped + CountInvalid(lines[i..])
    {
      NextLine(unit, lines, i);
      ghost var rest := RowsOf(unit, lines[i + 1..]);
      if lines[i].Invalid? {
        skipped := skipped + 1;
        continue;
      }
      if lines[i].unit != unit {
        continue;
      }
      Associate(rows, [RowOf(lines[i])], rest);
      if entries >= MAX_ENTRIES {
        assert RowsOf(unit, lines)[..MAX_ENTRIES] == rows;
        b.AppendTruncationMarker();
        break;
      }
      var message := RedactLikelySecret(lines[i].message);
      b.AppendBounded(lines[i].priority + " " + message + "\n");
      NextRow(rows, RowOf(lines[i]));
      rows := rows + [RowOf(lines[i])];
      if b.truncated {
        FullWithinRows(b.cap, unit, lines, rows, rest);
        break;
      }
      entries := entries + 1;
    }
    assert !b.truncated ==> RowsOf(unit, lines) == rows;
    if skipped > 0 && !b.truncated {
      b.AppendBounded("skipped_invalid_entries=" + Decimal(skipped) + "\n");
    }
    return b.body;
  }
}
