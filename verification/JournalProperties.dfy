/** What a journal query shows: the entries of the asked unit in order, without the secrets of their messages. */
module JournalProperties {
  import opened Decimals
  import opened EvidenceBody
  import opened Journal
  import opened RedactionPatterns
  import opened RedactionSecrets
  import opened Splitting

  // ---- Secrets of messages do not show ----

  predicate AreAlike(a: JournalLine, b: JournalLine) {
    if a.Invalid? then b.Invalid?
    else
      && b.Entry? && a.unit == b.unit && a.priority == b.priority
      && RedactLikelySecret(a.message) == RedactLikelySecret(b.message)
  }

  lemma {:induction false} AlikeRows(unit: string, a: seq<JournalLine>, b: seq<JournalLine>)
    requires |a| == |b| && forall i :: 0 <= i < |a| ==> AreAlike(a[i], b[i])
    ensures RowsOf(unit, a) == RowsOf(unit, b) && CountInvalid(a) == CountInvalid(b)
  {
    if a != [] {
      assert AreAlike(a[0], b[0]);
      AlikeRows(unit, a[1..], b[1..]);
    }
  }

  // Two fixtures that differ only in what the redactor replaces in their messages have one body.
  lemma SecretsOfMessagesDoNotShow(unit: string, a: seq<JournalLine>, b: seq<JournalLine>)
    requires |a| == |b| && forall i :: 0 <= i < |a| ==> AreAlike(a[i], b[i])
    ensures Bounded(MAX_BODY_BYTES, Report(unit, a)) == Bounded(MAX_BODY_BYTES, Report(unit, b))
  {
    AlikeRows(unit, a, b);
  }

  function Redacted(lines: seq<JournalLine>): seq<JournalLine> {
    seq(|lines|, i requires 0 <= i < |lines| =>
      if lines[i].Invalid? then Invalid else lines[i].(message := RedactLikelySecret(lines[i].message)))
  }

  // A fixture whose messages are redacted beforehand has the body of the fixture itself.
  lemma RedactedFixtureIsAlike(unit: string, lines: seq<JournalLine>)
    ensures Bounded(MAX_BODY_BYTES, Report(unit, Redacted(lines))) == Bounded(MAX_BODY_BYTES, Report(unit, lines))
  {
    forall i | 0 <= i < |lines| ensures AreAlike(Redacted(lines)[i], lines[i]) {
      if lines[i].Entry? {
        RedactingTwiceIsRedactingOnce(lines[i].message);
      }
    }
    SecretsOfMessagesDoNotShow(unit, Redacted(lines), lines);
  }

  // ---- The lines of a body ----

  predicate IsOfUnit(unit: string, line: JournalLine) {
    line.Entry? && line.unit == unit
  }

  // The places of all entries of the unit, in order.
  predicate AreEntries(unit: string, lines: seq<JournalLine>, at: seq<nat>) {
    && (forall j, k :: 0 <= j < k < |at| ==> at[j] < at[k])
    && (forall k :: 0 <= k < |at| ==> at[k] < |lines| && IsOfUnit(unit, lines[at[k]]))
    && (forall i :: 0 <= i < |lines| && IsOfUnit(unit, lines[i]) ==> i in at)
  }

  lemma EntriesNext(unit: string, lines: seq<JournalLine>, line: JournalLine, at: seq<nat>, more: seq<nat>)
    requires AreEntries(unit, lines, at) && more == if IsOfUnit(unit, line) then at + [|lines|] else at
    ensures AreEntries(unit, lines + [line], more)
  {
    forall i | 0 <= i < |lines + [line]| && IsOfUnit(unit, (lines + [line])[i]) ensures i in more {
      if i == |lines| {
        assert more[|at|] == i;
      } else {
        assert i in at;
      }
    }
  }

  // Every fixture has them.
  lemma {:induction false} EntriesAreSomewhere(unit: string, lines: seq<JournalLine>) returns (at: seq<nat>)
    ensures AreEntries(unit, lines, at)
  {
    at := [];
    if lines != [] {
      var n := |lines| - 1;
      var before := EntriesAreSomewhere(unit, lines[..n]);
      at := if IsOfUnit(unit, lines[n]) then before + [n] else before;
      EntriesNext(unit, lines[..n], lines[n], before, at);
      assert lines == lines[..n] + [lines[n]];
    }
  }

  // The places from i on are those from k on.
  predicate AreFrom(at: seq<nat>, i: nat, k: nat) {
    && k <= |at| && (forall j :: 0 <= j < k ==> at[j] < i) && (forall j :: k <= j < |at| ==> i <= at[j])
  }

  lemma PlacesNext(unit: string, lines: seq<JournalLine>, at: seq<nat>, i: nat, k: nat)
    requires AreEntries(unit, lines, at) && i < |lines| && AreFrom(at, i, k)
    ensures if IsOfUnit(unit, lines[i]) then k < |at| && at[k] == i && AreFrom(at, i + 1, k + 1)
            else AreFrom(at, i + 1, k)
  {
    if IsOfUnit(unit, lines[i]) {
      var j: nat :| j < |at| && at[j] == i;
      assert k <= j && at[k] <= at[j];
    }
  }

  lemma PlaceIsInside(unit: string, lines: seq<JournalLine>, at: seq<nat>, k: nat)
    requires AreEntries(unit, lines, at)
    ensures k < |at| ==> at[k] < |lines|
  {
  }

  lemma NoPlaceLeft(unit: string, lines: seq<JournalLine>, at: seq<nat>, k: nat)
    requires AreEntries(unit, lines, at) && AreFrom(at, |lines|, k)
    ensures k == |at|
  {
    PlaceIsInside(unit, lines, at, k);
  }

  predicate AreOfEntries(lines: seq<JournalLine>, at: seq<nat>) {
    forall k :: 0 <= k < |at| ==> at[k] < |lines| && lines[at[k]].Entry?
  }

  function RowsFrom(lines: seq<JournalLine>, at: seq<nat>, k: nat): seq<string>
    requires AreOfEntries(lines, at) && k <= |at|
  {
    seq(|at| - k, j requires 0 <= j < |at| - k => RowOf(lines[at[k + j]]))
  }

  lemma RowsFromNext(lines: seq<JournalLine>, at: seq<nat>, k: nat)
    requires AreOfEntries(lines, at) && k < |at|
    ensures RowsFrom(lines, at, k) == [RowOf(lines[at[k]])] + RowsFrom(lines, at, k + 1)
  {
  }

  lemma EntryStep(unit: string, lines: seq<JournalLine>, at: seq<nat>, i: nat, k: nat)
    requires AreOfEntries(lines, at) && i < |lines| && IsOfUnit(unit, lines[i]) && k < |at| && at[k] == i
    requires RowsOf(unit, lines[i + 1..]) == RowsFrom(lines, at, k + 1)
    ensures RowsOf(unit, lines[i..]) == RowsFrom(lines, at, k)
  {
    NextLine(unit, lines, i);
    RowsFromNext(lines, at, k);
  }

  lemma OtherStep(unit: string, lines: seq<JournalLine>, i: nat)
    requires i < |lines| && !IsOfUnit(unit, lines[i])
    ensures RowsOf(unit, lines[i..]) == RowsOf(unit, lines[i + 1..])
  {
    NextLine(unit, lines, i);
  }

  lemma NoRowLeft(unit: string, lines: seq<JournalLine>, at: seq<nat>)
    requires AreOfEntries(lines, at)
    ensures RowsOf(unit, lines[|lines|..]) == RowsFrom(lines, at, |at|)
  {
    assert lines[|lines|..] == [];
  }

  lemma {:induction false} RowsAreAt(unit: string, lines: seq<JournalLine>, at: seq<nat>, i: nat, k: nat)
    requires AreEntries(unit, lines, at) && i <= |lines| && AreFrom(at, i, k)
    ensures RowsOf(unit, lines[i..]) == RowsFrom(lines, at, k)
    decreases |lines| - i
  {
    if i == |lines| {
      NoPlaceLeft(unit, lines, at, k);
      NoRowLeft(unit, lines, at);
    } else {
      PlacesNext(unit, lines, at, i, k);
      if IsOfUnit(unit, lines[i]) {
        RowsAreAt(unit, lines, at, i + 1, k + 1);
        EntryStep(unit, lines, at, i, k);
      } else {
        RowsAreAt(unit, lines, at, i + 1, k);
        OtherStep(unit, lines, i);
      }
    }
  }

  ghost function InvalidFrom(lines: seq<JournalLine>, i: nat): set<nat> {
    set k: nat | i <= k < |lines| && lines[k].Invalid?
  }

  lemma InvalidNext(lines: seq<JournalLine>, i: nat)
    requires i < |lines|
    ensures |InvalidFrom(lines, i)| == (if lines[i].Invalid? then 1 else 0) + |InvalidFrom(lines, i + 1)|
  {
    assert InvalidFrom(lines, i) == InvalidFrom(lines, i + 1) + if lines[i].Invalid? then {i} else {};
  }

  lemma {:induction false} InvalidAreCounted(lines: seq<JournalLine>, i: nat)
    requires i <= |lines|
    ensures CountInvalid(lines[i..]) == |InvalidFrom(lines, i)|
    decreases |lines| - i
  {
    if i < |lines| {
      InvalidNext(lines, i);
      InvalidAreCounted(lines, i + 1);
      assert lines[i..][1..] == lines[i + 1..];
    } else {
      assert lines[i..] == [] && InvalidFrom(lines, i) == {};
    }
  }

  function TextOf(entry: JournalLine): string
    requires entry.Entry?
  {
    entry.priority + " " + RedactLikelySecret(entry.message)
  }

  // The lines of a body without the newlines: the first fifty entries, and then what was left out.
  ghost function Shown(unit: string, lines: seq<JournalLine>, at: seq<nat>): seq<string>
    requires AreEntries(unit, lines, at)
  {
    var n := if |at| <= 50 then |at| else 50;
    var skipped := |InvalidFrom(lines, 0)|;
    Texts(unit, lines, at, n)
    + if |at| > 50 then ["truncated=true"]
      else if skipped > 0 then ["skipped_invalid_entries=" + Decimal(skipped)]
      else []
  }

  lemma {:induction false} ConcatIsTerminated(rows: seq<string>, texts: seq<string>)
    requires |rows| == |texts| && forall k :: 0 <= k < |rows| ==> rows[k] == texts[k] + "\n"
    ensures Concat(rows) == Terminated('\n', texts)
  {
    if rows != [] {
      ConcatIsTerminated(rows[1..], texts[1..]);
    }
  }

  lemma RowIsText(entry: JournalLine)
    requires entry.Entry?
    ensures RowOf(entry) == TextOf(entry) + "\n"
  {
  }

  lemma FirstRows(unit: string, lines: seq<JournalLine>, at: seq<nat>, n: nat)
    requires AreEntries(unit, lines, at) && n <= |at|
    ensures |RowsOf(unit, lines)| == |at|
    ensures Concat(RowsOf(unit, lines)[..n]) ==
            Terminated('\n', Texts(unit, lines, at, n))
  {
    RowsAreAt(unit, lines, at, 0, 0);
    assert lines[0..] == lines;
    var rows, texts := RowsOf(unit, lines)[..n], Texts(unit, lines, at, n);
    forall k | 0 <= k < n ensures rows[k] == texts[k] + "\n" {
      RowIsText(lines[at[k]]);
    }
    ConcatIsTerminated(rows, texts);
  }

  lemma ReportOf(unit: string, lines: seq<JournalLine>, rows: seq<string>)
    requires rows == RowsOf(unit, lines)
    ensures Report(unit, lines) ==
            if |rows| > 50 then Concat(rows[..50]) + MARKER
            else Concat(rows) + if CountInvalid(lines) > 0 then SkippedLine(CountInvalid(lines)) else ""
  {
  }

  lemma TailIsLine(texts: seq<string>, skipped: nat)
    ensures Terminated('\n', texts + ["truncated=true"]) == Terminated('\n', texts) + MARKER
    ensures skipped > 0 ==>
              Terminated('\n', texts + ["skipped_invalid_entries=" + Decimal(skipped)]) ==
              Terminated('\n', texts) + SkippedLine(skipped)
  {
    TerminatedNext('\n', texts, "truncated=true");
    TerminatedNext('\n', texts, "skipped_invalid_entries=" + Decimal(skipped));
    assert "truncated=true" + "\n" == MARKER;
  }

  function Texts(unit: string, lines: seq<JournalLine>, at: seq<nat>, n: nat): seq<string>
    requires AreEntries(unit, lines, at) && n <= |at|
  {
    seq(n, k requires 0 <= k < n => TextOf(lines[at[k]]))
  }

  lemma ManyAreShown(unit: string, lines: seq<JournalLine>, at: seq<nat>)
    requires AreEntries(unit, lines, at) && |at| > 50
    ensures Report(unit, lines) == Terminated('\n', Shown(unit, lines, at))
  {
    FirstRows(unit, lines, at, 50);
    ReportOf(unit, lines, RowsOf(unit, lines));
    TailIsLine(Texts(unit, lines, at, 50), 0);
  }

  lemma FewAreShown(unit: string, lines: seq<JournalLine>, at: seq<nat>)
    requires AreEntries(unit, lines, at) && |at| <= 50
    ensures Report(unit, lines) == Terminated('\n', Shown(unit, lines, at))
  {
    var rows, texts, skipped := RowsOf(unit, lines), Texts(unit, lines, at, |at|), CountInvalid(lines);
    FirstRows(unit, lines, at, |at|);
    ReportOf(unit, lines, rows);
    assert rows[..|at|] == rows;
    InvalidAreCounted(lines, 0);
    assert lines[0..] == lines;
    TailIsLine(texts, skipped);
    assert Terminated('\n', texts) + "" == Terminated('\n', texts + []) by {
      assert texts + [] == texts;
    }
  }

  lemma ReportIsShown(unit: string, lines: seq<JournalLine>, at: seq<nat>)
    requires AreEntries(unit, lines, at)
    ensures Report(unit, lines) == Terminated('\n', Shown(unit, lines, at))
  {
    if |at| > 50 {
      ManyAreShown(unit, lines, at);
    } else {
      FewAreShown(unit, lines, at);
    }
  }

  lemma TextIsLine(entry: JournalLine)
    requires entry.Entry? && '\n' !in entry.priority && '\n' !in entry.message
    ensures '\n' !in TextOf(entry)
  {
    RedactedLineIsLine(entry.message);
  }

  lemma ShownAreLines(unit: string, lines: seq<JournalLine>, at: seq<nat>)
    requires AreEntries(unit, lines, at)
    requires forall k :: 0 <= k < |at| ==> '\n' !in lines[at[k]].priority && '\n' !in lines[at[k]].message
    ensures forall i :: 0 <= i < |Shown(unit, lines, at)| ==> '\n' !in Shown(unit, lines, at)[i]
  {
    forall k | 0 <= k < |at| ensures '\n' !in TextOf(lines[at[k]]) {
      TextIsLine(lines[at[k]]);
    }
    assert '\n' !in "truncated=true" && '\n' !in "skipped_invalid_entries=";
  }

  // A body that fits has one line for each of the first fifty entries of the unit, in order, with the redacted message,
  // and at most one more: that there are more entries, or how many lines of the fixture were no entries.
  lemma BodyShowsEntries(unit: string, lines: seq<JournalLine>, at: seq<nat>)
    requires AreEntries(unit, lines, at) && |Report(unit, lines)| <= 16 * 1024
    requires forall k :: 0 <= k < |at| ==> '\n' !in lines[at[k]].priority && '\n' !in lines[at[k]].message
    ensures Split('\n', Bounded(MAX_BODY_BYTES, Report(unit, lines))) == Shown(unit, lines, at) + [""]
  {
    ReportIsShown(unit, lines, at);
    ShownAreLines(unit, lines, at);
    SplitTerminated('\n', Shown(unit, lines, at));
  }
}
