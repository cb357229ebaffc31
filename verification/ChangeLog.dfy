/** The lines of the dnf logs that tell of an installed, changed or removed package. */
module ChangeLog {
  import opened Splitting
  import opened Wrappers

  datatype ChangeRow = ChangeRow(timestamp: string, action: string, package: string, source: string)

  const RPM_PREFIX := " INFO RPM callback "
  const START_MARKER := " start \""

  const RPM_ACTIONS := ["install", "erase", "upgrade", "downgrade", "reinstall"]
  const VERBS := ["Installed", "Upgraded", "Updated", "Erased", "Removed", "Downgraded", "Reinstalled"]

  predicate HasAt(pattern: string, text: string, i: nat) {
    i + |pattern| <= |text| && forall k :: 0 <= k < |pattern| ==> text[i + k] == pattern[k]
  }

  // The first occurrence at or after a place.
  function FindText(pattern: string, text: string, from: nat): (found: Option<nat>)
    ensures found.Some? ==> from <= found.value && HasAt(pattern, text, found.value)
    ensures found.Some? ==> forall i :: from <= i < found.value ==> !HasAt(pattern, text, i)
    ensures found.None? ==> forall i :: from <= i ==> !HasAt(pattern, text, i)
    decreases |text| - from
  {
    if HasAt(pattern, text, from) then Some(from)
    else if from >= |text| then None
    else FindText(pattern, text, from + 1)
  }

  lemma FoundAt(pattern: string, text: string, from: nat, at: nat)
    requires from <= at && HasAt(pattern, text, at) && forall i :: from <= i < at ==> !HasAt(pattern, text, i)
    ensures FindText(pattern, text, from) == Some(at)
  {
  }

  function FirstToken(value: string): string {
    value[..IndexOf(' ', value)]
  }

  function RpmCallbackAction(line: string): Option<string> {
    var prefix := FindText(RPM_PREFIX, line, 0);
    if prefix.None? then None
    else
      var start := prefix.value + |RPM_PREFIX|;
      var end := FindText(START_MARKER, line, start);
      if end.None? || line[start..end.value] !in RPM_ACTIONS then None else Some(line[start..end.value])
  }

  function ActionFromVerb(verb: string): string {
    if verb == "Installed" then "install"
    else if verb == "Upgraded" || verb == "Updated" then "upgrade"
    else if verb == "Erased" || verb == "Removed" then "remove"
    else if verb == "Downgraded" then "downgrade"
    else if verb == "Reinstalled" then "reinstall"
    else ""
  }

  function MarkerOf(verb: string): string {
    " INFO " + verb + ": "
  }

  // The first verb whose marker is in the line.
  function RowOfVerb(line: string, source: string, verbs: seq<string>): Option<ChangeRow> {
    if verbs == [] then None
    else
      var at := FindText(MarkerOf(verbs[0]), line, 0);
      if at.None? then RowOfVerb(line, source, verbs[1..])
      else
        var start := at.value + |MarkerOf(verbs[0])|;
        if start >= |line| then None
        else Some(ChangeRow(FirstToken(line), ActionFromVerb(verbs[0]), line[start..], source))
  }

  // The package of a callback is looked for from the start of the line.
  function ParsePackageChangeLogLine(line: string, source: string): Option<ChangeRow> {
    var action := RpmCallbackAction(line);
    if action.None? then RowOfVerb(line, source, VERBS)
    else
      var marker := FindText(START_MARKER, line, 0);
      if marker.None? then None
      else
        var start := marker.value + |START_MARKER|;
        var length := IndexOf('"', line[start..]);
        if length == |line[start..]| || length == 0 then None
        else Some(ChangeRow(FirstToken(line), action.value, line[start..][..length], source))
  }

  // ---- Written lines are read back ----

  // What tells a verb from the other words after " INFO ".
  predicate IsVerb(verb: string) {
    && |verb| >= 2 && verb[1] != 'N' && verb[1] != 'P'
    && forall i :: 0 <= i < |verb| ==> verb[i] != ' ' && verb[i] != ':'
  }

  lemma VerbsAreVerbs()
    ensures forall i :: 0 <= i < |VERBS| ==> IsVerb(VERBS[i])
  {
    assert IsVerb("Installed") && IsVerb("Upgraded") && IsVerb("Updated") && IsVerb("Erased");
    assert IsVerb("Removed") && IsVerb("Downgraded") && IsVerb("Reinstalled");
  }

  function VerbLine(time: string, verb: string, package: string): string {
    time + (" INFO " + verb + ": ") + package
  }

  predicate IsWord(text: string) {
    forall i :: 0 <= i < |text| ==> text[i] != ' '
  }

  lemma PartsOfVerbLine(time: string, verb: string, package: string)
    ensures var line, start := VerbLine(time, verb, package), |time| + 8 + |verb|;
            && |line| == start + |package| && line[..|time|] == time && line[start..] == package
            && (forall k :: 0 <= k < |time| ==> line[k] == time[k])
            && (forall k :: 0 <= k < |verb| ==> line[|time| + 6 + k] == verb[k])
            && (forall k :: 0 <= k < |package| ==> line[start + k] == package[k])
            && line[|time|] == ' ' && line[|time| + 1] == 'I' && line[|time| + 2] == 'N' && line[|time| + 3] == 'F'
            && line[|time| + 4] == 'O' && line[|time| + 5] == ' '
            && line[|time| + 6 + |verb|] == ':' && line[|time| + 7 + |verb|] == ' '
  {
    var marker := MarkerOf(verb);
    assert forall k :: 0 <= k < |verb| ==> marker[6 + k] == verb[k];
    assert forall k :: 0 <= k < |marker| ==> VerbLine(time, verb, package)[|time| + k] == marker[k];
  }

  lemma SpacesOfVerbLine(time: string, verb: string, package: string, i: nat)
    requires IsWord(time) && IsVerb(verb) && IsWord(package)
    requires i < |VerbLine(time, verb, package)| && VerbLine(time, verb, package)[i] == ' '
    ensures i == |time| || i == |time| + 5 || i == |time| + 7 + |verb|
  {
    PartsOfVerbLine(time, verb, package);
    var line := VerbLine(time, verb, package);
    assert forall k :: |time| + 6 <= k < |time| + 6 + |verb| ==> line[k] == verb[k - |time| - 6];
    assert forall k :: |time| + 8 + |verb| <= k < |line| ==> line[k] == package[k - |time| - 8 - |verb|];
  }

  // A pattern that begins with " INFO " can only be where the marker is.
  lemma OnlyAtMarker(pattern: string, time: string, verb: string, package: string, i: nat)
    requires IsWord(time) && IsVerb(verb) && IsWord(package)
    requires |pattern| >= 6 && pattern[0] == ' ' && pattern[2] == 'N' && pattern[5] == ' '
    requires HasAt(pattern, VerbLine(time, verb, package), i)
    ensures i == |time|
  {
    var line := VerbLine(time, verb, package);
    assert line[i + 0] == ' ' && line[i + 2] == 'N' && line[i + 5] == ' ';
    PartsOfVerbLine(time, verb, package);
    SpacesOfVerbLine(time, verb, package, i);
    SpacesOfVerbLine(time, verb, package, i + 5);
    assert line[|time| + 6 + 1] == verb[1];
  }

  lemma NoCallbackInVerbLine(time: string, verb: string, package: string)
    requires IsWord(time) && IsVerb(verb) && IsWord(package)
    ensures RpmCallbackAction(VerbLine(time, verb, package)) == None
  {
    var line := VerbLine(time, verb, package);
    PartsOfVerbLine(time, verb, package);
    assert line[|time| + 6 + 1] == verb[1] && RPM_PREFIX[7] == 'P';
    assert !HasAt(RPM_PREFIX, line, |time|);
    forall i: nat | HasAt(RPM_PREFIX, line, i) ensures i == |time| {
      OnlyAtMarker(RPM_PREFIX, time, verb, package, i);
    }
  }

  lemma FoundOnlyAt(pattern: string, text: string, at: nat)
    requires forall i: nat :: HasAt(pattern, text, i) ==> i == at
    ensures FindText(pattern, text, 0) == if HasAt(pattern, text, at) then Some(at) else None
  {
  }

  // The marker of a verb is in the line of that verb only, and only in front of it.
  lemma MarkerInVerbLine(other: string, time: string, verb: string, package: string)
    requires IsWord(time) && IsVerb(verb) && IsWord(package) && IsVerb(other)
    ensures FindText(MarkerOf(other), VerbLine(time, verb, package), 0) == if other == verb then Some(|time|) else None
  {
    var line, marker := VerbLine(time, verb, package), MarkerOf(other);
    forall i: nat | HasAt(marker, line, i) ensures i == |time| {
      OnlyAtMarker(marker, time, verb, package, i);
    }
    FoundOnlyAt(marker, line, |time|);
    MarkerIsThere(time, verb, package);
    if HasAt(marker, line, |time|) {
      SameVerb(other, time, verb, package);
    }
  }

  lemma MarkerIsThere(time: string, verb: string, package: string)
    ensures HasAt(MarkerOf(verb), VerbLine(time, verb, package), |time|)
  {
    var line, marker := VerbLine(time, verb, package), MarkerOf(verb);
    assert line == time + (marker + package);
  }

  lemma WordAtMarker(verb: string, text: string, at: nat)
    requires HasAt(MarkerOf(verb), text, at)
    ensures at + 6 + |verb| < |text| && text[at + 6..][..|verb|] == verb && text[at + 6..][|verb|] == ':'
  {
    var marker := MarkerOf(verb);
    assert forall k :: 0 <= k < |verb| ==> marker[6 + k] == verb[k];
    assert marker[6 + |verb|] == ':';
    assert text[at..at + |marker|] == marker;
    assert text[at + 6..][..|verb|] == marker[6..6 + |verb|] == verb;
  }

  lemma SameVerb(other: string, time: string, verb: string, package: string)
    requires IsVerb(verb) && IsVerb(other) && HasAt(MarkerOf(other), VerbLine(time, verb, package), |time|)
    ensures other == verb
  {
    var line := VerbLine(time, verb, package);
    MarkerIsThere(time, verb, package);
    WordAtMarker(other, line, |time|);
    WordAtMarker(verb, line, |time|);
    IndexOfIsUnique(':', line[|time| + 6..], |other|);
    IndexOfIsUnique(':', line[|time| + 6..], |verb|);
  }

  lemma FirstTokenOf(time: string, verb: string, package: string)
    requires IsWord(time)
    ensures FirstToken(VerbLine(time, verb, package)) == time
  {
    var line := VerbLine(time, verb, package);
    PartsOfVerbLine(time, verb, package);
    IndexOfIsUnique(' ', line, |time|);
  }

  lemma {:induction false} RowOfVerbLine(time: string, verb: string, package: string, source: string,
                                         verbs: seq<string>)
    requires IsWord(time) && IsVerb(verb) && IsWord(package) && package != ""
    requires verb in verbs && forall i :: 0 <= i < |verbs| ==> IsVerb(verbs[i])
    ensures RowOfVerb(VerbLine(time, verb, package), source, verbs) ==
            Some(ChangeRow(time, ActionFromVerb(verb), package, source))
  {
    MarkerInVerbLine(verbs[0], time, verb, package);
    if verbs[0] == verb {
      FirstTokenOf(time, verb, package);
      PartsOfVerbLine(time, verb, package);
    } else {
      RowOfVerbLine(time, verb, package, source, verbs[1..]);
    }
  }

  // The seven verbs of dnf, and what each does to a package.
  predicate Means(verb: string, action: string) {
    || (verb == "Installed" && action == "install")
    || (verb == "Upgraded" && action == "upgrade") || (verb == "Updated" && action == "upgrade")
    || (verb == "Erased" && action == "remove") || (verb == "Removed" && action == "remove")
    || (verb == "Downgraded" && action == "downgrade") || (verb == "Reinstalled" && action == "reinstall")
  }

  lemma MeaningOfVerb(verb: string, action: string)
    requires Means(verb, action)
    ensures verb in VERBS && ActionFromVerb(verb) == action
  {
    assert VERBS[0] == "Installed" && VERBS[1] == "Upgraded" && VERBS[2] == "Updated" && VERBS[3] == "Erased";
    assert VERBS[4] == "Removed" && VERBS[5] == "Downgraded" && VERBS[6] == "Reinstalled";
    assert |"Installed"| == 9 && |"Upgraded"| == 8 && |"Updated"| == 7 && |"Erased"| == 6;
    assert |"Removed"| == 7 && |"Downgraded"| == 10 && |"Reinstalled"| == 11 && "Removed"[0] == 'R';
  }

  // A dnf line is read back: time, what the verb means, and package.
  lemma VerbLineRoundTrip(time: string, verb: string, action: string, package: string, source: string)
    requires IsWord(time) && Means(verb, action) && IsWord(package) && package != ""
    ensures ParsePackageChangeLogLine(VerbLine(time, verb, package), source) ==
            Some(ChangeRow(time, action, package, source))
  {
    MeaningOfVerb(verb, action);
    VerbsAreVerbs();
    NoCallbackInVerbLine(time, verb, package);
    RowOfVerbLine(time, verb, package, source, VERBS);
  }

  function CallbackLine(time: string, action: string, package: string, rest: string): string {
    time + (" INFO RPM callback " + (action + (" start \"" + (package + ("\"" + rest)))))
  }

  // No action begins like the start marker.
  predicate IsAction(action: string) {
    action != "" && action[0] != 's' && forall i :: 0 <= i < |action| ==> action[i] != ' '
  }

  lemma ActionsAreActions()
    ensures forall i :: 0 <= i < |RPM_ACTIONS| ==> IsAction(RPM_ACTIONS[i])
  {
    assert IsAction("install") && IsAction("erase") && IsAction("upgrade");
    assert IsAction("downgrade") && IsAction("reinstall");
  }

  lemma PartsOfCallbackLine(time: string, action: string, package: string, rest: string)
    requires IsWord(time) && IsAction(action)
    ensures var line, start := CallbackLine(time, action, package, rest), |time| + |RPM_PREFIX|;
            var end := start + |action|;
            && end + 8 <= |line| && line[..|time|] == time && line[start..end] == action
            && HasAt(RPM_PREFIX, line, |time|) && HasAt(START_MARKER, line, end)
            && line[end + 8..] == package + ("\"" + rest)
            && (forall k :: 0 <= k < |time| ==> line[k] != ' ') && line[|time|] == ' '
            && (forall k :: start <= k < end ==> line[k] != ' ') && line[start] != 's'
  {
    var line, tail := CallbackLine(time, action, package, rest), START_MARKER + (package + ("\"" + rest));
    assert line == time + RPM_PREFIX + (action + tail) && line == time + RPM_PREFIX + action + tail;
    assert forall k :: 0 <= k < |action| ==> line[|time| + |RPM_PREFIX| + k] == action[k];
  }

  // In front of the action no space is followed by an s.
  lemma NoStartInPrefix(line: string, time: nat, i: nat)
    requires HasAt(RPM_PREFIX, line, time) && time <= i < time + |RPM_PREFIX|
    requires time + |RPM_PREFIX| < |line| && line[time + |RPM_PREFIX|] != 's'
    ensures !HasAt(START_MARKER, line, i)
  {
    var k := i - time;
    assert line[time + k] == RPM_PREFIX[k];
    assert k + 1 < |RPM_PREFIX| ==> line[time + (k + 1)] == RPM_PREFIX[k + 1];
    assert RPM_PREFIX[k] == ' ' && k + 1 < |RPM_PREFIX| ==> RPM_PREFIX[k + 1] != 's';
    assert !(line[i] == ' ' && line[i + 1] == 's');
    assert START_MARKER[0] == ' ' && START_MARKER[1] == 's' && |START_MARKER| == 8;
  }

  lemma NotInWord(pattern: string, line: string, from: nat, to: nat)
    requires pattern != "" && pattern[0] == ' ' && from <= to <= |line|
    requires forall k :: from <= k < to ==> line[k] != ' '
    ensures forall i :: from <= i < to ==> !HasAt(pattern, line, i)
  {
    forall i | from <= i < to ensures !HasAt(pattern, line, i) {
      assert line[i + 0] != pattern[0];
    }
  }

  // The line around its action, which stands between start and end.
  predicate IsCallbackLine(line: string, time: nat, start: nat, end: nat) {
    && start == time + |RPM_PREFIX| && start <= end && end + 8 <= |line|
    && HasAt(RPM_PREFIX, line, time) && HasAt(START_MARKER, line, end)
    && (forall k :: 0 <= k < time ==> line[k] != ' ') && line[time] == ' '
    && (forall k :: start <= k < end ==> line[k] != ' ') && line[start] != 's'
  }

  lemma StartMarkerIsFirst(line: string, time: nat, start: nat, end: nat)
    requires IsCallbackLine(line, time, start, end)
    ensures FindText(RPM_PREFIX, line, 0) == Some(time)
    ensures FindText(START_MARKER, line, start) == Some(end) && FindText(START_MARKER, line, 0) == Some(end)
  {
    assert RPM_PREFIX[0] == ' ' && START_MARKER[0] == ' ';
    NotInWord(RPM_PREFIX, line, 0, time);
    NotInWord(START_MARKER, line, 0, time);
    NotInWord(START_MARKER, line, start, end);
    forall i | time <= i < start ensures !HasAt(START_MARKER, line, i) {
      NoStartInPrefix(line, time, i);
    }
    FoundAt(RPM_PREFIX, line, 0, time);
    FoundAt(START_MARKER, line, start, end);
    FoundAt(START_MARKER, line, 0, end);
  }

  lemma CallbackIsRead(line: string, time: nat, start: nat, end: nat, package: string, rest: string, source: string)
    requires IsCallbackLine(line, time, start, end) && line[start..end] in RPM_ACTIONS
    requires line[end + 8..] == package + ("\"" + rest) && package != "" && '"' !in package
    ensures ParsePackageChangeLogLine(line, source) ==
            Some(ChangeRow(line[..time], line[start..end], package, source))
  {
    StartMarkerIsFirst(line, time, start, end);
    IndexOfIsUnique(' ', line, time);
    var value := package + ("\"" + rest);
    assert value[..|package|] == package;
    IndexOfIsUnique('"', value, |package|);
  }

  predicate IsRpmAction(action: string) {
    || action == "install" || action == "erase" || action == "upgrade" || action == "downgrade"
    || action == "reinstall"
  }

  lemma RpmActionIsListed(action: string)
    requires IsRpmAction(action)
    ensures action in RPM_ACTIONS
  {
    assert RPM_ACTIONS[0] == "install" && RPM_ACTIONS[1] == "erase" && RPM_ACTIONS[2] == "upgrade";
    assert RPM_ACTIONS[3] == "downgrade" && RPM_ACTIONS[4] == "reinstall";
  }

  // A callback line is read back: time, action and package.
  lemma CallbackLineRoundTrip(time: string, action: string, package: string, rest: string, source: string)
    requires IsWord(time) && IsRpmAction(action) && package != "" && '"' !in package
    ensures ParsePackageChangeLogLine(CallbackLine(time, action, package, rest), source) ==
            Some(ChangeRow(time, action, package, source))
  {
    RpmActionIsListed(action);
    ActionsAreActions();
    PartsOfCallbackLine(time, action, package, rest);
    var start := |time| + |RPM_PREFIX|;
    CallbackIsRead(CallbackLine(time, action, package, rest), |time|, start, start + |action|, package, rest, source);
  }

  lemma LongerHasShorter(pattern: string, first: string, line: string, i: nat)
    requires first <= pattern && HasAt(pattern, line, i)
    ensures HasAt(first, line, i)
  {
    assert forall k :: 0 <= k < |first| ==> first[k] == pattern[k];
  }

  lemma {:induction false} NoInfoNoVerb(line: string, source: string, verbs: seq<string>)
    requires forall i: nat :: !HasAt(" INFO ", line, i)
    ensures RowOfVerb(line, source, verbs) == None
  {
    if verbs != [] {
      var at := FindText(MarkerOf(verbs[0]), line, 0);
      assert " INFO " <= MarkerOf(verbs[0]);
      assert at.None? by {
        if at.Some? {
          LongerHasShorter(MarkerOf(verbs[0]), " INFO ", line, at.value);
        }
      }
      NoInfoNoVerb(line, source, verbs[1..]);
    }
  }

  // Every row comes from a line of level INFO and names its log.
  lemma OnlyInfoLinesAreRows(line: string, source: string)
    requires ParsePackageChangeLogLine(line, source).Some?
    ensures exists i: nat :: HasAt(" INFO ", line, i)
    ensures ParsePackageChangeLogLine(line, source).value.source == source
  {
    var prefix := FindText(RPM_PREFIX, line, 0);
    if prefix.Some? {
      LongerHasShorter(RPM_PREFIX, " INFO ", line, prefix.value);
    }
    if forall i: nat :: !HasAt(" INFO ", line, i) {
      NoInfoNoVerb(line, source, VERBS);
    }
    RowHasSource(line, source, VERBS);
  }

  lemma {:induction false} RowHasSource(line: string, source: string, verbs: seq<string>)
    ensures RowOfVerb(line, source, verbs).Some? ==> RowOfVerb(line, source, verbs).value.source == source
  {
    if verbs != [] {
      RowHasSource(line, source, verbs[1..]);
    }
  }
}
