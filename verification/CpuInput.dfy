/** The bounded input of the processor parser: a prefix of the file that ends with a line where it can,
  * and that never shows more processors than the file has.
  */
module CpuInput {
  import opened CpuInfo
  import opened CpuInfoParser
  import opened CpuInfoProperties
  import opened CpuLines
  import opened Splitting
  import opened Text

  const MAX_INPUT_BYTES := 64 * 1024

  method FindLast(c: char, text: string) returns (at: int)
    ensures -1 <= at < |text| && c !in text[at + 1..]
    ensures at >= 0 ==> text[at] == c
  {
    at := |text| - 1;
    while at >= 0 && text[at] != c
      invariant -1 <= at < |text| && c !in text[at + 1..]
    {
      assert text[at..] == [text[at]] + text[at + 1..];
      at := at - 1;
    }
  }

  method TruncateHardwareInput(content: string) returns (kept: string)
    ensures kept <= content && |kept| <= 64 * 1024
    ensures |content| <= 64 * 1024 ==> kept == content
    ensures |content| > 64 * 1024 && '\n' !in content[..64 * 1024] ==> kept == content[..64 * 1024]
    ensures |content| > 64 * 1024 && '\n' in content[..64 * 1024] ==>
              kept != "" && kept[|kept| - 1] == '\n' && '\n' !in content[|kept|..64 * 1024]
  {
    kept := content;
    if |kept| <= MAX_INPUT_BYTES {
      return;
    }
    kept := kept[..MAX_INPUT_BYTES];
    var lastNewline := FindLast('\n', kept);
    assert lastNewline >= 0 ==> kept[lastNewline + 1..] == content[lastNewline + 1..MAX_INPUT_BYTES];
    assert lastNewline < 0 ==> kept[lastNewline + 1..] == kept;
    if lastNewline >= 0 && lastNewline + 1 < |kept| {
      kept := kept[..lastNewline + 1];
    }
  }

  lemma CutAfterLine(text: string, n: nat, g: nat)
    requires n < g <= |text| && text[n] == '\n'
    ensures text[..g] == text[..n] + ['\n'] + text[n + 1..][..g - n - 1]
  {
  }

  lemma FirstAndMore(first: string, rest: seq<string>, lines: seq<string>, k: nat, cut: nat)
    requires lines == [first] + rest && k < |rest| && cut <= |rest[k]|
    ensures lines[k + 1] == rest[k]
    ensures [first] + (rest[..k] + [rest[k][..cut]]) == lines[..k + 1] + [lines[k + 1][..cut]]
  {
  }

  // Where a text is cut: in its k-th line, of which cut characters are left.
  predicate IsCutInLine(text: string, g: nat, k: nat, cut: nat)
    requires g <= |text|
  {
    var lines := Split('\n', text);
    && k < |lines| && cut <= |lines[k]|
    && Split('\n', text[..g]) == lines[..k] + [lines[k][..cut]]
  }

  lemma SplitBehindLine(text: string, n: nat, rest: string, g: nat)
    requires n == IndexOf('\n', text) < g <= |text| && rest == text[n + 1..]
    ensures Split('\n', text) == [text[..n]] + Split('\n', rest)
    ensures Split('\n', text[..g]) == [text[..n]] + Split('\n', rest[..g - n - 1])
  {
    CutAfterLine(text, n, g);
    SplitHead('\n', text[..n], rest[..g - n - 1], text[..g]);
  }

  lemma CutOneLineLater(text: string, n: nat, rest: string, g: nat, k: nat, cut: nat)
    requires n == IndexOf('\n', text) < g <= |text| && rest == text[n + 1..] && IsCutInLine(rest, g - n - 1, k, cut)
    ensures IsCutInLine(text, g, k + 1, cut)
  {
    SplitBehindLine(text, n, rest, g);
    FirstAndMore(text[..n], Split('\n', rest), Split('\n', text), k, cut);
  }

  // A cut text has the first lines of the text and a part of the next one.
  lemma {:induction false} LinesOfPrefix(text: string, g: nat) returns (k: nat, cut: nat)
    requires g <= |text|
    ensures IsCutInLine(text, g, k, cut)
    decreases |text|
  {
    var n := IndexOf('\n', text);
    if g <= n {
      k, cut := 0, g;
      CutInFirst(text, g);
    } else {
      k, cut := LinesOfPrefix(text[n + 1..], g - n - 1);
      CutOneLineLater(text, n, text[n + 1..], g, k, cut);
      k := k + 1;
    }
  }

  lemma CutInFirst(text: string, g: nat)
    requires g <= IndexOf('\n', text)
    ensures var lines := Split('\n', text);
            g <= |lines[0]| && Split('\n', text[..g]) == lines[..0] + [lines[0][..g]]
  {
    var n := IndexOf('\n', text);
    var first := text[..n];
    assert n == |text| ==> first == text;
    assert text[..g] == first[..g];
    NotInPart('\n', first, g);
    SplitFirst('\n', text[..g], "");
  }

  lemma NotInPart(c: char, text: string, g: nat)
    requires c !in text && g <= |text|
    ensures c !in text[..g]
  {
  }

  // The processors that lines still add when the current group has one already, or not.
  function Adds(lines: seq<string>, has: bool): nat {
    if lines == [] then if has then 1 else 0
    else if IsBlankText(lines[0]) then (if has then 1 else 0) + Adds(lines[1..], false)
    else Adds(lines[1..], has || HasKey(lines[0], "processor"))
  }

  lemma {:induction false} AddsAtLeast(lines: seq<string>, has: bool)
    ensures has ==> Adds(lines, has) >= 1
  {
    if lines != [] && !IsBlankText(lines[0]) {
      AddsAtLeast(lines[1..], has || HasKey(lines[0], "processor"));
    }
  }

  // A part of a line ends a group only when the group would end later, and is a processor only when the line is.
  lemma {:induction false} CutAddsNoMore(lines: seq<string>, k: nat, cut: nat, has: bool)
    requires k < |lines| && cut <= |lines[k]|
    ensures Adds(lines[..k] + [lines[k][..cut]], has) <= Adds(lines, has)
    decreases k
  {
    var first := lines[..k] + [lines[k][..cut]];
    if k == 0 {
      assert first == [lines[0][..cut]] && first[1..] == [];
      if HasKey(first[0], "processor") {
        CutLine(lines[0], cut, "processor");
      }
      AddsAtLeast(lines, has);
      AddsAtLeast(lines[1..], has || HasKey(lines[0], "processor"));
    } else {
      assert first[1..] == lines[1..][..k - 1] + [lines[1..][k - 1][..cut]];
      CutAddsNoMore(lines[1..], k - 1, cut,
                    !IsBlankText(lines[0]) && (has || HasKey(lines[0], "processor")));
    }
  }

  lemma ProcessorsFromFirst(groups: seq<Group>)
    requires groups != []
    ensures Processors(Blocks(groups)) ==
            (if IsProcessor(groups[0]) then 1 else 0) + Processors(Blocks(groups[1..]))
  {
    var first := [groups[0]];
    assert groups == first + groups[1..];
    BlocksAppend(first, groups[1..]);
    ProcessorsAppend(Blocks(first), Blocks(groups[1..]));
    OneGroup(groups[0]);
  }

  lemma OneGroup(group: Group)
    ensures Processors(Blocks([group])) == if IsProcessor(group) then 1 else 0
  {
    BlocksNext([], group);
    CountsNext([], ReadBlock(group));
    assert [] + [group] == [group] && Blocks([]) + [ReadBlock(group)] == [] + [ReadBlock(group)];
  }

  lemma FirstOfGroup(line: string, group: Group)
    ensures IsProcessor([line] + group) <==> HasKey(line, "processor") || IsProcessor(group)
  {
    var longer := [line] + group;
    assert longer[0] == line;
    assert forall i :: 0 <= i < |group| ==> group[i] == longer[i + 1];
  }

  lemma {:induction false} ProcessorsAreAdds(lines: seq<string>, has: bool)
    ensures var groups := GroupsOf(lines);
            Adds(lines, has) ==
            (if has || IsProcessor(groups[0]) then 1 else 0) + Processors(Blocks(groups[1..]))
  {
    var groups := GroupsOf(lines);
    if lines != [] {
      var rest := GroupsOf(lines[1..]);
      if IsBlankText(lines[0]) {
        ProcessorsAreAdds(lines[1..], false);
        ProcessorsFromFirst(rest);
        assert groups[1..] == rest;
      } else {
        ProcessorsAreAdds(lines[1..], has || HasKey(lines[0], "processor"));
        FirstOfGroup(lines[0], rest[0]);
        assert groups[1..] == rest[1..];
      }
    }
  }

  lemma PrefixHasNoMoreProcessors(content: string, g: nat)
    requires g <= |content|
    ensures SummaryOf(content[..g]).logicalProcessors <= SummaryOf(content).logicalProcessors
  {
    var k, cut := LinesOfPrefix(content, g);
    var lines, first := Split('\n', content), Split('\n', content[..g]);
    CutAddsNoMore(lines, k, cut, false);
    ProcessorsAreAdds(lines, false);
    ProcessorsAreAdds(first, false);
    ProcessorsFromFirst(GroupsOf(lines));
    ProcessorsFromFirst(GroupsOf(first));
  }

  // What the summary shows of a file, of which one byte more than the bound is read.
  method SummarizeFile(file: string) returns (summary: CpuSummary)
    ensures |file| <= MAX_INPUT_BYTES ==> summary == SummaryOf(file)
    ensures summary.logicalProcessors <= SummaryOf(file).logicalProcessors
  {
    var content := if |file| <= MAX_INPUT_BYTES then file else file[..MAX_INPUT_BYTES + 1];
    var kept := TruncateHardwareInput(content);
    assert kept == file[..|kept|];
    PrefixHasNoMoreProcessors(file, |kept|);
    summary := ParseCpuInfoSummary(kept);
  }
}
