/** What the counts of a processor summary mean: they do not depend on the order of the groups, and
  * cores do not outnumber processors when cores are named.
  */
module CpuInfoProperties {
  import opened CpuInfo
  import opened CpuInfoParser
  import opened CpuLines
  import opened Decimals
  import opened Sorting
  import opened Splitting
  import opened Text

  lemma {:induction false} ProcessorsAppend(a: seq<Block>, b: seq<Block>)
    ensures Processors(a + b) == Processors(a) + Processors(b)
  {
    if b == [] {
      assert a + b == a;
    } else {
      var last := |b| - 1;
      ProcessorsAppend(a, b[..last]);
      assert (a + b)[..|a| + last] == a + b[..last];
    }
  }

  lemma {:induction false} BlocksAppend(a: seq<Group>, b: seq<Group>)
    ensures Blocks(a + b) == Blocks(a) + Blocks(b)
  {
    if b == [] {
      assert a + b == a;
    } else {
      var before, last := b[..|b| - 1], b[|b| - 1];
      BlocksAppend(a, before);
      BlocksNext(a + before, last);
      BlocksNext(before, last);
      Associate(Blocks(a), Blocks(before), [ReadBlock(last)]);
      assert b == before + [last];
      Associate(a, before, [last]);
    }
  }

  lemma {:induction false} BlocksOfPermuted(a: seq<Group>, b: seq<Group>)
    requires multiset(a) == multiset(b)
    ensures multiset(Blocks(a)) == multiset(Blocks(b))
  {
    if a == [] {
      assert |b| == |multiset(b)|;
    } else {
      var j := TakeOut(a, b);
      BlocksOfPermuted(a[..|a| - 1], b[..j] + b[j + 1..]);
      BlocksAppend(b[..j], b[j + 1..]);
      BlocksNext(b[..j], b[j]);
      BlocksAppend(b[..j] + [b[j]], b[j + 1..]);
    }
  }

  lemma {:induction false} ProcessorsOfPermuted(a: seq<Block>, b: seq<Block>)
    requires multiset(a) == multiset(b)
    ensures Processors(a) == Processors(b)
  {
    if a == [] {
      assert |b| == |multiset(b)|;
    } else {
      var j := TakeOut(a, b);
      ProcessorsOfPermuted(a[..|a| - 1], b[..j] + b[j + 1..]);
      ProcessorsAppend(b[..j], b[j + 1..]);
      CountsNext(b[..j], b[j]);
      ProcessorsAppend(b[..j] + [b[j]], b[j + 1..]);
    }
  }

  lemma {:induction false} MaxIsReached(count: Block -> nat, blocks: seq<Block>)
    ensures forall b :: b in blocks ==> count(b) <= MaxOf(count, blocks)
    ensures MaxOf(count, blocks) == 0 || exists b :: b in blocks && count(b) == MaxOf(count, blocks)
  {
    if blocks != [] {
      var before, last := blocks[..|blocks| - 1], blocks[|blocks| - 1];
      MaxIsReached(count, before);
      assert blocks == before + [last];
    }
  }

  lemma MaxOfPermuted(count: Block -> nat, a: seq<Block>, b: seq<Block>)
    requires forall x :: x in a <==> x in b
    ensures MaxOf(count, a) == MaxOf(count, b)
  {
    MaxIsReached(count, a);
    MaxIsReached(count, b);
  }

  lemma CountsOfPermuted(a: seq<Block>, b: seq<Block>)
    requires multiset(a) == multiset(b)
    ensures Processors(a) == Processors(b) && PhysicalCores(a) == PhysicalCores(b)
  {
    ProcessorsOfPermuted(a, b);
    forall x ensures x in a <==> x in b {
      assert x in a <==> x in multiset(a);
      assert x in b <==> x in multiset(b);
    }
    SameNames(a, b);
    MaxOfPermuted(CoresOfProcessor(), a, b);
  }

  lemma SameNames(a: seq<Block>, b: seq<Block>)
    requires forall x :: x in a <==> x in b
    ensures CoreNames(a) == CoreNames(b) && SocketCores(a) == SocketCores(b)
  {
    assert Sockets(a) == Sockets(b);
    forall id: string ensures MaxOf(CoresOfSocket(id), a) == MaxOf(CoresOfSocket(id), b) {
      MaxOfPermuted(CoresOfSocket(id), a, b);
    }
  }

  // A file with these groups: each line ends with a newline and each group with a blank line.
  function LinesOf(groups: seq<Group>): seq<string> {
    if groups == [] then [] else groups[0] + [""] + LinesOf(groups[1..])
  }

  predicate AreGroups(groups: seq<Group>) {
    forall i, k :: 0 <= i < |groups| && 0 <= k < |groups[i]| ==>
      '\n' !in groups[i][k] && !IsBlankText(groups[i][k])
  }

  lemma {:induction false} GroupThenBlank(group: Group, more: seq<string>)
    requires forall k :: 0 <= k < |group| ==> !IsBlankText(group[k])
    ensures GroupsOf(group + [""] + more) == [group] + GroupsOf(more)
  {
    if group == [] {
      assert ([] + [""] + more)[1..] == more;
      assert [] + [""] + more == [""] + more;
    } else {
      GroupThenBlank(group[1..], more);
      var lines := group + [""] + more;
      assert lines[0] == group[0] && lines[1..] == group[1..] + [""] + more;
      assert [group[0]] + group[1..] == group;
    }
  }

  lemma {:induction false} GroupsOfLines(groups: seq<Group>)
    requires AreGroups(groups)
    ensures GroupsOf(LinesOf(groups) + [""]) == groups + [[], []]
    ensures forall i :: 0 <= i < |LinesOf(groups)| ==> '\n' !in LinesOf(groups)[i]
  {
    if groups == [] {
      GroupThenBlank([], []);
      assert GroupsOf([] + [""] + []) == [[]] + GroupsOf([]);
      assert [] + [""] + [] == LinesOf(groups) + [""];
    } else {
      var rest := LinesOf(groups[1..]);
      assert forall i :: 0 <= i < |groups[1..]| ==> groups[1..][i] == groups[i + 1];
      GroupsOfLines(groups[1..]);
      assert forall k :: 0 <= k < |groups[0]| ==> !IsBlankText(groups[0][k]);
      GroupThenBlank(groups[0], rest + [""]);
      Associate(groups[0] + [""], rest, [""]);
      Associate([groups[0]], groups[1..], [[], []]);
      assert [groups[0]] + groups[1..] == groups;
    }
  }

  // Reading a written file gives back its groups, so the groups may come in any order.
  lemma OrderOfBlocksDoesNotMatter(groups: seq<Group>, permuted: seq<Group>)
    requires AreGroups(groups) && multiset(groups) == multiset(permuted)
    ensures var a, b := SummaryOf(Terminated('\n', LinesOf(groups))), SummaryOf(Terminated('\n', LinesOf(permuted)));
            a.logicalProcessors == b.logicalProcessors && a.physicalCores == b.physicalCores
  {
    forall i | 0 <= i < |permuted|
      ensures forall k :: 0 <= k < |permuted[i]| ==> '\n' !in permuted[i][k] && !IsBlankText(permuted[i][k])
    {
      assert permuted[i] in multiset(groups);
      var j :| 0 <= j < |groups| && groups[j] == permuted[i];
    }
    GroupsOfLines(groups);
    GroupsOfLines(permuted);
    SplitTerminated('\n', LinesOf(groups));
    SplitTerminated('\n', LinesOf(permuted));
    BlocksOfPermuted(groups + [[], []], permuted + [[], []]);
    CountsOfPermuted(Blocks(groups + [[], []]), Blocks(permuted + [[], []]));
  }

  lemma AddOne(names: set<string>, name: string)
    ensures |names + {name}| <= |names| + 1
  {
  }

  lemma {:induction false} NamesWithinProcessors(blocks: seq<Block>)
    ensures |CoreNames(blocks)| <= Processors(blocks)
  {
    if blocks != [] {
      var before, last := blocks[..|blocks| - 1], blocks[|blocks| - 1];
      assert blocks == before + [last];
      NamesWithinProcessors(before);
      CountsNext(before, last);
      AddOne(CoreNames(before), last.CoreName());
    }
  }

  // With one core named, the file cannot claim more cores than processors.
  lemma NamedCoresWithinProcessors(content: string, group: Group)
    requires group in GroupsOf(Split('\n', content)) && ReadBlock(group).NamesCore()
    ensures SummaryOf(content).physicalCores <= SummaryOf(content).logicalProcessors
  {
    var groups := GroupsOf(Split('\n', content));
    BlockInBlocks(groups, group);
    NamesWithinProcessors(Blocks(groups));
    assert ReadBlock(group).CoreName() in CoreNames(Blocks(groups));
  }

  lemma {:induction false} BlockInBlocks(groups: seq<Group>, group: Group)
    requires group in groups
    ensures ReadBlock(group) in Blocks(groups)
  {
    var last := groups[|groups| - 1];
    if group != last {
      assert groups == groups[..|groups| - 1] + [last];
      BlockInBlocks(groups[..|groups| - 1], group);
    }
  }

  // What a file without a named core claims: the sum over its sockets, or else its largest count.
  ghost function ClaimedCores(blocks: seq<Block>): nat {
    if SocketCores(blocks) != map[] then Total(SocketCores(blocks)) % SIZE_LIMIT
    else MaxOf(CoresOfProcessor(), blocks)
  }

  // Cores stay within the processors exactly when a core is named or the claim does.
  lemma CoresWithinProcessors(content: string)
    ensures var blocks := Blocks(GroupsOf(Split('\n', content)));
            SummaryOf(content).physicalCores <= SummaryOf(content).logicalProcessors <==>
            CoreNames(blocks) != {} || ClaimedCores(blocks) <= Processors(blocks)
  {
    NamesWithinProcessors(Blocks(GroupsOf(Split('\n', content))));
  }

  lemma BlockOfProcessorLine(first: string)
    requires LineOf(first) == Pair("processor", "")
    ensures ReadBlock([first]) == Block(true, "", "", 0)
  {
    NextInGroup([], first);
    assert [] + [first] == [first];
    assert ReadBlock([]) == Block(false, "", "", 0);
  }

  lemma BlockOfTwoLines(first: string, second: string, cores: string)
    requires LineOf(first) == Pair("processor", "") && LineOf(second) == Pair("cpu cores", cores)
    ensures ReadBlock([first, second]) == Block(true, "", "", ParseSize(cores))
  {
    BlockOfProcessorLine(first);
    assert "processor"[0] != "cpu cores"[0];
    NextInGroup([first], second);
    assert [first] + [second] == [first, second];
  }

  lemma GroupOfTwoLines(first: string, second: string)
    requires !IsBlankText(first) && !IsBlankText(second)
    ensures GroupsOf([first, second]) == [[first, second]]
  {
    assert [first, second][1..] == [second] && [second][1..] == [];
    assert GroupsOf([]) == [[]];
    assert [second] + [] == [second] && [[second]] + [[]][1..] == [[second]];
    assert GroupsOf([second]) == [[second]];
    assert [first] + [second] == [first, second] && [[first, second]] + [[second]][1..] == [[first, second]];
  }

  lemma CountsOfOne(block: Block)
    requires block.hasProcessor && block.physicalId == ""
    ensures Processors([block]) == 1
    ensures PhysicalCores([block]) == if block.cpuCores > 0 then block.cpuCores else 1
  {
    CountsNext([], block);
    MaxNext(CoresOfProcessor(), [], block);
    assert [] + [block] == [block];
    assert CoreNames([]) == {} && Sockets([]) == {};
    assert SocketCores([block]) == map[];
  }

  lemma CountsOfContent(content: string, group: Group)
    requires GroupsOf(Split('\n', content)) == [group]
    requires ReadBlock(group).hasProcessor && ReadBlock(group).physicalId == "" && ReadBlock(group).cpuCores > 0
    ensures SummaryOf(content).logicalProcessors == 1
    ensures SummaryOf(content).physicalCores == ReadBlock(group).cpuCores
  {
    BlocksNext([], group);
    assert [] + [group] == [group] && [] + [ReadBlock(group)] == [ReadBlock(group)];
    CountsOfOne(ReadBlock(group));
  }

  lemma TwoLines(content: string, first: string, second: string)
    requires content == first + ['\n'] + second && '\n' !in first && '\n' !in second
    ensures Split('\n', content) == [first, second]
  {
    SplitFirst('\n', first, second);
    SplitFirst('\n', second, "");
  }

  predicate IsPlainKey(key: string) {
    && key != "" && IsTrimmed(key)
    && forall i :: 0 <= i < |key| ==> key[i] != ':' && key[i] != '\n'
  }

  lemma KeyLine(key: string, value: string, line: string)
    requires IsPlainKey(key) && line == key + ":" + value
    requires forall i :: 0 <= i < |value| ==> IsDigit(value[i])
    ensures LineOf(line) == Pair(key, value) && '\n' !in line
  {
    LineOfPair(key, value);
  }

  lemma KeysArePlain()
    ensures IsPlainKey("processor") && IsPlainKey("cpu cores")
  {
  }

  lemma LinesAreBelieved(content: string, first: string, second: string, cores: nat)
    requires first == "processor" + ":" + "" && second == "cpu cores" + ":" + Decimal(cores)
    requires content == first + ['\n'] + second && 1 < cores < SIZE_LIMIT
    ensures SummaryOf(content).logicalProcessors == 1 && SummaryOf(content).physicalCores == cores
  {
    KeysArePlain();
    KeyLine("processor", "", first);
    KeyLine("cpu cores", Decimal(cores), second);
    TwoLines(content, first, second);
    GroupOfTwoLines(first, second);
    BlockOfTwoLines(first, second, Decimal(cores));
    SizeRoundTrip(cores);
    CountsOfContent(content, [first, second]);
  }

  // Without a named core a file is believed: one processor may have any number of cores.
  lemma UnnamedCoresAreBelieved(cores: nat)
    requires 1 < cores < SIZE_LIMIT
    ensures var content := "processor:\ncpu cores:" + Decimal(cores);
            SummaryOf(content).logicalProcessors == 1 && SummaryOf(content).physicalCores == cores
  {
    var first, second := "processor" + ":" + "", "cpu cores" + ":" + Decimal(cores);
    assert "processor:\ncpu cores:" + Decimal(cores) == first + ['\n'] + second;
    LinesAreBelieved("processor:\ncpu cores:" + Decimal(cores), first, second, cores);
  }
}
