/** The one-pass parser of /proc/cpuinfo agrees with the declarative reading. */
module CpuInfoParser {
  import opened CpuInfo
  import opened CpuLines
  import opened Splitting
  import opened Text

  // The variables of the loop.
  datatype State = State(block: Block, vendor: string, model: string,
                         logical: nat, fallback: nat, sockets: map<string, nat>, names: set<string>)

  ghost predicate AreTotals(blocks: seq<Block>, s: State) {
    && s.logical == Processors(blocks) && s.fallback == MaxOf(CoresOfProcessor(), blocks)
    && s.sockets == SocketCores(blocks) && s.names == CoreNames(blocks)
  }

  method FinalizeCpuBlock(s: State, ghost blocks: seq<Block>) returns (s': State)
    requires AreTotals(blocks, s)
    ensures AreTotals(blocks + [s.block], s')
    ensures s'.block == s.block && s'.vendor == s.vendor && s'.model == s.model
  {
    var block := s.block;
    CountsNext(blocks, block);
    MaxNext(CoresOfProcessor(), blocks, block);
    SocketCoresNext(blocks, block);
    s' := s;
    if !block.hasProcessor {
      return;
    }
    s' := s'.(logical := s.logical + 1);
    if block.physicalId != "" && block.coreId != "" {
      s' := s'.(names := s.names + {block.physicalId + ":" + block.coreId});
    } else if block.physicalId != "" && block.cpuCores > 0 {
      var before := if block.physicalId in s.sockets then s.sockets[block.physicalId] else 0;
      var most := if before < block.cpuCores then block.cpuCores else before;
      s' := s'.(sockets := s.sockets[block.physicalId := most]);
    }
    s' := s'.(fallback := if s.fallback < block.cpuCores then block.cpuCores else s.fallback);
  }

  // The groups when some are done, one has begun and the others are still to be read.
  function Joined(done: seq<Group>, current: Group, rest: seq<Group>): seq<Group>
    requires |rest| > 0
  {
    done + [current + rest[0]] + rest[1..]
  }

  lemma NextLine(done: seq<Group>, current: Group, line: string, more: seq<string>)
    ensures var rest := GroupsOf([line] + more);
            Joined(done, current, rest) ==
            if IsBlankText(line) then Joined(done + [current], [], GroupsOf(more))
            else Joined(done, current + [line], GroupsOf(more))
  {
    assert ([line] + more)[1..] == more;
    var rest := GroupsOf(more);
    if IsBlankText(line) {
      assert current + [] == current && [] + rest[0] == rest[0];
      assert [rest[0]] + rest[1..] == rest;
    } else {
      assert current + ([line] + rest[0]) == current + [line] + rest[0];
    }
  }

  lemma NextInGroup(group: Group, line: string)
    ensures var block, parsed := ReadBlock(group), LineOf(line);
            ReadBlock(group + [line]) ==
            if !parsed.Pair? then block
            else if parsed.key == "processor" then block.(hasProcessor := true)
            else if parsed.key == "physical id" then block.(physicalId := parsed.value)
            else if parsed.key == "core id" then block.(coreId := parsed.value)
            else if parsed.key == "cpu cores" then block.(cpuCores := ParseSize(parsed.value))
            else block
  {
    var longer := group + [line];
    assert longer[..|group|] == group && longer[|group|] == line;
    assert IsProcessor(longer) <==> IsProcessor(group) || HasKey(line, "processor") by {
      assert forall i :: 0 <= i < |group| ==> longer[i] == group[i];
    }
  }

  lemma NextValue(line: string, more: seq<string>, key: string)
    ensures FirstValue([line] + more, key) ==
            if HasKey(line, key) && LineOf(line).value != "" then LineOf(line).value else FirstValue(more, key)
  {
    assert ([line] + more)[1..] == more;
  }

  lemma NothingJoined(rest: seq<Group>)
    requires |rest| > 0
    ensures Joined([], [], rest) == rest
    ensures forall done: seq<Group>, current: Group :: Joined(done, current, [[]]) == done + [current]
  {
    assert [] + rest[0] == rest[0] && [rest[0]] + rest[1..] == rest;
    forall done: seq<Group>, current: Group ensures Joined(done, current, [[]]) == done + [current] {
      assert current + [] == current;
    }
  }

  // Adding in size_t.
  function Plus(a: nat, b: nat): nat {
    (a + b) % SIZE_LIMIT
  }

  lemma AddsUp(added: nat, next: nat)
    ensures Plus(added % SIZE_LIMIT, next) == (added + next) % SIZE_LIMIT
  {
    assert added == SIZE_LIMIT * (added / SIZE_LIMIT) + added % SIZE_LIMIT;
  }

  // The sum of a size_t wraps around, in whatever order the entries come.
  method SumOf(counts: map<string, nat>) returns (sum: nat)
    ensures sum == Total(counts) % SIZE_LIMIT
  {
    var left: map<string, nat> := counts;
    sum := 0;
    ghost var added: nat, total := 0, Total(counts);
    while left != map[]
      invariant sum == added % SIZE_LIMIT && added + Total(left) == total
      decreases left
    {
      var key :| key in left;
      TotalWithout(left, key);
      AddsUp(added, left[key]);
      sum := Plus(sum, left[key]);
      added := added + left[key];
      left := left - {key};
    }
  }

  ghost predicate IsFirst(found: string, rest: seq<string>, key: string, first: string) {
    first == if found != "" then found else FirstValue(rest, key)
  }

  // The variables agree with the groups that are done and the one that has begun.
  ghost predicate Agrees(lines: seq<string>, s: State, done: seq<Group>, current: Group, rest: seq<string>) {
    && Joined(done, current, GroupsOf(rest)) == GroupsOf(lines)
    && s.block == ReadBlock(current) && AreTotals(Blocks(done), s)
    && IsFirst(s.vendor, rest, "vendor_id", FirstValue(lines, "vendor_id"))
    && IsFirst(s.model, rest, "model name", FirstValue(lines, "model name"))
  }

  method TakeBlank(line: string, s: State, ghost lines: seq<string>, ghost done: seq<Group>, ghost current: Group,
                   ghost more: seq<string>)
    returns (s': State)
    requires Agrees(lines, s, done, current, [line] + more) && IsBlankText(line)
    ensures Agrees(lines, s', done + [current], [], more)
  {
    NextLine(done, current, line, more);
    NextValue(line, more, "vendor_id");
    NextValue(line, more, "model name");
    s' := FinalizeCpuBlock(s, Blocks(done));
    BlocksNext(done, current);
    s' := s'.(block := Block(false, "", "", 0));
  }

  method TakeItem(line: string, s: State, ghost lines: seq<string>, ghost done: seq<Group>, ghost current: Group,
                  ghost more: seq<string>)
    returns (s': State)
    requires Agrees(lines, s, done, current, [line] + more) && !IsBlankText(line)
    ensures Agrees(lines, s', done, current + [line], more)
  {
    NextLine(done, current, line, more);
    NextInGroup(current, line);
    NextValue(line, more, "vendor_id");
    NextValue(line, more, "model name");
    s' := s;
    var separator := IndexOf(':', line);
    if separator < |line| {
      var key := TrimString(line[..separator]);
      var value := TrimString(line[separator + 1..]);
      if key == "processor" {
        s' := s.(block := s.block.(hasProcessor := true));
      } else if key == "vendor_id" && s.vendor == "" {
        s' := s.(vendor := value);
      } else if key == "model name" && s.model == "" {
        s' := s.(model := value);
      } else if key == "physical id" {
        s' := s.(block := s.block.(physicalId := value));
      } else if key == "core id" {
        s' := s.(block := s.block.(coreId := value));
      } else if key == "cpu cores" {
        s' := s.(block := s.block.(cpuCores := ParseSize(value)));
      }
    }
  }

  // When nothing is left to be read, the group that has begun is the last one.
  lemma LastGroup(lines: seq<string>, s: State, done: seq<Group>, current: Group)
    requires Agrees(lines, s, done, current, [])
    ensures Blocks(GroupsOf(lines)) == Blocks(done) + [s.block]
    ensures s.vendor == FirstValue(lines, "vendor_id") && s.model == FirstValue(lines, "model name")
  {
    NothingJoined(GroupsOf([]));
    BlocksNext(done, current);
  }

  method PhysicalCoresOf(total: State, ghost blocks: seq<Block>) returns (physical: nat)
    requires AreTotals(blocks, total)
    ensures physical == PhysicalCores(blocks)
  {
    if total.names != {} {
      physical := |total.names|;
    } else if total.sockets != map[] {
      physical := SumOf(total.sockets);
    } else if total.fallback > 0 {
      physical := total.fallback;
    } else {
      physical := total.logical;
    }
  }

  // The last group has no blank line after it.
  method Summarize(s: State, ghost lines: seq<string>, ghost done: seq<Group>, ghost current: Group)
    returns (summary: CpuSummary)
    requires Agrees(lines, s, done, current, [])
    ensures summary == CpuSummary(FirstValue(lines, "vendor_id"), FirstValue(lines, "model name"),
                                  Processors(Blocks(GroupsOf(lines))), PhysicalCores(Blocks(GroupsOf(lines))))
  {
    LastGroup(lines, s, done, current);
    var total := FinalizeCpuBlock(s, Blocks(done));
    var physical := PhysicalCoresOf(total, Blocks(done) + [s.block]);
    return CpuSummary(s.vendor, s.model, total.logical, physical);
  }

  method ParseCpuInfoSummary(content: string) returns (summary: CpuSummary)
    ensures summary == SummaryOf(content)
  {
    ghost var lines := Split('\n', content);
    var s := State(Block(false, "", "", 0), "", "", 0, 0, map[], {});
    ghost var done, current, rest := [], [], lines;
    var start := 0;
    assert content[0..] == content;
    NothingJoined(GroupsOf(lines));
    while start <= |content|
      invariant start <= |content| && rest == Split('\n', content[start..])
      invariant Agrees(lines, s, done, current, rest)
      decreases |content| - start
    {
      var line, next, last;
      line, next, last, rest := LineFrom(content, start);
      TrimIsEmpty(line);
      var trimmed := TrimString(line);
      if trimmed == "" {
        s := TakeBlank(line, s, lines, done, current, rest);
        done, current := done + [current], [];
      } else {
        s := TakeItem(line, s, lines, done, current, rest);
        current := current + [line];
      }
      if last {
        break;
      }
      start := next;
    }
    summary := Summarize(s, lines, done, current);
  }
}
