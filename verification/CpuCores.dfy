/** What a processor summary counts, in the terms of a file that lists some processors: cores of different sockets are
  * different cores, unless their ids run together at a colon.
  */
module CpuCores {
  import opened CpuInfo
  import opened CpuInfoParser
  import opened CpuInfoProperties
  import opened CpuLines
  import opened Decimals
  import opened Splitting
  import opened Text

  // ---- A listed processor ----

  datatype Cpu = Cpu(index: nat, vendor: string, model: string, physicalId: string, coreId: string, cores: nat)

  predicate IsValue(value: string) {
    IsTrimmed(value) && '\n' !in value
  }

  predicate IsCpu(cpu: Cpu) {
    && IsValue(cpu.vendor) && IsValue(cpu.model) && IsValue(cpu.physicalId) && IsValue(cpu.coreId)
    && cpu.cores < SIZE_LIMIT
  }

  predicate AreCpus(cpus: seq<Cpu>) {
    forall i :: 0 <= i < |cpus| ==> IsCpu(cpus[i])
  }

  // A line as the kernel writes it.
  function KernelLine(key: string, value: string): string {
    key + "\t: " + value
  }

  const KEYS := ["processor", "vendor_id", "model name", "physical id", "core id", "cpu cores"]

  function ValuesFor(cpu: Cpu): (values: seq<string>)
    ensures |values| == |KEYS|
  {
    [Decimal(cpu.index), cpu.vendor, cpu.model, cpu.physicalId, cpu.coreId, Decimal(cpu.cores)]
  }

  function GroupFor(cpu: Cpu): Group {
    seq(|KEYS|, i requires 0 <= i < |KEYS| => KernelLine(KEYS[i], ValuesFor(cpu)[i]))
  }

  function GroupsFor(cpus: seq<Cpu>): seq<Group> {
    seq(|cpus|, i requires 0 <= i < |cpus| => GroupFor(cpus[i]))
  }

  function FileOf(cpus: seq<Cpu>): string {
    Terminated('\n', LinesOf(GroupsFor(cpus)))
  }

  function BlockFor(cpu: Cpu): Block {
    Block(true, cpu.physicalId, cpu.coreId, cpu.cores)
  }

  function BlocksFor(cpus: seq<Cpu>): seq<Block> {
    seq(|cpus|, i requires 0 <= i < |cpus| => BlockFor(cpus[i]))
  }

  lemma TrimAround(text: string)
    requires IsTrimmed(text)
    ensures Trim(text + "\t") == text && Trim(" " + text) == text
  {
    assert (text + "\t")[..|text|] == text;
    var after := " " + text;
    assert after[1..] == text;
    if text == "" {
      assert after[..0] == "";
    }
  }

  lemma PartsOfKernel(key: string, value: string, line: string)
    requires line == KernelLine(key, value) && ':' !in key
    ensures IndexOf(':', line) == |key| + 1 && |key| + 1 < |line|
    ensures line[..|key| + 1] == key + "\t" && line[|key| + 2..] == " " + value
  {
    assert line[..|key| + 1] == key + "\t" && line[|key| + 2..] == " " + value;
    IndexOfIsUnique(':', line, |key| + 1);
  }

  lemma PairOfParts(line: string, n: nat, key: string, value: string)
    requires IndexOf(':', line) == n < |line| && !IsBlankText(line)
    requires Trim(line[..n]) == key && Trim(line[n + 1..]) == value
    ensures LineOf(line) == Pair(key, value)
  {
  }

  lemma KernelIsOneLine(key: string, value: string, line: string)
    requires line == KernelLine(key, value) && key != "" && !IsBlank(key[0]) && '\n' !in key && '\n' !in value
    ensures !IsBlankText(line) && '\n' !in line
  {
    assert line[0] == key[0] && line[0] in line;
  }

  lemma LineOfKernel(key: string, value: string, line: string)
    requires IsPlainKey(key) && IsValue(value) && line == KernelLine(key, value)
    ensures LineOf(line) == Pair(key, value) && '\n' !in line && !IsBlankText(line)
  {
    KernelIsOneLine(key, value, line);
    PartsOfKernel(key, value, line);
    TrimAround(key);
    TrimAround(value);
    PairOfParts(line, |key| + 1, key, value);
  }

  lemma KeysArePlain()
    ensures forall i :: 0 <= i < |KEYS| ==> IsPlainKey(KEYS[i])
  {
    assert IsPlainKey("processor") && IsPlainKey("vendor_id") && IsPlainKey("model name");
    assert IsPlainKey("physical id") && IsPlainKey("core id") && IsPlainKey("cpu cores");
  }

  lemma DecimalIsValue(n: nat)
    ensures IsValue(Decimal(n))
  {
  }

  lemma ValuesAreValues(cpu: Cpu)
    requires IsCpu(cpu)
    ensures forall i :: 0 <= i < |KEYS| ==> IsValue(ValuesFor(cpu)[i])
  {
    DecimalIsValue(cpu.index);
    DecimalIsValue(cpu.cores);
  }

  lemma LinesOfKeys(keys: seq<string>, values: seq<string>, lines: seq<string>)
    requires |keys| == |values| == |lines|
    requires forall i :: 0 <= i < |lines| ==>
               IsPlainKey(keys[i]) && IsValue(values[i]) && lines[i] == KernelLine(keys[i], values[i])
    ensures forall i :: 0 <= i < |lines| ==>
              LineOf(lines[i]) == Pair(keys[i], values[i]) && '\n' !in lines[i] && !IsBlankText(lines[i])
  {
    forall i | 0 <= i < |lines|
      ensures LineOf(lines[i]) == Pair(keys[i], values[i]) && '\n' !in lines[i] && !IsBlankText(lines[i])
    {
      LineOfKernel(keys[i], values[i], lines[i]);
    }
  }

  lemma LinesOfCpu(cpu: Cpu)
    requires IsCpu(cpu)
    ensures |GroupFor(cpu)| == |KEYS|
    ensures forall i :: 0 <= i < |GroupFor(cpu)| ==>
              && LineOf(GroupFor(cpu)[i]) == Pair(KEYS[i], ValuesFor(cpu)[i])
              && '\n' !in GroupFor(cpu)[i] && !IsBlankText(GroupFor(cpu)[i])
  {
    KeysArePlain();
    ValuesAreValues(cpu);
    LinesOfKeys(KEYS, ValuesFor(cpu), GroupFor(cpu));
  }

  lemma WithPhysicalId(group: Group, line: string, id: string)
    requires LineOf(line) == Pair("physical id", id)
    ensures ReadBlock(group + [line]) == ReadBlock(group).(physicalId := id)
  {
    assert "physical id"[1] != "processor"[1];
    NextInGroup(group, line);
  }

  lemma WithCoreId(group: Group, line: string, id: string)
    requires LineOf(line) == Pair("core id", id)
    ensures ReadBlock(group + [line]) == ReadBlock(group).(coreId := id)
  {
    assert "core id"[0] != "physical id"[0] == "processor"[0];
    NextInGroup(group, line);
  }

  lemma WithCores(group: Group, line: string, cores: string)
    requires LineOf(line) == Pair("cpu cores", cores)
    ensures ReadBlock(group + [line]) == ReadBlock(group).(cpuCores := ParseSize(cores))
  {
    assert "cpu cores"[1] != "core id"[1] && "cpu cores"[0] != "physical id"[0] == "processor"[0];
    NextInGroup(group, line);
  }

  lemma WithProcessor(line: string, index: string)
    requires LineOf(line) == Pair("processor", index)
    ensures ReadBlock([line]) == Block(true, "", "", 0)
  {
    NextInGroup([], line);
    assert [] + [line] == [line];
    assert ReadBlock([]) == Block(false, "", "", 0);
  }

  // A line that says who made the processor, or what it is.
  lemma WithName(group: Group, line: string, key: string, name: string)
    requires LineOf(line) == Pair(key, name) && (key == "vendor_id" || key == "model name")
    ensures ReadBlock(group + [line]) == ReadBlock(group)
  {
    assert "vendor_id"[0] == 'v' && "model name"[0] == 'm';
    assert "physical id"[0] == "processor"[0] == 'p' && "core id"[0] == "cpu cores"[0] == 'c';
    NextInGroup(group, line);
  }

  lemma ThenIds(group: Group, b: string, c: string, d: string, p: string, core: string, cores: string)
    requires LineOf(b) == Pair("physical id", p)
    requires LineOf(c) == Pair("core id", core) && LineOf(d) == Pair("cpu cores", cores)
    ensures ReadBlock(group + [b] + [c] + [d]) ==
            ReadBlock(group).(physicalId := p, coreId := core, cpuCores := ParseSize(cores))
  {
    var two := group + [b];
    var three := two + [c];
    WithPhysicalId(group, b, p);
    WithCoreId(two, c, core);
    WithCores(three, d, cores);
  }

  lemma ThenNames(group: Group, b: string, c: string, vendor: string, model: string)
    requires LineOf(b) == Pair("vendor_id", vendor) && LineOf(c) == Pair("model name", model)
    ensures ReadBlock(group + [b] + [c]) == ReadBlock(group)
  {
    WithName(group, b, "vendor_id", vendor);
    WithName(group + [b], c, "model name", model);
  }

  lemma SixLines(lines: Group)
    requires |lines| == 6
    ensures lines == [lines[0]] + [lines[1]] + [lines[2]] + [lines[3]] + [lines[4]] + [lines[5]]
  {
  }

  lemma BlockOfSix(a: string, b: string, c: string, d: string, e: string, f: string, values: seq<string>)
    requires |values| == 6 && LineOf(a) == Pair("processor", values[0])
    requires LineOf(b) == Pair("vendor_id", values[1]) && LineOf(c) == Pair("model name", values[2])
    requires LineOf(d) == Pair("physical id", values[3]) && LineOf(e) == Pair("core id", values[4])
    requires LineOf(f) == Pair("cpu cores", values[5])
    ensures ReadBlock([a] + [b] + [c] + [d] + [e] + [f]) == Block(true, values[3], values[4], ParseSize(values[5]))
  {
    WithProcessor(a, values[0]);
    ThenNames([a], b, c, values[1], values[2]);
    ThenIds([a] + [b] + [c], d, e, f, values[3], values[4], values[5]);
  }

  lemma BlockOfLines(lines: Group, values: seq<string>)
    requires |lines| == |values| == |KEYS|
    requires forall i :: 0 <= i < |KEYS| ==> LineOf(lines[i]) == Pair(KEYS[i], values[i])
    ensures ReadBlock(lines) == Block(true, values[3], values[4], ParseSize(values[5]))
  {
    assert KEYS[0] == "processor" && KEYS[1] == "vendor_id" && KEYS[2] == "model name";
    assert KEYS[3] == "physical id" && KEYS[4] == "core id" && KEYS[5] == "cpu cores";
    SixLines(lines);
    BlockOfSix(lines[0], lines[1], lines[2], lines[3], lines[4], lines[5], values);
  }

  lemma BlockOfCpu(cpu: Cpu)
    requires IsCpu(cpu)
    ensures ReadBlock(GroupFor(cpu)) == BlockFor(cpu)
  {
    LinesOfCpu(cpu);
    SizeRoundTrip(cpu.cores);
    BlockOfLines(GroupFor(cpu), ValuesFor(cpu));
  }

  lemma CpusNext(cpus: seq<Cpu>, cpu: Cpu)
    ensures GroupsFor(cpus + [cpu]) == GroupsFor(cpus) + [GroupFor(cpu)]
    ensures BlocksFor(cpus + [cpu]) == BlocksFor(cpus) + [BlockFor(cpu)]
  {
    var more := cpus + [cpu];
    assert forall i :: 0 <= i < |cpus| ==> more[i] == cpus[i];
  }

  lemma {:induction false} BlocksOfCpus(cpus: seq<Cpu>)
    requires AreCpus(cpus)
    ensures Blocks(GroupsFor(cpus)) == BlocksFor(cpus)
  {
    if cpus != [] {
      var before, last := cpus[..|cpus| - 1], cpus[|cpus| - 1];
      assert cpus == before + [last];
      BlocksOfCpus(before);
      BlocksNext(GroupsFor(before), GroupFor(last));
      CpusNext(before, last);
      BlockOfCpu(last);
    }
  }

  // The two empty groups at the end of a written file.
  const EMPTY := Block(false, "", "", 0)

  lemma FileIsSplit(cpus: seq<Cpu>)
    requires AreCpus(cpus)
    ensures AreGroups(GroupsFor(cpus)) && Split('\n', FileOf(cpus)) == LinesOf(GroupsFor(cpus)) + [""]
  {
    var groups := GroupsFor(cpus);
    forall i | 0 <= i < |groups|
      ensures forall k :: 0 <= k < |groups[i]| ==> '\n' !in groups[i][k] && !IsBlankText(groups[i][k])
    {
      LinesOfCpu(cpus[i]);
    }
    GroupsOfLines(groups);
    SplitTerminated('\n', LinesOf(groups));
  }

  lemma FileIsRead(cpus: seq<Cpu>)
    requires AreCpus(cpus)
    ensures Blocks(GroupsOf(Split('\n', FileOf(cpus)))) == BlocksFor(cpus) + [EMPTY] + [EMPTY]
  {
    var groups := GroupsFor(cpus);
    FileIsSplit(cpus);
    GroupsOfLines(groups);
    BlocksOfCpus(cpus);
    BlocksNext(groups, []);
    BlocksNext(groups + [[]], []);
    assert groups + [[]] + [[]] == groups + [[], []];
  }

  // ---- Cores with names ----

  type CoreId = (string, string)

  ghost function NamedCores(blocks: seq<Block>): set<CoreId> {
    set b | b in blocks && b.hasProcessor && b.physicalId != "" && b.coreId != "" :: (b.physicalId, b.coreId)
  }

  function Name(id: CoreId): string {
    id.0 + ":" + id.1
  }

  ghost function Names(ids: set<CoreId>): set<string> {
    set id | id in ids :: Name(id)
  }

  ghost predicate AreNamedApart(ids: set<CoreId>) {
    forall a, b :: a in ids && b in ids && Name(a) == Name(b) ==> a == b
  }

  lemma {:induction false} NamesOfIds(ids: set<CoreId>)
    ensures |Names(ids)| <= |ids| && (|Names(ids)| == |ids| <==> AreNamedApart(ids))
  {
    if ids != {} {
      var id :| id in ids;
      var others := ids - {id};
      NamesOfIds(others);
      assert Names(ids) == Names(others) + {Name(id)};
      assert ids == others + {id};
      if Name(id) in Names(others) {
        assert Names(ids) == Names(others);
      }
    }
  }

  // The colon between the ids of the one is a colon in an id of the other.
  ghost predicate RunTogether(a: CoreId, b: CoreId) {
    exists middle :: a.0 == b.0 + ":" + middle && b.1 == middle + ":" + a.1
  }

  lemma LongerFirst(a: CoreId, b: CoreId)
    requires Name(a) == Name(b) && |b.0| < |a.0|
    ensures RunTogether(a, b)
  {
    var name, n := Name(a), |b.0|;
    var middle := a.0[n + 1..];
    assert name[n] == ':' && name[..n] == b.0 && name[..|a.0|] == a.0;
    assert a.0 == b.0 + ":" + middle;
    assert b.1 == name[n + 1..] == middle + ":" + a.1;
  }

  lemma SameNameIffRunTogether(a: CoreId, b: CoreId)
    ensures Name(a) == Name(b) && a != b <==> RunTogether(a, b) || RunTogether(b, a)
  {
    if Name(a) == Name(b) {
      var name := Name(a);
      if |b.0| < |a.0| {
        LongerFirst(a, b);
      } else if |a.0| < |b.0| {
        LongerFirst(b, a);
      } else {
        assert name[..|a.0|] == a.0 && name[..|a.0|] == b.0;
        assert name[|a.0| + 1..] == a.1 && name[|a.0| + 1..] == b.1;
        assert !RunTogether(a, b) && !RunTogether(b, a);
      }
    }
    SameNameIfRunTogether(a, b);
    SameNameIfRunTogether(b, a);
  }

  lemma SameNameIfRunTogether(a: CoreId, b: CoreId)
    ensures RunTogether(a, b) ==> Name(a) == Name(b) && a != b
  {
    if RunTogether(a, b) {
      var middle :| a.0 == b.0 + ":" + middle && b.1 == middle + ":" + a.1;
      assert b.0 + ":" + middle + ":" + a.1 == b.0 + ":" + (middle + ":" + a.1);
    }
  }

  ghost predicate NoneRunTogether(ids: set<CoreId>) {
    forall a, b :: a in ids && b in ids ==> !RunTogether(a, b)
  }

  lemma CoreNamesAreNames(blocks: seq<Block>)
    ensures CoreNames(blocks) == Names(NamedCores(blocks))
  {
    forall name ensures name in CoreNames(blocks) <==> name in Names(NamedCores(blocks)) {
      if name in CoreNames(blocks) {
        var b :| b in blocks && b.NamesCore() && b.CoreName() == name;
        assert (b.physicalId, b.coreId) in NamedCores(blocks);
      }
    }
  }

  // With a named core, the cores are at most the different pairs of ids, and just as many exactly when no two of the
  // pairs run together.
  lemma CoresArePairs(content: string)
    ensures var ids, cores := NamedCores(Blocks(GroupsOf(Split('\n', content)))), SummaryOf(content).physicalCores;
            ids != {} ==> cores <= |ids| && (cores == |ids| <==> NoneRunTogether(ids))
  {
    var blocks := Blocks(GroupsOf(Split('\n', content)));
    var ids := NamedCores(blocks);
    CoresAreNames(blocks);
    NamesOfIds(ids);
    ApartIffNoneRunTogether(ids);
  }

  lemma CoresAreNames(blocks: seq<Block>)
    ensures NamedCores(blocks) != {} ==> PhysicalCores(blocks) == |Names(NamedCores(blocks))|
  {
    CoreNamesAreNames(blocks);
    if NamedCores(blocks) != {} {
      var id :| id in NamedCores(blocks);
      assert Name(id) in Names(NamedCores(blocks));
    }
  }

  lemma ApartIffNoneRunTogether(ids: set<CoreId>)
    ensures AreNamedApart(ids) <==> NoneRunTogether(ids)
  {
    forall a, b | a in ids && b in ids
      ensures Name(a) == Name(b) && a != b <==> RunTogether(a, b) || RunTogether(b, a)
    {
      SameNameIffRunTogether(a, b);
    }
  }

  lemma ColonInside(a: CoreId, b: CoreId)
    ensures RunTogether(a, b) ==> ':' in a.0
  {
    if RunTogether(a, b) {
      var middle :| a.0 == b.0 + ":" + middle && b.1 == middle + ":" + a.1;
      assert a.0[|b.0|] == ':';
    }
  }

  lemma NoColonNoneTogether(ids: set<CoreId>)
    requires forall id :: id in ids ==> ':' !in id.0
    ensures NoneRunTogether(ids)
  {
    forall a, b | a in ids && b in ids ensures !RunTogether(a, b) {
      ColonInside(a, b);
    }
  }

  // ---- Listed processors ----

  ghost function IdsOf(cpus: seq<Cpu>): set<CoreId> {
    set cpu | cpu in cpus && cpu.physicalId != "" && cpu.coreId != "" :: (cpu.physicalId, cpu.coreId)
  }

  lemma IdsOfFile(cpus: seq<Cpu>)
    ensures NamedCores(BlocksFor(cpus) + [EMPTY] + [EMPTY]) == IdsOf(cpus)
  {
    var blocks := BlocksFor(cpus) + [EMPTY] + [EMPTY];
    forall id ensures id in NamedCores(blocks) <==> id in IdsOf(cpus) {
      if id in NamedCores(blocks) {
        var i :| 0 <= i < |blocks| && blocks[i].hasProcessor && blocks[i].physicalId == id.0
                 && blocks[i].coreId == id.1 && id.0 != "" && id.1 != "";
        assert cpus[i] in cpus;
      }
      if id in IdsOf(cpus) {
        var i :| 0 <= i < |cpus| && cpus[i].physicalId == id.0 && cpus[i].coreId == id.1;
        assert blocks[i] == BlockFor(cpus[i]) && blocks[i] in blocks;
      }
    }
  }

  lemma {:induction false} EachIsAProcessor(cpus: seq<Cpu>)
    ensures Processors(BlocksFor(cpus)) == |cpus|
  {
    if cpus != [] {
      EachIsAProcessor(cpus[..|cpus| - 1]);
      assert BlocksFor(cpus)[..|cpus| - 1] == BlocksFor(cpus[..|cpus| - 1]);
    }
  }

  // Every listed processor counts, and the cores are the different pairs of ids, as long as no physical id has a colon.
  lemma ListedCoresAreCounted(cpus: seq<Cpu>)
    requires AreCpus(cpus)
    ensures var summary := SummaryOf(FileOf(cpus));
            && summary.logicalProcessors == |cpus|
            && (IdsOf(cpus) != {} && (forall id :: id in IdsOf(cpus) ==> ':' !in id.0) ==>
                  summary.physicalCores == |IdsOf(cpus)|)
            && (IdsOf(cpus) != {} ==> (summary.physicalCores == |IdsOf(cpus)| <==> NoneRunTogether(IdsOf(cpus))))
  {
    FileIsRead(cpus);
    IdsOfFile(cpus);
    CoresArePairs(FileOf(cpus));
    EachIsAProcessor(cpus);
    CountsNext(BlocksFor(cpus), EMPTY);
    CountsNext(BlocksFor(cpus) + [EMPTY], EMPTY);
    if forall id :: id in IdsOf(cpus) ==> ':' !in id.0 {
      NoColonNoneTogether(IdsOf(cpus));
    }
  }

  lemma CoresOfFile(cpus: seq<Cpu>)
    requires AreCpus(cpus) && IdsOf(cpus) != {}
    ensures SummaryOf(FileOf(cpus)).physicalCores == |Names(IdsOf(cpus))|
  {
    FileIsRead(cpus);
    IdsOfFile(cpus);
    CoresAreNames(BlocksFor(cpus) + [EMPTY] + [EMPTY]);
  }

  lemma OneName(ids: set<CoreId>, a: CoreId, b: CoreId)
    requires ids == {a, b} && Name(a) == Name(b)
    ensures |Names(ids)| == 1
  {
    assert Names(ids) == {Name(a)};
  }

  lemma IdsOfTwo(a: Cpu, b: Cpu)
    requires a.physicalId != "" && a.coreId != "" && b.physicalId != "" && b.coreId != ""
    ensures IdsOf([a, b]) == {(a.physicalId, a.coreId), (b.physicalId, b.coreId)}
  {
    assert a in [a, b] && b in [a, b];
  }

  lemma TwoCpusOneCore(a: Cpu, b: Cpu)
    requires AreCpus([a, b]) && a.physicalId != "" && a.coreId != "" && b.physicalId != "" && b.coreId != ""
    requires Name((a.physicalId, a.coreId)) == Name((b.physicalId, b.coreId)) && a.physicalId != b.physicalId
    ensures |IdsOf([a, b])| == 2 && SummaryOf(FileOf([a, b])).physicalCores == 1
  {
    IdsOfTwo(a, b);
    OneName(IdsOf([a, b]), (a.physicalId, a.coreId), (b.physicalId, b.coreId));
    CoresOfFile([a, b]);
  }

  // Two processors of two cores that are counted as one core.
  lemma CoresThatRunTogether()
    ensures var cpus := [Cpu(0, "", "", "0:1", "2", 0), Cpu(1, "", "", "0", "1:2", 0)];
            && AreCpus(cpus) && |IdsOf(cpus)| == 2 && SummaryOf(FileOf(cpus)).physicalCores == 1
  {
    assert Name(("0:1", "2")) == "0:1:2" && Name(("0", "1:2")) == "0:1:2";
    assert |"0:1"| != |"0"|;
    TwoCpusOneCore(Cpu(0, "", "", "0:1", "2", 0), Cpu(1, "", "", "0", "1:2", 0));
  }

  // ---- Sockets, and processors without ids ----

  function Sum(counts: seq<nat>): nat {
    if counts == [] then 0 else Sum(counts[..|counts| - 1]) + counts[|counts| - 1]
  }

  predicate AreDistinct(ids: seq<string>) {
    forall i, j :: 0 <= i < j < |ids| ==> ids[i] != ids[j]
  }

  lemma {:induction false} TotalIsSum(counts: map<string, nat>, ids: seq<string>, most: seq<nat>)
    requires |ids| == |most| && AreDistinct(ids)
    requires forall id :: id in counts <==> id in ids
    requires forall i :: 0 <= i < |ids| ==> counts[ids[i]] == most[i]
    ensures Total(counts) == Sum(most)
  {
    if ids == [] {
      assert counts == map[];
    } else {
      var before, last := ids[..|ids| - 1], ids[|ids| - 1];
      TotalWithout(counts, last);
      assert ids == before + [last];
      assert last !in before;
      TotalIsSum(counts - {last}, before, most[..|ids| - 1]);
    }
  }

  // The most cores that a processor of the socket claims, and more than none.
  predicate IsMost(cpus: seq<Cpu>, id: string, most: nat) {
    && id != "" && most > 0 && (exists i :: 0 <= i < |cpus| && cpus[i].physicalId == id && cpus[i].cores == most)
    && forall i :: 0 <= i < |cpus| && cpus[i].physicalId == id ==> cpus[i].cores <= most
  }

  // The sockets that claim cores, each with the most that it claims.
  predicate AreSockets(cpus: seq<Cpu>, ids: seq<string>, most: seq<nat>) {
    && |ids| == |most| && AreDistinct(ids)
    && (forall i :: 0 <= i < |cpus| && cpus[i].physicalId != "" && cpus[i].cores > 0 ==> cpus[i].physicalId in ids)
    && forall i :: 0 <= i < |ids| ==> IsMost(cpus, ids[i], most[i])
  }

  lemma BlockOfFile(cpus: seq<Cpu>, b: Block)
    ensures b in BlocksFor(cpus) + [EMPTY] + [EMPTY] <==>
            b == EMPTY || exists i :: 0 <= i < |cpus| && b == BlockFor(cpus[i])
  {
    var blocks := BlocksFor(cpus) + [EMPTY] + [EMPTY];
    assert forall i :: 0 <= i < |cpus| ==> blocks[i] == BlockFor(cpus[i]);
    assert blocks[|cpus|] == EMPTY;
  }

  lemma MostOfSocket(cpus: seq<Cpu>, blocks: seq<Block>, id: string, most: nat)
    requires IdsOf(cpus) == {} && IsMost(cpus, id, most)
    requires forall b :: b in blocks <==> b == EMPTY || exists i :: 0 <= i < |cpus| && b == BlockFor(cpus[i])
    ensures id in Sockets(blocks) && MaxOf(CoresOfSocket(id), blocks) == most
  {
    NoneNamed(cpus);
    MaxIsReached(CoresOfSocket(id), blocks);
    var i :| 0 <= i < |cpus| && cpus[i].physicalId == id && cpus[i].cores == most;
    var b := BlockFor(cpus[i]);
    assert b in blocks && b.NamesSocket() && CoresOfSocket(id)(b) == most;
  }

  lemma NoneNamed(cpus: seq<Cpu>)
    ensures IdsOf(cpus) == {} <==> forall i :: 0 <= i < |cpus| ==> cpus[i].physicalId == "" || cpus[i].coreId == ""
  {
    forall i | 0 <= i < |cpus| && cpus[i].physicalId != "" && cpus[i].coreId != "" ensures IdsOf(cpus) != {} {
      assert cpus[i] in cpus;
      assert (cpus[i].physicalId, cpus[i].coreId) in IdsOf(cpus);
    }
  }

  lemma SocketsOfFile(cpus: seq<Cpu>, blocks: seq<Block>, ids: seq<string>, most: seq<nat>)
    requires IdsOf(cpus) == {} && AreSockets(cpus, ids, most)
    requires forall b :: b in blocks <==> b == EMPTY || exists i :: 0 <= i < |cpus| && b == BlockFor(cpus[i])
    ensures Total(SocketCores(blocks)) == Sum(most)
    ensures SocketCores(blocks) == map[] <==> ids == []
  {
    forall i | 0 <= i < |ids| ensures ids[i] in Sockets(blocks) && MaxOf(CoresOfSocket(ids[i]), blocks) == most[i] {
      MostOfSocket(cpus, blocks, ids[i], most[i]);
    }
    forall id | id in Sockets(blocks) ensures id in ids {
      var b :| b in blocks && b.NamesSocket() && b.physicalId == id;
    }
    TotalIsSum(SocketCores(blocks), ids, most);
    if ids != [] {
      assert ids[0] in SocketCores(blocks);
    } else {
      assert SocketCores(blocks) == map[];
    }
  }

  // The blocks of a file without a named core, as values.
  lemma UnnamedFile(cpus: seq<Cpu>) returns (blocks: seq<Block>)
    requires AreCpus(cpus) && IdsOf(cpus) == {}
    ensures forall b :: b in blocks <==> b == EMPTY || exists i :: 0 <= i < |cpus| && b == BlockFor(cpus[i])
    ensures CoreNames(blocks) == {} && Processors(blocks) == |cpus|
    ensures SummaryOf(FileOf(cpus)).physicalCores == PhysicalCores(blocks)
  {
    blocks := BlocksFor(cpus) + [EMPTY] + [EMPTY];
    FileIsRead(cpus);
    IdsOfFile(cpus);
    CoreNamesAreNames(blocks);
    EachIsAProcessor(cpus);
    CountsNext(BlocksFor(cpus), EMPTY);
    CountsNext(BlocksFor(cpus) + [EMPTY], EMPTY);
    forall b ensures b in blocks <==> b == EMPTY || exists i :: 0 <= i < |cpus| && b == BlockFor(cpus[i]) {
      BlockOfFile(cpus, b);
    }
  }

  // Without a named core, the sockets that claim cores add up, as a size does.
  lemma SocketsAreSummed(cpus: seq<Cpu>, ids: seq<string>, most: seq<nat>)
    requires AreCpus(cpus) && IdsOf(cpus) == {} && AreSockets(cpus, ids, most) && ids != []
    ensures SummaryOf(FileOf(cpus)).physicalCores == Sum(most) % SIZE_LIMIT
  {
    var blocks := UnnamedFile(cpus);
    SocketsOfFile(cpus, blocks, ids, most);
  }

  // Without a socket that claims cores, it is the largest claim, or else one core for each processor.
  lemma LargestClaimIsBelieved(cpus: seq<Cpu>)
    requires AreCpus(cpus) && IdsOf(cpus) == {} && AreSockets(cpus, [], [])
    ensures var cores := SummaryOf(FileOf(cpus)).physicalCores;
            if forall i :: 0 <= i < |cpus| ==> cpus[i].cores == 0 then cores == |cpus|
            else
              && (exists i :: 0 <= i < |cpus| && cpus[i].cores == cores)
              && forall i :: 0 <= i < |cpus| ==> cpus[i].cores <= cores
  {
    var blocks := UnnamedFile(cpus);
    SocketsOfFile(cpus, blocks, [], []);
    MaxIsReached(CoresOfProcessor(), blocks);
    forall i | 0 <= i < |cpus| ensures cpus[i].cores <= MaxOf(CoresOfProcessor(), blocks) {
      assert BlockFor(cpus[i]) in blocks;
      assert CoresOfProcessor()(BlockFor(cpus[i])) == cpus[i].cores;
    }
  }

  // ---- Who made the processors, and what they are ----

  function FirstOf(texts: seq<string>): string {
    if texts == [] then "" else if texts[0] != "" then texts[0] else FirstOf(texts[1..])
  }

  lemma {:induction false} FirstValueOfBoth(a: seq<string>, b: seq<string>, key: string)
    ensures FirstValue(a + b, key) == if FirstValue(a, key) != "" then FirstValue(a, key) else FirstValue(b, key)
  {
    if a == [] {
      assert a + b == b;
    } else {
      FirstValueOfBoth(a[1..], b, key);
      assert (a + b)[1..] == a[1..] + b;
    }
  }

  lemma NextPair(lines: seq<string>, i: nat, key: string, k: string, value: string)
    requires i < |lines| && LineOf(lines[i]) == Pair(k, value)
    ensures FirstValue(lines[i..], key) == if k == key && value != "" then value else FirstValue(lines[i + 1..], key)
  {
    assert lines[i..] == [lines[i]] + lines[i + 1..];
    NextValue(lines[i], lines[i + 1..], key);
  }

  predicate ArePairs(lines: seq<string>, keys: seq<string>, values: seq<string>) {
    |lines| == |keys| == |values| && forall k :: 0 <= k < |lines| ==> LineOf(lines[k]) == Pair(keys[k], values[k])
  }

  lemma PairAt(lines: seq<string>, keys: seq<string>, values: seq<string>, i: nat, key: string)
    requires ArePairs(lines, keys, values) && i < |lines|
    ensures FirstValue(lines[i..], key) ==
            if keys[i] == key && values[i] != "" then values[i] else FirstValue(lines[i + 1..], key)
  {
    NextPair(lines, i, key, keys[i], values[i]);
  }

  // What the lines from each place on say of a key.
  predicate AreFirsts(firsts: seq<string>, keys: seq<string>, values: seq<string>, key: string) {
    && |firsts| == |keys| + 1 == |values| + 1 && firsts[|keys|] == ""
    && forall k :: 0 <= k < |keys| ==> IsFirstAt(firsts, keys, values, key, k)
  }

  predicate IsFirstAt(firsts: seq<string>, keys: seq<string>, values: seq<string>, key: string, k: nat)
    requires k < |keys| == |values| && |firsts| == |keys| + 1
  {
    firsts[k] == if keys[k] == key && values[k] != "" then values[k] else firsts[k + 1]
  }

  lemma {:induction false} FirstsSettle(firsts: seq<string>, keys: seq<string>, values: seq<string>, n: nat, i: nat)
    requires n < |keys| && AreFirsts(firsts, keys, values, keys[n]) && i <= |keys|
    requires forall k :: 0 <= k < |keys| && keys[k] == keys[n] ==> k == n
    ensures firsts[i] == if i <= n then values[n] else ""
    decreases |keys| - i
  {
    if i < |keys| {
      FirstsSettle(firsts, keys, values, n, i + 1);
      assert IsFirstAt(firsts, keys, values, keys[n], i);
    }
  }

  // In lines with different keys each key has its value.
  lemma FirstValueOfKey(lines: seq<string>, keys: seq<string>, values: seq<string>, n: nat)
    requires ArePairs(lines, keys, values) && n < |keys|
    requires forall k :: 0 <= k < |keys| && keys[k] == keys[n] ==> k == n
    ensures FirstValue(lines, keys[n]) == values[n]
  {
    var firsts := seq(|lines| + 1, i requires 0 <= i <= |lines| => FirstValue(lines[i..], keys[n]));
    forall k | 0 <= k < |keys| ensures IsFirstAt(firsts, keys, values, keys[n], k) {
      PairAt(lines, keys, values, k, keys[n]);
    }
    assert lines[0..] == lines && lines[|lines|..] == [];
    FirstsSettle(firsts, keys, values, n, 0);
  }

  lemma KeysDiffer()
    ensures forall i, j :: 0 <= i < j < |KEYS| ==> KEYS[i] != KEYS[j]
  {
    assert KEYS[0][1] == 'r' && KEYS[1][1] == 'e' && KEYS[2][1] == 'o' && KEYS[3][1] == 'h' && KEYS[4][0] == 'c';
    assert KEYS[2][0] == 'm' && KEYS[5][1] == 'p' && KEYS[4][1] == 'o';
  }

  lemma BlankHasNoValue(lines: seq<string>, key: string)
    ensures FirstValue(lines + [""], key) == FirstValue(lines, key)
  {
    FirstValueOfBoth(lines, [""], key);
    assert FirstValue([""], key) == FirstValue([], key);
  }

  lemma ValueOfCpu(cpu: Cpu, n: nat)
    requires IsCpu(cpu) && n < |KEYS|
    ensures FirstValue(GroupFor(cpu), KEYS[n]) == ValuesFor(cpu)[n]
  {
    LinesOfCpu(cpu);
    KeysDiffer();
    FirstValueOfKey(GroupFor(cpu), KEYS, ValuesFor(cpu), n);
  }

  function ValuesOf(cpus: seq<Cpu>, n: nat): seq<string>
    requires n < |KEYS|
  {
    seq(|cpus|, i requires 0 <= i < |cpus| => ValuesFor(cpus[i])[n])
  }

  lemma GroupsAfter(cpus: seq<Cpu>)
    requires cpus != []
    ensures GroupsFor(cpus)[0] == GroupFor(cpus[0]) && GroupsFor(cpus)[1..] == GroupsFor(cpus[1..])
  {
  }

  lemma {:induction false} ValueOfCpus(cpus: seq<Cpu>, n: nat)
    requires AreCpus(cpus) && n < |KEYS|
    ensures FirstValue(LinesOf(GroupsFor(cpus)), KEYS[n]) == FirstOf(ValuesOf(cpus, n))
  {
    if cpus != [] {
      assert ValuesOf(cpus, n)[1..] == ValuesOf(cpus[1..], n);
      GroupsAfter(cpus);
      ValueOfCpus(cpus[1..], n);
      ValueOfCpu(cpus[0], n);
      BlankHasNoValue(GroupFor(cpus[0]), KEYS[n]);
      FirstValueOfBoth(GroupFor(cpus[0]) + [""], LinesOf(GroupsFor(cpus[1..])), KEYS[n]);
    }
  }

  lemma ListedValueIsFirst(cpus: seq<Cpu>, n: nat)
    requires AreCpus(cpus) && n < |KEYS|
    ensures FirstValue(Split('\n', FileOf(cpus)), KEYS[n]) == FirstOf(ValuesOf(cpus, n))
  {
    FileIsSplit(cpus);
    ValueOfCpus(cpus, n);
    BlankHasNoValue(LinesOf(GroupsFor(cpus)), KEYS[n]);
  }

  function Vendors(cpus: seq<Cpu>): (vendors: seq<string>)
    ensures vendors == ValuesOf(cpus, 1)
  {
    seq(|cpus|, i requires 0 <= i < |cpus| => cpus[i].vendor)
  }

  function Models(cpus: seq<Cpu>): (models: seq<string>)
    ensures models == ValuesOf(cpus, 2)
  {
    seq(|cpus|, i requires 0 <= i < |cpus| => cpus[i].model)
  }

  lemma SummaryNames(content: string)
    ensures SummaryOf(content).vendorId == FirstValue(Split('\n', content), KEYS[1])
    ensures SummaryOf(content).modelName == FirstValue(Split('\n', content), KEYS[2])
  {
  }

  // The first of the listed vendors that is not empty, and the first model name.
  lemma ListedNamesAreFirst(cpus: seq<Cpu>)
    requires AreCpus(cpus)
    ensures SummaryOf(FileOf(cpus)).vendorId == FirstOf(Vendors(cpus))
    ensures SummaryOf(FileOf(cpus)).modelName == FirstOf(Models(cpus))
  {
    ListedValueIsFirst(cpus, 1);
    ListedValueIsFirst(cpus, 2);
    SummaryNames(FileOf(cpus));
  }
}
