/** The declarative reading of /proc/cpuinfo: lines, groups of lines between blank lines, and what the
  * groups say about processors and cores.
  */
module CpuInfo {
  import opened CpuLines
  import opened Splitting
  import opened Text

  type Group = seq<string>

  datatype CpuSummary = CpuSummary(vendorId: string, modelName: string, logicalProcessors: nat, physicalCores: nat)

  // Every blank line ends a group, so a group may be empty.
  function GroupsOf(lines: seq<string>): (groups: seq<Group>)
    ensures |groups| > 0
  {
    if lines == [] then [[]]
    else if IsBlankText(lines[0]) then [[]] + GroupsOf(lines[1..])
    else
      var rest := GroupsOf(lines[1..]);
      [[lines[0]] + rest[0]] + rest[1..]
  }

  // A later line of a group overrides an earlier one.
  function LastValue(group: Group, key: string): string {
    if group == [] then ""
    else
      var last := group[|group| - 1];
      if HasKey(last, key) then LineOf(last).value else LastValue(group[..|group| - 1], key)
  }

  // The first value that says something, in whatever group.
  function FirstValue(lines: seq<string>, key: string): string {
    if lines == [] then ""
    else if HasKey(lines[0], key) && LineOf(lines[0]).value != "" then LineOf(lines[0]).value
    else FirstValue(lines[1..], key)
  }

  predicate IsProcessor(group: Group) {
    exists i :: 0 <= i < |group| && HasKey(group[i], "processor")
  }

  // What a group says about its processor.
  datatype Block = Block(hasProcessor: bool, physicalId: string, coreId: string, cpuCores: nat) {
    predicate NamesCore() {
      hasProcessor && physicalId != "" && coreId != ""
    }

    predicate NamesSocket() {
      hasProcessor && physicalId != "" && coreId == "" && cpuCores > 0
    }

    function CoreName(): string {
      physicalId + ":" + coreId
    }
  }

  function ReadBlock(group: Group): Block {
    Block(IsProcessor(group), LastValue(group, "physical id"), LastValue(group, "core id"),
          ParseSize(LastValue(group, "cpu cores")))
  }

  function Blocks(groups: seq<Group>): (blocks: seq<Block>)
    ensures |blocks| == |groups|
  {
    if groups == [] then [] else Blocks(groups[..|groups| - 1]) + [ReadBlock(groups[|groups| - 1])]
  }

  function Processors(blocks: seq<Block>): nat {
    if blocks == [] then 0
    else Processors(blocks[..|blocks| - 1]) + if blocks[|blocks| - 1].hasProcessor then 1 else 0
  }

  ghost function CoreNames(blocks: seq<Block>): set<string> {
    set b | b in blocks && b.NamesCore() :: b.CoreName()
  }

  function MaxOf(count: Block -> nat, blocks: seq<Block>): nat {
    if blocks == [] then 0
    else
      var max, last := MaxOf(count, blocks[..|blocks| - 1]), count(blocks[|blocks| - 1]);
      if max < last then last else max
  }

  function CoresOfSocket(id: string): Block -> nat {
    (b: Block) => if b.NamesSocket() && b.physicalId == id then b.cpuCores else 0
  }

  function CoresOfProcessor(): Block -> nat {
    (b: Block) => if b.hasProcessor then b.cpuCores else 0
  }

  ghost function Sockets(blocks: seq<Block>): set<string> {
    set b | b in blocks && b.NamesSocket() :: b.physicalId
  }

  ghost function SocketCores(blocks: seq<Block>): map<string, nat> {
    map id | id in Sockets(blocks) :: MaxOf(CoresOfSocket(id), blocks)
  }

  ghost function Total(counts: map<string, nat>): nat {
    if counts == map[] then 0
    else
      var key :| key in counts;
      counts[key] + Total(counts - {key})
  }

  lemma {:induction false} TotalWithout(counts: map<string, nat>, key: string)
    requires key in counts
    ensures Total(counts) == counts[key] + Total(counts - {key})
    decreases counts
  {
    var first :| first in counts && Total(counts) == counts[first] + Total(counts - {first});
    if first != key {
      TotalWithout(counts - {first}, key);
      TotalWithout(counts - {key}, first);
      assert counts - {first} - {key} == counts - {key} - {first};
    }
  }

  // Named cores come first, then the sockets, then any core count, then one core for each processor.
  ghost function PhysicalCores(blocks: seq<Block>): nat {
    if CoreNames(blocks) != {} then |CoreNames(blocks)|
    else if SocketCores(blocks) != map[] then Total(SocketCores(blocks)) % SIZE_LIMIT
    else if MaxOf(CoresOfProcessor(), blocks) > 0 then MaxOf(CoresOfProcessor(), blocks)
    else Processors(blocks)
  }

  ghost function SummaryOf(content: string): CpuSummary {
    var lines := Split('\n', content);
    var blocks := Blocks(GroupsOf(lines));
    CpuSummary(FirstValue(lines, "vendor_id"), FirstValue(lines, "model name"),
               Processors(blocks), PhysicalCores(blocks))
  }

  lemma BlocksNext(groups: seq<Group>, group: Group)
    ensures Blocks(groups + [group]) == Blocks(groups) + [ReadBlock(group)]
  {
    assert (groups + [group])[..|groups|] == groups;
  }

  lemma CountsNext(blocks: seq<Block>, block: Block)
    ensures Processors(blocks + [block]) == Processors(blocks) + if block.hasProcessor then 1 else 0
    ensures CoreNames(blocks + [block]) == CoreNames(blocks) + if block.NamesCore() then {block.CoreName()} else {}
    ensures Sockets(blocks + [block]) == Sockets(blocks) + if block.NamesSocket() then {block.physicalId} else {}
  {
    assert (blocks + [block])[..|blocks|] == blocks;
  }

  lemma MaxNext(count: Block -> nat, blocks: seq<Block>, block: Block)
    ensures MaxOf(count, blocks + [block]) ==
            if MaxOf(count, blocks) < count(block) then count(block) else MaxOf(count, blocks)
  {
    assert (blocks + [block])[..|blocks|] == blocks;
  }

  lemma {:induction false} NoSocket(blocks: seq<Block>, id: string)
    requires id !in Sockets(blocks)
    ensures MaxOf(CoresOfSocket(id), blocks) == 0
  {
    if blocks != [] {
      var last := blocks[|blocks| - 1];
      assert last in blocks;
      NoSocket(blocks[..|blocks| - 1], id);
    }
  }

  // std::max on the entry of the socket, which starts at 0.
  function Raised(counts: map<string, nat>, id: string, cores: nat): map<string, nat> {
    counts[id := if id in counts && counts[id] >= cores then counts[id] else cores]
  }

  lemma SocketNext(blocks: seq<Block>, block: Block, id: string)
    requires id in Sockets(blocks + [block])
    ensures SocketCores(blocks + [block])[id] ==
            if block.NamesSocket() && block.physicalId == id then Raised(SocketCores(blocks), id, block.cpuCores)[id]
            else MaxOf(CoresOfSocket(id), blocks)
  {
    MaxNext(CoresOfSocket(id), blocks, block);
    if id !in Sockets(blocks) {
      NoSocket(blocks, id);
    }
  }

  lemma RaiseOne(before: map<string, nat>, after: map<string, nat>, of: string, cores: nat)
    requires after.Keys == before.Keys + {of}
    requires forall id :: id in after ==> after[id] == if id == of then Raised(before, id, cores)[id] else before[id]
    ensures after == Raised(before, of, cores)
  {
  }

  lemma SocketCoresNext(blocks: seq<Block>, block: Block)
    ensures SocketCores(blocks + [block]) ==
            if block.NamesSocket() then Raised(SocketCores(blocks), block.physicalId, block.cpuCores)
            else SocketCores(blocks)
  {
    CountsNext(blocks, block);
    var before, after := SocketCores(blocks), SocketCores(blocks + [block]);
    if block.NamesSocket() {
      forall id | id in after
        ensures after[id] == if id == block.physicalId then Raised(before, id, block.cpuCores)[id] else before[id]
      {
        SocketNext(blocks, block, id);
      }
      RaiseOne(before, after, block.physicalId, block.cpuCores);
    } else {
      forall id | id in after ensures after[id] == before[id] {
        SocketNext(blocks, block, id);
      }
    }
  }
}
