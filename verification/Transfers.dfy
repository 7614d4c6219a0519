/**
 One transfer: transfer_create and the functions it calls turn a virtual range
 into a table of descriptors in memory the device can read.
 */
module Transfers {
  import opened Words
  import opened Descriptors
  import opened ScatterGather
  import opened Coalescing

  datatype TransferState = New | Submitted | Completed | Failed

  /** struct xdma_transfer */
  class Transfer {
    const table: array<Desc>
    const descBus: nat
    const descNum: nat
    const descAdjacent: nat
    const toDevice: bool
    var state: TransferState
    var cyclic: bool

    constructor (table: array<Desc>, descBus: nat, descNum: nat, toDevice: bool)
      ensures this.table == table && this.descBus == descBus && this.toDevice == toDevice
      ensures this.descNum == descNum && descAdjacent == descNum
      ensures state == New && !cyclic
    {
      this.table := table;
      this.descBus := descBus;
      this.descNum := descNum;
      this.descAdjacent := descNum;
      this.toDevice := toDevice;
      state := New;
      cyclic := false;
    }
  }

  // ---- the table that a list of blocks compiles to ------------------------

  /** The bus address of descriptor i. */
  function DescAddress(bus: nat, i: nat): nat {
    bus + 32 * i
  }

  /** What a transfer moves: blocks of host memory, to or from device addresses
      that advance with the blocks from `ep` or stay there. */
  datatype Plan = Plan(blocks: seq<Segment>, ep: nat, advance: bool, toDevice: bool)

  /** The device address of block j. */
  function Endpoint(p: Plan, j: nat): nat
    requires j <= |p.blocks|
  {
    if p.advance then p.ep + Total(p.blocks, j) else p.ep
  }

  function FillBlock(d: Desc, p: Plan, j: nat): Desc
    requires j < |p.blocks|
  {
    Fill(d, p.blocks[j].addr, Endpoint(p, j), p.blocks[j].len, p.toDevice)
  }

  /** How many descriptors beyond its successor descriptor i of n announces. */
  function Extra(bus: nat, n: nat, i: nat): nat {
    if i + 1 >= n then 0 else ExtraAdjacent(Low(DescAddress(bus, i + 1)), n - i - 1)
  }

  /** Descriptor i of a finished, terminated table. */
  function CompiledDesc(p: Plan, bus: nat, i: nat): Desc
    requires i < |p.blocks|
  {
    var last := i + 1 == |p.blocks|;
    var next := if last then 0 else DescAddress(bus, i + 1);
    FillBlock(BLANK, p, i).(
      control := Encode(Fields(0xAD4B, 0, Bits(Extra(bus, |p.blocks|, i)),
                               if last then STOPPED | COMPLETED | EOP else 0)),
      nextLow := Low(next), nextHigh := High(next))
  }

  /** What a finished descriptor asks of the device, field by field: the block
      and its device address, behind the blocks before it or constant, as source
      and destination, the next descriptor, and
      in the control word the magic, the hint and, in the last one, the flags
      STOPPED, COMPLETED and EOP, which are 0x13. */
  lemma CompiledDescMeans(p: Plan, bus: nat, i: nat)
    requires i < |p.blocks| && p.blocks[i].len < 0x1_0000_0000
    requires p.blocks[i].addr < TWO_TO_64 && Endpoint(p, i) < TWO_TO_64 && DescAddress(bus, i + 1) < TWO_TO_64
    ensures var d, block := CompiledDesc(p, bus, i), p.blocks[i];
            var at := if p.advance then p.ep + Total(p.blocks, i) else p.ep;
            && d.bytes == block.len
            && d.srcHigh * 0x1_0000_0000 + d.srcLow == (if p.toDevice then block.addr else at)
            && d.dstHigh * 0x1_0000_0000 + d.dstLow == (if p.toDevice then at else block.addr)
            && d.nextHigh * 0x1_0000_0000 + d.nextLow == (if i + 1 == |p.blocks| then 0 else bus + 32 * (i + 1))
            && d.control >> 16 == 0xAD4B && d.control & 0xff == (if i + 1 == |p.blocks| then 0x13 else 0)
            && (d.control >> 8) & 0xff == Bits(Extra(bus, |p.blocks|, i))
  {
    HalvesAdd(p.blocks[i].addr);
    HalvesAdd(Endpoint(p, i));
    HalvesAdd(DescAddress(bus, i + 1));
    ControlBits(Bits(Extra(bus, |p.blocks|, i)), if i + 1 == |p.blocks| then 0x13 else 0);
  }

  lemma ControlBits(e: bv32, flags: bv32)
    requires e <= 15 && flags <= 0xff
    ensures var w := Encode(Fields(0xAD4B, 0, e, flags));
            w >> 16 == 0xAD4B && w & 0xff == flags && (w >> 8) & 0xff == e
  {
  }

  function CompiledTable(p: Plan, bus: nat): seq<Desc> {
    seq(|p.blocks|, i requires 0 <= i < |p.blocks| => CompiledDesc(p, bus, i))
  }

  // ---- the methods ---------------------------------------------------------

  /** How many descriptors beyond its successor an allocated descriptor announces. */
  function AllocExtra(number: nat, i: nat): (e: nat)
    ensures e <= 15 && (i + 1 < number ==> e + i + 2 <= number && (e == 15 || e + i + 2 == number))
  {
    if i + 1 >= number then 0 else Least(number - i - 2, MAX_EXTRA_ADJ)
  }

  /** Descriptor i as xdma_desc_alloc leaves it, apart from its addresses. */
  predicate Allocated(d: Desc, bus: nat, number: nat, i: nat) {
    && d.bytes == 0 && Decode(d.control).adjacent == Bits(AllocExtra(number, i))
    && d.Next() == (if i + 1 == number then 0 else DescAddress(bus, i + 1))
    && Decode(d.control).magic == 0xAD4B && Decode(d.control).reserved == 0 && Decode(d.control).flags == 0
  }

  predicate AllAllocated(table: seq<Desc>, bus: nat) {
    forall i :: 0 <= i < |table| ==> Allocated(table[i], bus, |table|, i)
  }

  /** xdma_desc_alloc */
  method DescAlloc(number: nat, bus: nat) returns (table: array<Desc>)
    requires number >= 1 && DescAddress(bus, number) <= TWO_TO_64
    ensures fresh(table) && table.Length == number && AllAllocated(table[..], bus)
  {
    table := new Desc[number];
    var adj := number - 1;
    var descBus := bus;
    var i := 0;
    while i < number - 1
      invariant 0 <= i <= number - 1
      invariant adj == number - 1 - i
      invariant descBus == DescAddress(bus, i)
      invariant forall k :: 0 <= k < i ==> Allocated(table[k], bus, number, k)
    {
      descBus := descBus + DESC_BYTES;
      JoinHalves(descBus);
      var extraAdj := 0;
      if adj > 0 {
        extraAdj := if adj - 1 > MAX_EXTRA_ADJ then MAX_EXTRA_ADJ else adj - 1;
        adj := adj - 1;
      }
      ApplyMeansFields(0, AdjacentOp(extraAdj));
      table[i] := table[i].(nextLow := Low(descBus), nextHigh := High(descBus), bytes := 0,
                            control := AdjacentWord(0, extraAdj));
      i := i + 1;
    }
    ApplyMeansFields(0, AdjacentOp(0));
    table[i] := table[i].(nextLow := 0, nextHigh := 0, bytes := 0, control := AdjacentWord(0, 0));
  }

  /** A table whose first n descriptors were filled with the first n blocks. */
  function BuiltTable(was: seq<Desc>, p: Plan, n: nat): (table: seq<Desc>)
    requires n <= |p.blocks| && n <= |was|
    ensures |table| == |was|
  {
    if n == 0 then was else BuiltTable(was, p, n - 1)[n - 1 := FillBlock(was[n - 1], p, n - 1)]
  }

  lemma {:induction false} BuiltTableAt(was: seq<Desc>, p: Plan, n: nat, k: nat)
    requires n <= |p.blocks| && n <= |was| && k < |was|
    ensures BuiltTable(was, p, n)[k] == if k < n then FillBlock(was[k], p, k) else was[k]
  {
    if n != 0 && k != n - 1 {
      BuiltTableAt(was, p, n - 1, k);
    }
  }

  lemma BuiltStep(table: seq<Desc>, was: seq<Desc>, p: Plan, j: nat, contAddr: nat, contLen: nat)
    requires j < |p.blocks| && j < |was| && table == BuiltTable(was, p, j)
    requires p.blocks[j] == Segment(contAddr, contLen)
    ensures BuiltTable(was, p, j + 1) == table[j := Fill(table[j], contAddr, Endpoint(p, j), contLen, p.toDevice)]
    ensures Endpoint(p, j + 1) == Endpoint(p, j) + if p.advance then contLen else 0
  {
    BuiltTableAt(was, p, j, j);
  }

  /** Filling in descriptor j with block j. */
  method PutBlock(table: array<Desc>, contAddr: nat, ep: nat, contLen: nat, toDevice: bool,
                  ghost was: seq<Desc>, ghost p: Plan, j: nat)
    requires j < |p.blocks| && j < |was| && table[..] == BuiltTable(was, p, j)
    requires p.blocks[j] == Segment(contAddr, contLen) && ep == Endpoint(p, j) && toDevice == p.toDevice
    modifies table
    ensures table[..] == BuiltTable(was, p, j + 1)
    ensures Endpoint(p, j + 1) == ep + if p.advance then contLen else 0
  {
    BuiltStep(table[..], was, p, j, contAddr, contLen);
    table[j] := Fill(table[j], contAddr, ep, contLen, toDevice);
  }

  /** The loop variables of transfer_build when entry i is next to be counted:
      `closed` are its closed blocks and the open one is in the variables. */
  ghost predicate OpenBlock(segs: seq<Segment>, force: bool, i: nat, j: nat, contAddr: nat, contLen: nat) {
    && i < |segs|
    && var g := Group(segs, i + 1, force);
       |g.closed| == j && g.open == Segment(contAddr, contLen + segs[i].len)
  }

  lemma OpenBlockStep(segs: seq<Segment>, force: bool, i: nat, j: nat, contAddr: nat, contLen: nat)
    requires OpenBlock(segs, force, i, j, contAddr, contLen) && i + 1 < |segs|
    ensures var len := contLen + segs[i].len;
            if Breaks(segs[i], segs[i + 1], len, force)
            then OpenBlock(segs, force, i + 1, j + 1, segs[i + 1].addr, 0)
                 && j + 1 < |Blocks(segs, force)| && Blocks(segs, force)[j] == Segment(contAddr, len)
            else OpenBlock(segs, force, i + 1, j, contAddr, len)
  {
    ClosedStays(segs, i + 2, |segs|, force);
  }

  /** The state of the loop of transfer_build at entry i. */
  ghost predicate Building(segs: seq<Segment>, force: bool, p: Plan,
                           i: nat, j: nat, contAddr: nat, contLen: nat, addr: nat, ep: nat)
  {
    && i < |segs| && p.blocks == Blocks(segs, force) && addr == segs[i].addr
    && OpenBlock(segs, force, i, j, contAddr, contLen) && j < |p.blocks| && ep == Endpoint(p, j)
  }

  lemma BuildingMore(segs: seq<Segment>, force: bool, p: Plan,
                     i: nat, j: nat, contAddr: nat, contLen: nat, addr: nat, ep: nat)
    requires Building(segs, force, p, i, j, contAddr, contLen, addr, ep) && i + 1 < |segs|
    ensures var next, len := segs[i + 1], contLen + segs[i].len;
            if Breaks(segs[i], next, len, force) then
              && p.blocks[j] == Segment(contAddr, len)
              && Building(segs, force, p, i + 1, j + 1, next.addr, 0, next.addr, ep + if p.advance then len else 0)
            else Building(segs, force, p, i + 1, j, contAddr, len, next.addr, ep)
  {
    OpenBlockStep(segs, force, i, j, contAddr, contLen);
  }

  lemma BuildingEnds(segs: seq<Segment>, force: bool, p: Plan,
                     i: nat, j: nat, contAddr: nat, contLen: nat, addr: nat, ep: nat)
    requires Building(segs, force, p, i, j, contAddr, contLen, addr, ep) && i + 1 == |segs|
    ensures j + 1 == |p.blocks| <= |segs| && p.blocks[j] == Segment(contAddr, contLen + segs[i].len)
  {
  }

  /** transfer_build */
  method TransferBuild(table: array<Desc>, segs: seq<Segment>, epAddr: nat, toDevice: bool,
                       nonIncr: bool, forceNewDesc: bool, userspace: bool) returns (last: nat)
    requires segs != [] && |segs| <= table.Length
    modifies table
    ensures last + 1 == |Blocks(segs, forceNewDesc && !userspace)|
    ensures table[..] == BuiltTable(old(table[..]),
              Plan(Blocks(segs, forceNewDesc && !userspace), epAddr, !(userspace && nonIncr), toDevice), last + 1)
  {
    ghost var was := table[..];
    ghost var force := forceNewDesc && !userspace;
    ghost var plan := Plan(Blocks(segs, force), epAddr, !(userspace && nonIncr), toDevice);
    var j: nat, contAddr: nat, addr: nat, contLen: nat, ep: nat := 0, segs[0].addr, segs[0].addr, 0, epAddr;
    var i: nat := 0;
    while i < |segs| - 1
      invariant Building(segs, force, plan, i, j, contAddr, contLen, addr, ep)
      invariant table[..] == BuiltTable(was, plan, j)
    {
      BuildingMore(segs, force, plan, i, j, contAddr, contLen, addr, ep);
      var next := segs[i + 1].addr;
      var len := segs[i].len;
      contLen := contLen + len;
      var newDesc := false;
      if next != addr + len {
        newDesc := true;
      } else if contLen > DESC_MAX_BYTES - PAGE_SIZE {
        newDesc := true;
      }
      if forceNewDesc && !userspace {
        newDesc := true;
      }
      assert newDesc == Breaks(segs[i], segs[i + 1], contLen, force);
      if newDesc {
        PutBlock(table, contAddr, ep, contLen, toDevice, was, plan, j);
        if userspace {
          if !nonIncr {
            ep := ep + contLen;
          }
        } else {
          ep := ep + contLen;
        }
        contAddr := next;
        contLen := 0;
        j := j + 1;
      }
      addr := next;
      i := i + 1;
    }
    BuildingEnds(segs, force, plan, i, j, contAddr, contLen, addr, ep);
    contLen := contLen + segs[i].len;
    PutBlock(table, contAddr, ep, contLen, toDevice, was, plan, j);
    last := j;
  }

  /** The control word of a descriptor once it is terminated, if last, and hinted. */
  function FinishedWord(w: bv32, last: bool, extra: nat): bv32
    requires extra <= MAX_EXTRA_ADJ
  {
    AdjacentWord(if last then ControlWord(LinkWord(w), STOPPED | EOP | COMPLETED) else w, extra)
  }

  lemma FinishedWordFields(w: bv32, last: bool, extra: nat)
    requires extra <= MAX_EXTRA_ADJ
    requires Decode(w).magic == 0xAD4B && Decode(w).reserved == 0 && Decode(w).flags == 0
    ensures FinishedWord(w, last, extra) ==
            Encode(Fields(0xAD4B, 0, Bits(extra), if last then STOPPED | COMPLETED | EOP else 0))
  {
    var x := if last then ControlWord(LinkWord(w), 0x13) else w;
    if last {
      ApplyMeansFields(w, LinkOp);
      ApplyMeansFields(LinkWord(w), ControlOp(0x13));
    }
    ApplyMeansFields(x, AdjacentOp(extra));
    DecodeIsExact(AdjacentWord(x, extra));
  }

  /** No next descriptor; stop, mark the end of packet and interrupt. */
  function Terminated(d: Desc): Desc {
    Control(Link(d, None), STOPPED | EOP | COMPLETED)
  }

  /** The descriptor that building, terminating and hinting make of an was one. */
  function Finished(d: Desc, n: nat, i: nat): Desc
    requires i < n
  {
    Adjacent(if i + 1 == n then Terminated(d) else d, n - i - 1)
  }

  lemma FinishedDesc(d: Desc, p: Plan, bus: nat, number: nat, i: nat)
    requires i < |p.blocks| <= number
    requires Allocated(d, bus, number, i)
    ensures Finished(FillBlock(d, p, i), |p.blocks|, i) == CompiledDesc(p, bus, i)
  {
    var last := i + 1 == |p.blocks|;
    if !last {
      JoinHalvesUnique(d.nextLow, d.nextHigh);
    }
    FinishedWordFields(d.control, last, Extra(bus, |p.blocks|, i));
  }

  /** The segments transfer_create maps for a range: one per page. */
  function Chunk(frameOf: nat -> Frame, start: nat, count: nat, force: bool): seq<Segment>
    requires count > 0
  {
    SplitLength(start, count);
    Blocks(RangeSegments(frameOf, start, count), force)
  }

  /** The frames of n consecutive pages. */
  function Frames(frameOf: nat -> Frame, first: nat, n: nat): seq<Frame> {
    seq<Frame>(n, i requires 0 <= i < n => frameOf(first + i))
  }

  /** A mapper made for a range has room for it, and its pages are counted right. */
  lemma MapperFits(start: nat, cnt: nat)
    requires cnt > 0 && start + cnt < TWO_TO_64 && Page(cnt) + 2 < 0x8000_0000
    ensures ToInt32(Page(cnt) + 2) == Page(cnt) + 2
    ensures NrPages(start, cnt) == PageCount(start, cnt) == |Split(start, cnt)| <= Page(cnt) + 2
  {
    SplitLength(start, cnt);
    NrPagesIsPageCount(start, cnt);
    CapacitySuffices(start, cnt);
  }

  /** The first part of transfer_create: make a mapper, get the pages and map
      them. Pinning succeeds, as the BUG_ONs there demand. */
  method MapPages(start: nat, cnt: nat, userspace: bool, frameOf: nat -> Frame) returns (segs: seq<Segment>)
    requires cnt > 0 && start + cnt < TWO_TO_64 && Page(cnt) + 2 < 0x8000_0000
    ensures segs == RangeSegments(frameOf, start, cnt)
  {
    MapperFits(start, cnt);
    var sgm := SgCreateMapper(cnt);
    var nents: int;
    if userspace {
      var frames := Frames(frameOf, Page(start), PageCount(start, cnt));
      var released;
      nents, released := sgm.GetUserPages(start, cnt, Pin(|frames|, frames));
    } else {
      nents := sgm.KernelPages(start, cnt, (v: nat) => Some(frameOf(v)));
    }
    EntriesMap(frameOf, start, cnt, sgm.sgl[..nents]);
    segs := MapSg(sgm.sgl[..nents]);
  }

  /** A table whose first n descriptors are terminated and hinted. */
  function FinishedTable(table: seq<Desc>, n: nat): seq<Desc> {
    seq(|table|, k requires 0 <= k < |table| => if k < n then Finished(table[k], n, k) else table[k])
  }

  /** The last part of transfer_create: terminate the list at its last
      descriptor and fill in the adjacent counts. */
  method FinishTable(table: array<Desc>, descNum: nat)
    requires 0 < descNum <= table.Length
    modifies table
    ensures table[..] == FinishedTable(old(table[..]), descNum)
  {
    table[descNum - 1] := Terminated(table[descNum - 1]);
    for i := 0 to descNum
      invariant forall k :: 0 <= k < i ==> table[k] == Finished(old(table[k]), descNum, k)
      invariant forall k :: i <= k < table.Length ==>
                  table[k] == if k + 1 == descNum then Terminated(old(table[k])) else old(table[k])
    {
      table[i] := Adjacent(table[i], descNum - i - 1);
    }
  }

  /** The allocated table, built and finished, is the compiled table. */
  lemma TableIsCompiled(was: seq<Desc>, p: Plan, bus: nat)
    requires 0 < |p.blocks| <= |was| && AllAllocated(was, bus)
    ensures FinishedTable(BuiltTable(was, p, |p.blocks|), |p.blocks|)[..|p.blocks|] == CompiledTable(p, bus)
  {
    var table := FinishedTable(BuiltTable(was, p, |p.blocks|), |p.blocks|);
    forall k | 0 <= k < |p.blocks|
      ensures table[k] == CompiledDesc(p, bus, k)
    {
      BuiltTableAt(was, p, |p.blocks|, k);
      FinishedDesc(was[k], p, bus, |was|, k);
    }
  }

  /** The second part of transfer_create: allocate a descriptor per segment,
      then build and finish the list. */
  method MakeTable(segs: seq<Segment>, epAddr: nat, toDevice: bool, nonIncr: bool,
                   forceNewDesc: bool, userspace: bool, descBus: nat) returns (table: array<Desc>, descNum: nat)
    requires segs != [] && DescAddress(descBus, |segs|) <= TWO_TO_64
    ensures fresh(table)
    ensures var plan := Plan(Blocks(segs, forceNewDesc && !userspace), epAddr, !(userspace && nonIncr), toDevice);
            descNum == |plan.blocks| <= table.Length && table[..descNum] == CompiledTable(plan, descBus)
  {
    ghost var plan := Plan(Blocks(segs, forceNewDesc && !userspace), epAddr, !(userspace && nonIncr), toDevice);
    table := DescAlloc(|segs|, descBus);
    ghost var was := table[..];
    var last := TransferBuild(table, segs, epAddr, toDevice, nonIncr, forceNewDesc, userspace);
    descNum := last + 1;
    ghost var built := table[..];
    assert built == BuiltTable(was, plan, |plan.blocks|);
    FinishTable(table, descNum);
    ghost var ended := table[..];
    assert ended == FinishedTable(built, |plan.blocks|);
    TableIsCompiled(was, plan, descBus);
    assert table[..descNum] == ended[..descNum];
  }

  /** transfer_create. `frameOf` is the page table of the caller and `descBus`
      the address pci_alloc_consistent gives the descriptors. */
  method TransferCreate(start: nat, cnt: nat, epAddr: nat, toDevice: bool, nonIncr: bool,
                        forceNewDesc: bool, userspace: bool, frameOf: nat -> Frame, descBus: nat)
    returns (t: Transfer)
    requires cnt > 0 && start + cnt < TWO_TO_64 && Page(cnt) + 2 < 0x8000_0000
    requires DescAddress(descBus, Page(cnt) + 2) <= TWO_TO_64
    ensures fresh(t) && fresh(t.table) && t.state == New && !t.cyclic
    ensures t.toDevice == toDevice && t.descBus == descBus
    ensures var plan := Plan(Chunk(frameOf, start, cnt, forceNewDesc && !userspace),
                             epAddr, !(userspace && nonIncr), toDevice);
            && t.descNum == t.descAdjacent == |plan.blocks| <= t.table.Length
            && t.table[..t.descNum] == CompiledTable(plan, descBus)
  {
    SplitLength(start, cnt);
    CapacitySuffices(start, cnt);
    var segs := MapPages(start, cnt, userspace, frameOf);
    var table, descNum := MakeTable(segs, epAddr, toDevice, nonIncr, forceNewDesc, userspace, descBus);
    t := new Transfer(table, descBus, descNum, toDevice);
  }

  /** Mapping a filled scatter list gives the segments of the range. */
  lemma EntriesMap(frameOf: nat -> Frame, start: nat, cnt: nat, sgl: seq<Entry>)
    requires cnt > 0 && |sgl| == |Split(start, cnt)|
    requires forall i :: 0 <= i < |sgl| ==>
               sgl[i] == Entry(frameOf(Page(start) + i), Split(start, cnt)[i].offset, Split(start, cnt)[i].length)
    ensures MapSg(sgl) == RangeSegments(frameOf, start, cnt)
  {
    forall i | 0 <= i < |sgl|
      ensures MapSg(sgl)[i] == RangeSegments(frameOf, start, cnt)[i]
    {
      SplitAt(start, cnt, i);
    }
  }
}
