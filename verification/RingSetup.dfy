/**
 cyclic_transfer_setup: the descriptor table of the receive ring, and how the
 device runs around it.
 */
module RingSetup {
  import opened Words
  import opened Descriptors
  import opened ScatterGather
  import opened Coalescing
  import opened Transfers
  import opened Queue
  import opened Engines
  import opened RxEngine
  import Device
  import Ring
  import RingProtocol

  const RX_BUF_SIZE: nat := 0x10_0000
  const RING_FLAGS: bv32 := 0x12

  /** The bus address of result slot i. */
  function ResultAddress(result: nat, i: nat): nat {
    result + 32 * i
  }

  /** Descriptor i of the finished ring: its destination is block i, its source
      result slot i, its successor the next descriptor around the ring. */
  function RingDesc(p: Plan, bus: nat, result: nat, i: nat): Desc
    requires i < |p.blocks|
  {
    var n := |p.blocks|;
    var next := DescAddress(bus, if i + 1 == n then 0 else i + 1);
    SetSource(FillBlock(BLANK, p, i), ResultAddress(result, i)).(
      control := Encode(Fields(0xAD4B, 0, Bits(Extra(bus, n, i)), RING_FLAGS)),
      nextLow := Low(next), nextHigh := High(next))
  }

  function RingTable(p: Plan, bus: nat, result: nat): seq<Desc> {
    seq(|p.blocks|, i requires 0 <= i < |p.blocks| => RingDesc(p, bus, result, i))
  }

  lemma FlagsReplaced(e: bv32, flags: bv32)
    requires e <= 15 && (flags == 0 || flags == 0x13)
    ensures SetWord(ClearWord(Encode(Fields(0xAD4B, 0, e, flags)), 0xff), RING_FLAGS)
         == Encode(Fields(0xAD4B, 0, e, RING_FLAGS))
  {
  }

  lemma LinkRefreshes()
    ensures LinkWord(Encode(Fields(0xAD4B, 0, 0, RING_FLAGS))) == Encode(Fields(0xAD4B, 0, 0, RING_FLAGS))
  {
  }

  /** What the three loops of the setup make of one compiled descriptor. */
  lemma RingDescMade(p: Plan, bus: nat, result: nat, i: nat)
    requires i < |p.blocks|
    ensures var d := ClearThenSet(SetSource(CompiledDesc(p, bus, i), ResultAddress(result, i)), 0xff, RING_FLAGS);
            (if i + 1 == |p.blocks| then Link(d, Some(bus)) else d) == RingDesc(p, bus, result, i)
  {
    var last := i + 1 == |p.blocks|;
    FlagsReplaced(Bits(Extra(bus, |p.blocks|, i)), if last then STOPPED | COMPLETED | EOP else 0);
    LinkRefreshes();
  }

  // ---- the methods --------------------------------------------------------------

  /** transfer_set_result_addresses */
  method SetResultAddresses(t: Transfer, resultBus: nat)
    requires t.descNum <= t.table.Length
    modifies t.table
    ensures forall k :: 0 <= k < t.descNum ==> t.table[k] == SetSource(old(t.table[k]), ResultAddress(resultBus, k))
    ensures forall k :: t.descNum <= k < t.table.Length ==> t.table[k] == old(t.table[k])
  {
    var bus := resultBus;
    for i := 0 to t.descNum
      invariant bus == ResultAddress(resultBus, i)
      invariant forall k :: 0 <= k < i ==> t.table[k] == SetSource(old(t.table[k]), ResultAddress(resultBus, k))
      invariant forall k :: i <= k < t.table.Length ==> t.table[k] == old(t.table[k])
    {
      t.table[i] := SetSource(t.table[i], bus);
      bus := bus + 32;
    }
  }

  /** transfer_set_all_control */
  method SetAllControl(t: Transfer, control: bv32)
    requires t.descNum <= t.table.Length && InByte(control)
    modifies t.table
    ensures forall k :: 0 <= k < t.descNum ==> t.table[k] == ClearThenSet(old(t.table[k]), 0xff, control)
    ensures forall k :: t.descNum <= k < t.table.Length ==> t.table[k] == old(t.table[k])
  {
    for i := 0 to t.descNum
      invariant forall k :: 0 <= k < i ==> t.table[k] == ClearThenSet(old(t.table[k]), 0xff, control)
      invariant forall k :: i <= k < t.table.Length ==> t.table[k] == old(t.table[k])
    {
      t.table[i] := ClearThenSet(t.table[i], 0xff, control);
    }
  }

  /** xdma_transfer_cyclic */
  method TransferCyclic(t: Transfer)
    requires 0 < t.descNum <= t.table.Length
    modifies t.table, t`cyclic
    ensures t.cyclic
    ensures t.table[t.descNum - 1] == Link(old(t.table[t.descNum - 1]), Some(t.descBus))
    ensures forall k :: 0 <= k < t.table.Length && k != t.descNum - 1 ==> t.table[k] == old(t.table[k])
  {
    t.table[t.descNum - 1] := Link(t.table[t.descNum - 1], Some(t.descBus));
    t.cyclic := true;
  }

  /** One block per page of the receive buffer. */
  function RingPlan(frameOf: nat -> Frame, start: nat): Plan {
    Plan(Chunk(frameOf, start, RX_BUF_SIZE, true), 0, true, false)
  }

  /** 256 blocks, of which each is one page of the receive buffer. */
  ghost predicate OneBlockPerPage(p: Plan, frameOf: nat -> Frame, start: nat) {
    && |p.blocks| == 256 && !p.toDevice
    && forall i :: 0 <= i < 256 ==> p.blocks[i] == Segment(Bus(frameOf, start + PageStart(i)), PAGE_SIZE)
  }

  lemma RingBlocks(frameOf: nat -> Frame, start: nat)
    requires Offset(start) == 0
    ensures OneBlockPerPage(RingPlan(frameOf, start), frameOf, start)
  {
    SplitLength(start, RX_BUF_SIZE);
    var segs := RangeSegments(frameOf, start, RX_BUF_SIZE);
    ForcedBlocks(segs);
    forall i | 0 <= i < 256
      ensures segs[i] == Segment(Bus(frameOf, start + PageStart(i)), PAGE_SIZE)
    {
      SplitAt(start, RX_BUF_SIZE, i);
      PieceLength(start, RX_BUF_SIZE, i);
      assert Page(start + PageStart(i)) == Page(start) + i && Offset(start + PageStart(i)) == 0;
    }
  }

  /** The ring's transfer, before it is queued. */
  method MakeRing(start: nat, frameOf: nat -> Frame, descBus: nat, resultBus: nat) returns (t: Transfer)
    requires Offset(start) == 0 && start + RX_BUF_SIZE < TWO_TO_64
    requires DescAddress(descBus, 258) <= TWO_TO_64
    ensures fresh(t) && fresh(t.table) && t.cyclic && t.state == New && !t.toDevice
    ensures t.descBus == descBus && t.descNum == t.descAdjacent == 256 <= t.table.Length
    ensures OneBlockPerPage(RingPlan(frameOf, start), frameOf, start)
    ensures t.table[..256] == RingTable(RingPlan(frameOf, start), descBus, resultBus)
  {
    RingBlocks(frameOf, start);
    ghost var plan := RingPlan(frameOf, start);
    t := TransferCreate(start, RX_BUF_SIZE, 0, false, false, true, false, frameOf, descBus);
    ghost var compiled := t.table[..];
    assert compiled[..256] == CompiledTable(plan, descBus);
    SetResultAddresses(t, resultBus);
    SetAllControl(t, RING_FLAGS);
    TransferCyclic(t);
    forall k | 0 <= k < 256
      ensures t.table[k] == RingDesc(plan, descBus, resultBus, k)
    {
      assert compiled[..256][k] == CompiledDesc(plan, descBus, k);
      RingDescMade(plan, descBus, resultBus, k);
    }
  }

  /** The state of the receive protocol that a session starts in. */
  ghost function SessionStart(rx: RxEngine): RingProtocol.State
    reads rx, rx.results
    requires rx.Valid()
  {
    RingProtocol.State(rx.View(), rx.rxBuffer, rx.credits, 0, 0, 0, 0, RingProtocol.Idle, rx.user, 0, [])
  }

  /** The receive side of a session that begins, with its credits written. */
  method NewSession(buffer: Buffer, creditMode: bool) returns (rx: RxEngine)
    requires IsBuffer(buffer)
    ensures fresh(rx) && fresh(rx.results) && rx.Valid() && rx.rxBuffer == buffer
    ensures rx.View() == Ring.EmptyRing() && rx.credits == if creditMode then 128 else 0
    ensures creditMode ==> RingProtocol.Initial(SessionStart(rx))
  {
    rx := new RxEngine(buffer);
    if creditMode {
      rx.credits := 128;
    }
  }

  /** cyclic_transfer_setup, once its buffers are allocated: the receive side
      starts with an empty ring, with 128 credits in credit mode; the device,
      if it was idle, is started on the ring. */
  method CyclicTransferSetup(engine: Engine, start: nat, frameOf: nat -> Frame, descBus: nat, resultBus: nat,
                             buffer: Buffer, creditMode: bool)
    returns (t: Transfer, rx: RxEngine)
    requires Offset(start) == 0 && start + RX_BUF_SIZE < TWO_TO_64
    requires DescAddress(descBus, 258) <= TWO_TO_64 && IsBuffer(buffer)
    modifies engine
    ensures fresh(t) && fresh(t.table) && t.cyclic && !t.toDevice
    ensures t.descBus == descBus && t.descNum == t.descAdjacent == 256 <= t.table.Length
    ensures OneBlockPerPage(RingPlan(frameOf, start), frameOf, start)
    ensures t.table[..256] == RingTable(RingPlan(frameOf, start), descBus, resultBus)
    ensures fresh(rx) && fresh(rx.results) && rx.Valid() && rx.rxBuffer == buffer
    ensures rx.View() == Ring.EmptyRing() && rx.credits == if creditMode then 128 else 0
    ensures creditMode ==> RingProtocol.Initial(SessionStart(rx))
    ensures engine.View() == AfterSubmit(old(engine.View()), t)
    ensures t.state == if old(engine.shutdownRequest) then New else Submitted
    ensures !old(engine.running || engine.shutdownRequest) ==> engine.Programmed()
  {
    rx := NewSession(buffer, creditMode);
    t := MakeRing(start, frameOf, descBus, resultBus);
    var queued := engine.Submit(t);
  }

  // ---- the device on the ring ------------------------------------------------------

  /** The next descriptor around a ring of n. */
  function Succ(i: nat, n: nat): nat {
    if i + 1 == n then 0 else i + 1
  }

  /** The descriptors from i on, around a ring of n. */
  function Around(i: nat, n: nat, fuel: nat): Device.Trace
    requires i < n
    decreases fuel
  {
    if fuel == 0 then Device.End(Device.OutOfFuel) else Device.Ran(i, Around(Succ(i, n), n, fuel - 1))
  }

  lemma RingReads(p: Plan, bus: nat, result: nat, i: nat)
    requires i < |p.blocks| && DescAddress(bus, |p.blocks|) <= TWO_TO_64
    ensures Device.Read(RingDesc(p, bus, result, i)) ==
            Device.Signpost(true, false, DescAddress(bus, Succ(i, |p.blocks|)), Extra(bus, |p.blocks|, i))
  {
    var e := Bits(Extra(bus, |p.blocks|, i));
    RingFields(e);
    HintIsAdjacent(RingDesc(p, bus, result, i).control, Extra(bus, |p.blocks|, i));
    JoinHalves(DescAddress(bus, Succ(i, |p.blocks|)));
  }

  lemma RingFields(e: bv32)
    requires e <= 15
    ensures Decode(Encode(Fields(0xAD4B, 0, e, RING_FLAGS))) == Fields(0xAD4B, 0, e, RING_FLAGS)
    ensures Encode(Fields(0xAD4B, 0, e, RING_FLAGS)) & 1 == 0
  {
  }

  /** A table that runs around: nothing stops, the last is followed by the first. */
  ghost predicate Circular(table: seq<Device.Signpost>, bus: nat) {
    forall i :: 0 <= i < |table| ==>
      table[i] == Device.Signpost(true, false, DescAddress(bus, Succ(i, |table|)), Extra(bus, |table|, i))
  }

  lemma RingIsCircular(p: Plan, bus: nat, result: nat)
    requires DescAddress(bus, |p.blocks|) <= TWO_TO_64
    ensures Circular(Device.ReadAll(RingTable(p, bus, result)), bus)
  {
    forall i | 0 <= i < |p.blocks|
      ensures Device.ReadAll(RingTable(p, bus, result))[i] ==
              Device.Signpost(true, false, DescAddress(bus, Succ(i, |p.blocks|)), Extra(bus, |p.blocks|, i))
    {
      RingReads(p, bus, result, i);
    }
  }

  lemma CircularIsWellHinted(table: seq<Device.Signpost>, bus: nat)
    requires bus % 4096 == 0 && Circular(table, bus)
    ensures Device.WellHinted(table, bus, i => Succ(i, |table|))
  {
    forall i | 0 <= i < |table|
      ensures Device.GoodHint(table, bus, table[i], Succ(i, |table|))
    {
      if i + 1 < |table| {
        Device.ExtraIsBounded(bus, |table|, i);
      }
      Device.SlotFetch(|table|, bus, Succ(i, |table|), table[i].extra);
    }
  }

  lemma {:induction false} CircularChain(table: seq<Device.Signpost>, bus: nat, i: nat, fuel: nat)
    requires bus % 4096 == 0 && Circular(table, bus) && i < |table|
    ensures Device.Chain(table, bus, DescAddress(bus, i), fuel) == Around(i, |table|, fuel)
    decreases fuel
  {
    Device.SlotFetch(|table|, bus, i, 0);
    if fuel > 0 {
      CircularChain(table, bus, Succ(i, |table|), fuel - 1);
    }
  }

  lemma RunIsAround(table: seq<Device.Signpost>, bus: nat, extra: nat, fuel: nat)
    requires bus % 4096 == 0 && Circular(table, bus) && extra < |table| && extra <= 15
    ensures Device.Run(table, bus, bus, extra, fuel) == Around(0, |table|, fuel)
  {
    CircularIsWellHinted(table, bus);
    Device.SlotFetch(|table|, bus, 0, extra);
    Device.WalkFollowsChain(table, bus, i => Succ(i, |table|), 0, extra, fuel);
    CircularChain(table, bus, 0, fuel);
  }

  lemma RingRuns(p: Plan, bus: nat, result: nat, fuel: nat)
    requires |p.blocks| == 256 && bus % 4096 == 0 && DescAddress(bus, 256) <= TWO_TO_64
    ensures Device.Run(Device.ReadAll(RingTable(p, bus, result)), bus, bus, Device.FirstExtra(256), fuel) ==
            Around(0, 256, fuel)
  {
    RingIsCircular(p, bus, result);
    RunIsAround(Device.ReadAll(RingTable(p, bus, result)), bus, Device.FirstExtra(256), fuel);
  }

  /** Started on the finished ring, the device goes around it for as long as it
      runs: every descriptor in turn, none stops it, and no fetch of a block of
      descriptors crosses a page, leaves the ring or departs from the list. */
  lemma DeviceRunsAround(p: Plan, bus: nat, result: nat, fuel: nat)
    requires |p.blocks| == 256 && bus % 4096 == 0 && DescAddress(bus, 256) <= TWO_TO_64
    ensures var table := Device.ReadAll(RingTable(p, bus, result));
            && Device.Run(table, bus, bus, Device.FirstExtra(256), fuel) == Around(0, 256, fuel)
            && forall i :: 0 <= i < 256 ==> Device.Chain(table, bus, DescAddress(bus, i), fuel) == Around(i, 256, fuel)
  {
    var table := Device.ReadAll(RingTable(p, bus, result));
    RingRuns(p, bus, result, fuel);
    RingIsCircular(p, bus, result);
    forall i | 0 <= i < 256
      ensures Device.Chain(table, bus, DescAddress(bus, i), fuel) == Around(i, 256, fuel)
    {
      CircularChain(table, bus, i, fuel);
    }
  }

  /** What the device is on at step k. */
  function StepOf(trace: Device.Trace, k: nat): Option<nat> {
    match trace
    case End(_) => None
    case Ran(i, rest) => if k == 0 then Some(i) else StepOf(rest, k - 1)
  }

  lemma {:induction false} AroundAt(i: nat, fuel: nat, k: nat)
    requires i < 256 && k < fuel
    ensures StepOf(Around(i, 256, fuel), k) == Some((i + k) % 256)
    decreases k
  {
    if k > 0 {
      AroundAt(Succ(i, 256), fuel - 1, k - 1);
    }
  }

  lemma RingDescPlaces(p: Plan, bus: nat, result: nat, i: nat, host: nat)
    requires i < |p.blocks| && !p.toDevice && p.blocks[i] == Segment(host, 4096)
    requires host < TWO_TO_64 && result + 32 * i < TWO_TO_64
    ensures var d := RingDesc(p, bus, result, i);
            && d.bytes == 4096
            && d.dstHigh * 0x1_0000_0000 + d.dstLow == d.Destination() == host
            && d.srcHigh * 0x1_0000_0000 + d.srcLow == d.Source() == result + 32 * i
  {
    JoinHalves(host);
    JoinHalves(ResultAddress(result, i));
  }

  /** Where block i is. */
  lemma RingPage(p: Plan, frameOf: nat -> Frame, start: nat, i: nat) returns (host: nat)
    requires OneBlockPerPage(p, frameOf, start) && i < 256
    ensures host == Bus(frameOf, start + 4096 * i) < TWO_TO_64 && p.blocks[i] == Segment(host, 4096) && !p.toDevice
  {
    host := Bus(frameOf, start + PageStart(i));
  }

  lemma RingDescNext(p: Plan, bus: nat, result: nat, i: nat)
    requires |p.blocks| == 256 && i < 256 && DescAddress(bus, 256) <= TWO_TO_64
    ensures var d := RingDesc(p, bus, result, i);
            && d.nextHigh * 0x1_0000_0000 + d.nextLow == bus + 32 * (if i == 255 then 0 else i + 1)
            && d.control >> 16 == 0xAD4B && d.control & 0xff == 0x12
            && (d.control >> 8) & 0xff == Bits(Extra(bus, 256, i))
  {
    HalvesAdd(DescAddress(bus, if i == 255 then 0 else i + 1));
    ControlBits(Bits(Extra(bus, 256, i)), 0x12);
  }

  /** Descriptor i stores 4096 bytes in page i of the receive buffer and reports
      32 * i bytes into the result buffer; the next descriptor, or after the last
      the first, comes next. Its control word has the magic and the flags
      COMPLETED and EOP, which are 0x12. */
  lemma RingDescMeans(p: Plan, frameOf: nat -> Frame, start: nat, bus: nat, result: nat, i: nat)
    requires OneBlockPerPage(p, frameOf, start) && i < 256
    requires result + 8192 <= TWO_TO_64 && DescAddress(bus, 256) <= TWO_TO_64
    ensures var d := RingDesc(p, bus, result, i);
            && d.bytes == 4096
            && d.dstHigh * 0x1_0000_0000 + d.dstLow == d.Destination() == Bus(frameOf, start + 4096 * i)
            && d.srcHigh * 0x1_0000_0000 + d.srcLow == d.Source() == result + 32 * i
            && d.nextHigh * 0x1_0000_0000 + d.nextLow == bus + 32 * (if i == 255 then 0 else i + 1)
            && d.control >> 16 == 0xAD4B && d.control & 0xff == 0x12
            && (d.control >> 8) & 0xff == Bits(Extra(bus, 256, i))
  {
    var host := RingPage(p, frameOf, start, i);
    RingDescPlaces(p, bus, result, i, host);
    RingDescNext(p, bus, result, i);
  }

  /** The result slots are 32 bytes each, in order, and fill the 8192 bytes of the result buffer. */
  lemma ResultSlotsApart(p: Plan, frameOf: nat -> Frame, start: nat, bus: nat, result: nat, i: nat, j: nat)
    requires OneBlockPerPage(p, frameOf, start) && i < 256 && j < 256
    requires result + 8192 <= TWO_TO_64 && DescAddress(bus, 256) <= TWO_TO_64
    ensures var a, b := RingDesc(p, bus, result, i).Source(), RingDesc(p, bus, result, j).Source();
            && result <= a && a + 32 <= result + 8192
            && (i < j ==> a + 32 <= b) && (j == i + 1 ==> a + 32 == b)
  {
    var first := RingPage(p, frameOf, start, i);
    var second := RingPage(p, frameOf, start, j);
    RingDescPlaces(p, bus, result, i, first);
    RingDescPlaces(p, bus, result, j, second);
  }

  /** The k-th descriptor that the device executes is descriptor k modulo 256.
      So its k-th block is in page k modulo 256 of the receive buffer and is
      reported in that result slot: where the reader, with its head there,
      looks for both. */
  lemma DeviceAtStep(p: Plan, bus: nat, result: nat, fuel: nat, k: nat)
    requires |p.blocks| == 256 && bus % 4096 == 0 && DescAddress(bus, 256) <= TWO_TO_64 && k < fuel
    ensures var table := Device.ReadAll(RingTable(p, bus, result));
            StepOf(Device.Run(table, bus, bus, Device.FirstExtra(256), fuel), k) == Some(k % 256)
  {
    RingRuns(p, bus, result, fuel);
    AroundAt(0, fuel, k);
  }

  /** The block that the device writes in a state of the receive protocol is the
      work of the descriptor it is then on: it goes to that descriptor's page
      and is reported in that descriptor's result slot, and nowhere else. */
  lemma WriteIsDescriptor(p: Plan, frameOf: nat -> Frame, start: nat, bus: nat, result: nat, fuel: nat,
                          s: RingProtocol.State, b: RingProtocol.Block)
    returns (i: nat)
    requires OneBlockPerPage(p, frameOf, start) && bus % 4096 == 0
    requires DescAddress(bus, 256) <= TWO_TO_64 && result + 8192 <= TWO_TO_64
    requires s.written < fuel && RingProtocol.Consistent(s) && 1 <= |b.data| <= PAGE_SIZE
    ensures var table := Device.ReadAll(RingTable(p, bus, result));
            StepOf(Device.Run(table, bus, bus, Device.FirstExtra(256), fuel), s.written) == Some(i)
    ensures i < 256 && var d := RingTable(p, bus, result)[i];
            && d.Destination() == Bus(frameOf, start + 4096 * i) && d.Source() == result + 32 * i
    ensures var t := RingProtocol.AfterWrite(s, b);
            && t.buffer[i][..|b.data|] == b.data && t.ring.results[i] == Ring.Result(b.status, |b.data|)
            && (forall k :: 0 <= k < 256 && k != i ==>
                  t.buffer[k] == s.buffer[k] && t.ring.results[k] == s.ring.results[k])
  {
    i := Ring.Slot(s.written);
    DeviceAtStep(p, bus, result, fuel, s.written);
    var host := RingPage(p, frameOf, start, i);
    RingDescPlaces(p, bus, result, i, host);
    WriteLands(s, b, i);
  }

  lemma WriteLands(s: RingProtocol.State, b: RingProtocol.Block, i: nat)
    requires RingProtocol.Consistent(s) && 1 <= |b.data| <= PAGE_SIZE && i == Ring.Slot(s.written)
    ensures var t := RingProtocol.AfterWrite(s, b);
            && t.buffer[i][..|b.data|] == b.data && t.ring.results[i] == Ring.Result(b.status, |b.data|)
            && (forall k :: 0 <= k < 256 && k != i ==>
                  t.buffer[k] == s.buffer[k] && t.ring.results[k] == s.ring.results[k])
  {
  }
}
