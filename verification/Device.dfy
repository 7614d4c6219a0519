/**
 The device: how it walks a descriptor table in host memory.

 It fetches descriptors in blocks: a start address (or a next pointer) comes
 with a number of extra descriptors that are read from the memory behind it
 without following their next pointers. A block must lie within the table and
 within one 4 KiB page, and each descriptor must carry the magic number.
 */
module Device {
  import opened Words
  import opened Descriptors
  import opened Transfers

  // ---- walking the table ----------------------------------------------------

  /** What the device reads from a descriptor to find its way. */
  datatype Signpost = Signpost(magic: bool, stop: bool, next: nat, extra: nat)

  function Read(d: Desc): Signpost {
    Signpost(Decode(d.control).magic == 0xAD4B, d.control & 1 != 0, d.Next(), Hint(d.control))
  }

  function ReadAll(table: seq<Desc>): seq<Signpost> {
    seq(|table|, i requires 0 <= i < |table| => Read(table[i]))
  }

  datatype Status = Halted | Faulted | OutOfFuel

  /** The indices of the descriptors executed, up to where and why the device is no longer executing. */
  datatype Trace = End(status: Status) | Ran(i: nat, rest: Trace)

  /** May `extra` + 1 descriptors of a table of n at bus be fetched at addr? */
  predicate Fetchable(n: nat, bus: nat, addr: nat, extra: nat) {
    && bus <= addr && (addr - bus) % 32 == 0
    && (addr - bus) / 32 + extra < n
    && addr / 4096 == (addr + 32 * extra + 31) / 4096
  }

  function IndexOf(n: nat, bus: nat, addr: nat): (i: nat)
    requires Fetchable(n, bus, addr, 0)
    ensures i < n
  {
    (addr - bus) / 32
  }

  /** Execution from addr with `left` more descriptors already fetched behind it. */
  function Walk(table: seq<Signpost>, bus: nat, addr: nat, left: nat, fuel: nat): Trace
    decreases fuel
  {
    if fuel == 0 then End(OutOfFuel)
    else if !Fetchable(|table|, bus, addr, 0) then End(Faulted)
    else
      var i := IndexOf(|table|, bus, addr);
      var d := table[i];
      if !d.magic then End(Faulted)
      else if d.stop then Ran(i, End(Halted))
      else if left > 0 then Ran(i, Walk(table, bus, addr + 32, left - 1, fuel - 1))
      else if !Fetchable(|table|, bus, d.next, d.extra) then Ran(i, End(Faulted))
      else Ran(i, Walk(table, bus, d.next, d.extra, fuel - 1))
  }

  /** Execution as the start registers ask for it. */
  function Run(table: seq<Signpost>, bus: nat, first: nat, extra: nat, fuel: nat): Trace {
    if Fetchable(|table|, bus, first, extra) then Walk(table, bus, first, extra, fuel) else End(Faulted)
  }

  /** The linked list alone: no block fetches, no hints. */
  function Chain(table: seq<Signpost>, bus: nat, addr: nat, fuel: nat): Trace
    decreases fuel
  {
    if fuel == 0 then End(OutOfFuel)
    else if !Fetchable(|table|, bus, addr, 0) then End(Faulted)
    else
      var i := IndexOf(|table|, bus, addr);
      var d := table[i];
      if !d.magic then End(Faulted)
      else if d.stop then Ran(i, End(Halted))
      else Ran(i, Chain(table, bus, d.next, fuel - 1))
  }

  /** The `left` descriptors behind descriptor i are its successors in the linked list. */
  ghost predicate Linear(table: seq<Signpost>, bus: nat, i: nat, left: nat) {
    && i + left < |table|
    && forall k :: i <= k < i + left && !table[k].stop ==> table[k].next == DescAddress(bus, k + 1)
  }

  /** The hint of a descriptor whose successor is descriptor `next` announces
      a fetchable block of list successors. */
  ghost predicate GoodHint(table: seq<Signpost>, bus: nat, d: Signpost, next: nat) {
    && d.next == DescAddress(bus, next)
    && Fetchable(|table|, bus, d.next, d.extra)
    && Linear(table, bus, next, d.extra)
  }

  ghost predicate WellHinted(table: seq<Signpost>, bus: nat, succ: nat -> nat) {
    forall i :: 0 <= i < |table| && !table[i].stop ==> GoodHint(table, bus, table[i], succ(i))
  }

  /** In a page-aligned table 128 descriptors fill a page. */
  lemma SlotInPage(bus: nat, i: nat)
    requires bus % 4096 == 0
    ensures DescAddress(bus, i) / 4096 == bus / 4096 + i / 128
    ensures DescAddress(bus, i) % 4096 == 32 * (i % 128)
  {
    var q, s, r := bus / 4096, i / 128, i % 128;
    assert i == 128 * s + r;
    assert DescAddress(bus, i) == 4096 * (q + s) + 32 * r;
  }

  lemma SlotIndex(bus: nat, i: nat)
    ensures (DescAddress(bus, i) - bus) % 32 == 0
    ensures (DescAddress(bus, i) - bus) / 32 == i
  {
  }

  /** A fetch of descriptors that the rest of the page has room for. */
  lemma SlotFetch(n: nat, bus: nat, i: nat, extra: nat)
    requires bus % 4096 == 0 && i + extra < n && extra <= 127 - i % 128
    ensures Fetchable(n, bus, DescAddress(bus, i), extra)
    ensures Fetchable(n, bus, DescAddress(bus, i), 0)
    ensures IndexOf(n, bus, DescAddress(bus, i)) == i
  {
    SlotInPage(bus, i);
    SlotIndex(bus, i);
    var a := DescAddress(bus, i);
    var q := a / 4096;
    assert a == 4096 * q + 32 * (i % 128);
    assert (a + 32 * extra + 31) / 4096 == q;
    assert (a + 31) / 4096 == q;
  }

  /** One descriptor that does not stop the device, executed by blocks or by links. */
  lemma OneDescriptor(table: seq<Signpost>, bus: nat, i: nat, left: nat, fuel: nat)
    requires bus % 4096 == 0 && i < |table| && fuel > 0 && table[i].magic && !table[i].stop
    requires if left > 0 then
               && table[i].next == DescAddress(bus, i + 1)
               && Walk(table, bus, table[i].next, left - 1, fuel - 1) == Chain(table, bus, table[i].next, fuel - 1)
             else
               && Fetchable(|table|, bus, table[i].next, table[i].extra)
               && Walk(table, bus, table[i].next, table[i].extra, fuel - 1)
               == Chain(table, bus, table[i].next, fuel - 1)
    ensures Walk(table, bus, DescAddress(bus, i), left, fuel) == Chain(table, bus, DescAddress(bus, i), fuel)
  {
    SlotFetch(|table|, bus, i, 0);
  }

  /** The last descriptor executed. */
  lemma NoMoreDescriptors(table: seq<Signpost>, bus: nat, i: nat, left: nat, fuel: nat)
    requires bus % 4096 == 0 && i < |table| && (fuel == 0 || !table[i].magic || table[i].stop)
    ensures Walk(table, bus, DescAddress(bus, i), left, fuel) == Chain(table, bus, DescAddress(bus, i), fuel)
  {
    SlotFetch(|table|, bus, i, 0);
  }

  /** With good hints, fetching by blocks executes what the linked list says. */
  lemma {:induction false} WalkFollowsChain(table: seq<Signpost>, bus: nat, succ: nat -> nat,
                                            i: nat, left: nat, fuel: nat)
    requires bus % 4096 == 0 && WellHinted(table, bus, succ)
    requires Linear(table, bus, i, left)
    ensures Walk(table, bus, DescAddress(bus, i), left, fuel) == Chain(table, bus, DescAddress(bus, i), fuel)
    decreases fuel
  {
    if fuel == 0 || !table[i].magic || table[i].stop {
      NoMoreDescriptors(table, bus, i, left, fuel);
    } else {
      assert GoodHint(table, bus, table[i], succ(i));
      if left > 0 {
        WalkFollowsChain(table, bus, succ, i + 1, left - 1, fuel - 1);
      } else {
        WalkFollowsChain(table, bus, succ, succ(i), table[i].extra, fuel - 1);
      }
      OneDescriptor(table, bus, i, left, fuel);
    }
  }

  // ---- a compiled table ------------------------------------------------------

  lemma EncodedFields(e: bv32, flags: bv32)
    requires e <= 15 && (flags == 0 || flags == 0x13)
    ensures Decode(Encode(Fields(0xAD4B, 0, e, flags))) == Fields(0xAD4B, 0, e, flags)
    ensures Encode(Fields(0xAD4B, 0, e, flags)) & 1 == flags & 1
  {
  }

  lemma CompiledReads(p: Plan, bus: nat, i: nat)
    requires i < |p.blocks| && DescAddress(bus, |p.blocks|) <= TWO_TO_64
    ensures Read(CompiledDesc(p, bus, i)) ==
            Signpost(true, i + 1 == |p.blocks|, if i + 1 == |p.blocks| then 0 else DescAddress(bus, i + 1),
                     Extra(bus, |p.blocks|, i))
  {
    var last := i + 1 == |p.blocks|;
    EncodedFields(Bits(Extra(bus, |p.blocks|, i)), if last then STOPPED | COMPLETED | EOP else 0);
    HintIsAdjacent(CompiledDesc(p, bus, i).control, Extra(bus, |p.blocks|, i));
    JoinHalves(if last then 0 else DescAddress(bus, i + 1));
  }

  lemma LowOffset(a: nat)
    ensures Low(a) % 0x1000 == a % 4096
  {
    var k, r := a / 0x1_0000_0000, a % 0x1_0000_0000;
    assert a == 4096 * (0x10_0000 * k + r / 4096) + r % 4096;
  }

  /** The hint of descriptor i: bounded by the count, by the hardware and by
      the page of its successor. */
  lemma ExtraIsBounded(bus: nat, n: nat, i: nat)
    requires bus % 4096 == 0 && i + 1 < n
    ensures Extra(bus, n, i) <= n - i - 2 && Extra(bus, n, i) <= 15
    ensures Extra(bus, n, i) <= 127 - (i + 1) % 128
    ensures Extra(bus, n, i) in {n - i - 2, 15, 127 - (i + 1) % 128}
  {
    var next := DescAddress(bus, i + 1);
    SlotInPage(bus, i + 1);
    LowOffset(next);
    var r := (i + 1) % 128;
    assert (0x1000 - 32 * r) / 32 == 128 - r;
    assert Sub32(128 - r, 1) == 127 - r;
  }

  /** The descriptors that descriptor i announces are in the table and in one page. */
  lemma HintStaysInPage(bus: nat, n: nat, i: nat)
    requires bus % 4096 == 0 && i + 1 < n
    ensures var next, extra := bus + 32 * (i + 1), Extra(bus, n, i);
            i + 1 + extra < n && next / 4096 == (next + 32 * extra + 31) / 4096
  {
    ExtraIsBounded(bus, n, i);
    SlotFetch(n, bus, i + 1, Extra(bus, n, i));
  }

  /** Each descriptor is followed by the next in memory, and only the last one stops. */
  ghost predicate Straight(table: seq<Signpost>, bus: nat) {
    forall i :: 0 <= i < |table| ==>
      && table[i].magic && table[i].stop == (i + 1 == |table|)
      && (i + 1 < |table| ==> table[i].next == DescAddress(bus, i + 1))
  }

  lemma CompiledIsStraight(p: Plan, bus: nat)
    requires DescAddress(bus, |p.blocks|) <= TWO_TO_64
    ensures Straight(ReadAll(CompiledTable(p, bus)), bus)
    ensures forall i :: 0 <= i < |p.blocks| ==> ReadAll(CompiledTable(p, bus))[i].extra == Extra(bus, |p.blocks|, i)
  {
    forall i | 0 <= i < |p.blocks|
      ensures ReadAll(CompiledTable(p, bus))[i] ==
              Signpost(true, i + 1 == |p.blocks|, if i + 1 == |p.blocks| then 0 else DescAddress(bus, i + 1),
                       Extra(bus, |p.blocks|, i))
    {
      CompiledReads(p, bus, i);
    }
  }

  lemma CompiledIsWellHinted(p: Plan, bus: nat)
    requires bus % 4096 == 0 && DescAddress(bus, |p.blocks|) <= TWO_TO_64
    ensures WellHinted(ReadAll(CompiledTable(p, bus)), bus, i => i + 1)
  {
    var table := ReadAll(CompiledTable(p, bus));
    CompiledIsStraight(p, bus);
    forall i | 0 <= i < |table| && !table[i].stop
      ensures GoodHint(table, bus, table[i], i + 1)
    {
      ExtraIsBounded(bus, |table|, i);
      SlotFetch(|table|, bus, i + 1, table[i].extra);
    }
  }

  /** Descriptors i to n - 1, once each and in order. */
  function InOrder(i: nat, n: nat): Trace
    requires i <= n
    decreases n - i
  {
    if i == n then End(Halted) else Ran(i, InOrder(i + 1, n))
  }

  lemma {:induction false} StraightChain(table: seq<Signpost>, bus: nat, i: nat, fuel: nat)
    requires bus % 4096 == 0 && Straight(table, bus)
    requires i < |table| <= i + fuel
    ensures Chain(table, bus, DescAddress(bus, i), fuel) == InOrder(i, |table|)
    decreases fuel
  {
    SlotFetch(|table|, bus, i, 0);
    if i + 1 < |table| {
      StraightChain(table, bus, i + 1, fuel - 1);
    }
  }

  /** The first block that engine_start announces. */
  function FirstExtra(descAdjacent: nat): (e: nat)
    ensures e <= 15 && (descAdjacent > 0 ==> e < descAdjacent)
    ensures e == 15 || e + 1 == descAdjacent || e == descAdjacent == 0
  {
    if descAdjacent > 0 then
      if descAdjacent - 1 > MAX_EXTRA_ADJ then MAX_EXTRA_ADJ else descAdjacent - 1
    else 0
  }

  lemma StraightRun(table: seq<Signpost>, bus: nat, extra: nat, fuel: nat)
    requires bus % 4096 == 0 && Straight(table, bus) && WellHinted(table, bus, i => i + 1)
    requires extra < |table| <= fuel && extra <= 15
    ensures Run(table, bus, bus, extra, fuel) == InOrder(0, |table|)
  {
    SlotFetch(|table|, bus, 0, extra);
    WalkFollowsChain(table, bus, i => i + 1, 0, extra, fuel);
    StraightChain(table, bus, 0, fuel);
  }

  /** Started on a compiled table in page-aligned memory, the device executes
      each of its descriptors once, in order, and halts: no fetch crosses a page
      or leaves the table, whatever hints coalescing has left. */
  lemma DeviceRunsCompiledTable(p: Plan, bus: nat, fuel: nat)
    requires bus % 4096 == 0 && DescAddress(bus, |p.blocks|) <= TWO_TO_64
    requires 0 < |p.blocks| <= fuel
    ensures Run(ReadAll(CompiledTable(p, bus)), bus, bus, FirstExtra(|p.blocks|), fuel) == InOrder(0, |p.blocks|)
  {
    CompiledIsWellHinted(p, bus);
    CompiledIsStraight(p, bus);
    StraightRun(ReadAll(CompiledTable(p, bus)), bus, FirstExtra(|p.blocks|), fuel);
  }
}
