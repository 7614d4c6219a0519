/**
 What executing descriptors does to memory, and why a compiled table does what
 one flat copy between the user's buffer and the device would do.
 */
module Copying {
  import opened Words
  import opened Descriptors
  import opened ScatterGather
  import opened Coalescing
  import opened Transfers
  import opened Device

  type Memory = nat -> byte

  /** Host memory by bus address and the memory of the card. */
  datatype Spaces = Spaces(host: Memory, card: Memory)

  function Overlay(dst: Memory, to: nat, src: Memory, from: nat, n: nat): Memory {
    (a: nat) => if to <= a < to + n then src(from + (a - to)) else dst(a)
  }

  /** One descriptor: copy its bytes from its source to its destination. */
  function CopyDesc(d: Desc, toDevice: bool, m: Spaces): Spaces {
    if toDevice
    then m.(card := Overlay(m.card, d.Destination(), m.host, d.Source(), d.bytes))
    else m.(host := Overlay(m.host, d.Destination(), m.card, d.Source(), d.bytes))
  }

  /** At most `budget` descriptors of a trace. */
  function Execute(table: seq<Desc>, trace: Trace, budget: nat, toDevice: bool, m: Spaces): Spaces
    decreases budget
  {
    if budget == 0 || trace.End? || trace.i >= |table| then m
    else Execute(table, trace.rest, budget - 1, toDevice, CopyDesc(table[trace.i], toDevice, m))
  }

  /** The first n blocks of a plan, copied one after the other. */
  function CopyBlocks(p: Plan, n: nat, m: Spaces): Spaces
    requires n <= |p.blocks|
  {
    if n == 0 then m
    else
      var b, at := p.blocks[n - 1], Endpoint(p, n - 1);
      var was := CopyBlocks(p, n - 1, m);
      if p.toDevice
      then was.(card := Overlay(was.card, at, was.host, b.addr, b.len))
      else was.(host := Overlay(was.host, b.addr, was.card, at, b.len))
  }

  /** Every block has a length and addresses that a descriptor can hold. */
  ghost predicate Fits(p: Plan) {
    && (forall j :: 0 <= j < |p.blocks| ==> SizeFits(p.blocks[j]) && p.blocks[j].addr < TWO_TO_64)
    && p.ep + Total(p.blocks, |p.blocks|) <= TWO_TO_64
  }

  lemma {:induction false} TotalMonotone(segs: seq<Segment>, m: nat, n: nat)
    requires m <= n <= |segs|
    ensures Total(segs, m) <= Total(segs, n)
  {
    if m < n {
      TotalMonotone(segs, m, n - 1);
    }
  }

  /** A compiled descriptor copies its block. */
  lemma CompiledCopies(p: Plan, bus: nat, i: nat, m: Spaces)
    requires Fits(p) && i < |p.blocks|
    ensures CopyDesc(CompiledDesc(p, bus, i), p.toDevice, CopyBlocks(p, i, m)) == CopyBlocks(p, i + 1, m)
  {
    var d, b := CompiledDesc(p, bus, i), p.blocks[i];
    TotalMonotone(p.blocks, i + 1, |p.blocks|);
    assert SizeFits(b);
    JoinHalves(b.addr);
    JoinHalves(Endpoint(p, i));
    assert d.bytes == b.len;
    assert p.toDevice ==> d.Source() == b.addr && d.Destination() == Endpoint(p, i);
    assert !p.toDevice ==> d.Source() == Endpoint(p, i) && d.Destination() == b.addr;
  }

  /** From descriptor i on, a budget takes the copying of blocks as far as `end`. */
  ghost predicate ExecutesTo(p: Plan, bus: nat, i: nat, budget: nat, end: nat, m: Spaces)
    requires i <= |p.blocks| && end <= |p.blocks|
  {
    Execute(CompiledTable(p, bus), InOrder(i, |p.blocks|), budget, p.toDevice, CopyBlocks(p, i, m))
    == CopyBlocks(p, end, m)
  }

  lemma ExecuteNone(p: Plan, bus: nat, i: nat, budget: nat, m: Spaces)
    requires i <= |p.blocks| && (budget == 0 || i == |p.blocks|)
    ensures ExecutesTo(p, bus, i, budget, i, m)
  {
  }

  lemma ExecuteOne(p: Plan, bus: nat, i: nat, budget: nat, end: nat, m: Spaces)
    requires Fits(p) && i < |p.blocks| && end <= |p.blocks| && budget > 0
    requires ExecutesTo(p, bus, i + 1, budget - 1, end, m)
    ensures ExecutesTo(p, bus, i, budget, end, m)
  {
    CompiledCopies(p, bus, i, m);
  }

  lemma {:induction false} ExecuteTo(p: Plan, bus: nat, i: nat, budget: nat, end: nat, m: Spaces)
    requires Fits(p) && i <= |p.blocks| && end == if i + budget < |p.blocks| then i + budget else |p.blocks|
    ensures ExecutesTo(p, bus, i, budget, end, m)
    decreases budget
  {
    if budget == 0 || i == |p.blocks| {
      ExecuteNone(p, bus, i, budget, m);
    } else {
      ExecuteTo(p, bus, i + 1, budget - 1, end, m);
      ExecuteOne(p, bus, i, budget, end, m);
    }
  }

  lemma ExecuteCompiled(p: Plan, bus: nat, budget: nat, m: Spaces)
    requires Fits(p)
    ensures Execute(CompiledTable(p, bus), InOrder(0, |p.blocks|), budget, p.toDevice, m)
         == CopyBlocks(p, Least(budget, |p.blocks|), m)
  {
    ExecuteTo(p, bus, 0, budget, Least(budget, |p.blocks|), m);
  }

  // ---- the flat copy ----------------------------------------------------------

  /** The blocks hold each address at most once. */
  ghost predicate Injective(blocks: seq<Segment>) {
    forall j, k :: 0 <= j < k < Total(blocks, |blocks|) ==> ByteAt(blocks, |blocks|, j) != ByteAt(blocks, |blocks|, k)
  }

  lemma {:induction false} ByteAtStays(segs: seq<Segment>, m: nat, n: nat, k: nat)
    requires m <= n <= |segs| && k < Total(segs, m)
    ensures k < Total(segs, n) && ByteAt(segs, n, k) == ByteAt(segs, m, k)
  {
    if m < n {
      ByteAtStays(segs, m, n - 1, k);
    }
  }

  /** Towards the device: card bytes from `ep` on are the bytes of the blocks, in order. */
  lemma {:induction false} WritesFlat(p: Plan, n: nat, m: Spaces, a: nat)
    requires p.toDevice && p.advance && n <= |p.blocks|
    ensures CopyBlocks(p, n, m).host == m.host
    ensures CopyBlocks(p, n, m).card(a) ==
            if p.ep <= a < p.ep + Total(p.blocks, n) then m.host(ByteAt(p.blocks, n, a - p.ep)) else m.card(a)
  {
    if n > 0 {
      WritesFlat(p, n - 1, m, a);
    }
  }

  lemma {:induction false} ReadsKeepCard(p: Plan, n: nat, m: Spaces)
    requires !p.toDevice && n <= |p.blocks|
    ensures CopyBlocks(p, n, m).card == m.card
  {
    if n > 0 {
      ReadsKeepCard(p, n - 1, m);
    }
  }

  /** From the device: the bytes of the blocks are the card bytes from `ep` on, in order. */
  lemma {:induction false} ReadsFlat(p: Plan, n: nat, m: Spaces, k: nat)
    requires !p.toDevice && p.advance && n <= |p.blocks| && Injective(p.blocks)
    requires k < Total(p.blocks, n)
    ensures CopyBlocks(p, n, m).host(ByteAt(p.blocks, n, k)) == m.card(p.ep + k)
  {
    var b, before := p.blocks[n - 1], Total(p.blocks, n - 1);
    ReadsKeepCard(p, n - 1, m);
    if k < before {
      ReadsFlat(p, n - 1, m, k);
      var x := ByteAt(p.blocks, n - 1, k);
      if b.addr <= x < b.addr + b.len {
        var other := before + (x - b.addr);
        ByteAtStays(p.blocks, n, |p.blocks|, k);
        ByteAtStays(p.blocks, n, |p.blocks|, other);
        assert false;
      }
    }
  }

  /** An address within the last block is one of its bytes. */
  lemma LastBlockByte(segs: seq<Segment>, n: nat, a: nat)
    requires 0 < n <= |segs|
    ensures segs[n - 1].addr <= a < segs[n - 1].addr + segs[n - 1].len ==>
              exists k :: 0 <= k < Total(segs, n) && ByteAt(segs, n, k) == a
  {
    if segs[n - 1].addr <= a < segs[n - 1].addr + segs[n - 1].len {
      assert ByteAt(segs, n, Total(segs, n - 1) + (a - segs[n - 1].addr)) == a;
    }
  }

  /** From the device: host bytes that are in no block keep their value. */
  lemma {:induction false} ReadsOnlyBlocks(p: Plan, n: nat, m: Spaces, a: nat)
    requires !p.toDevice && n <= |p.blocks|
    requires forall k :: 0 <= k < Total(p.blocks, n) ==> ByteAt(p.blocks, n, k) != a
    ensures CopyBlocks(p, n, m).host(a) == m.host(a)
  {
    if n > 0 {
      var b, m1 := p.blocks[n - 1], n - 1;
      var before := Total(p.blocks, m1);
      forall k | 0 <= k < before
        ensures ByteAt(p.blocks, m1, k) != a
      {
        assert ByteAt(p.blocks, n, k) == ByteAt(p.blocks, m1, k);
      }
      ReadsOnlyBlocks(p, n - 1, m, a);
      LastBlockByte(p.blocks, n, a);
    }
  }

  // ---- a user's range -----------------------------------------------------------

  /** The caller's view of a transfer: a page table, a virtual buffer and a
      device address, which advances in incrementing mode. */
  datatype Request = Request(frameOf: nat -> Frame, buf: nat, pos: nat, toDevice: bool, advance: bool)

  /** Exactly the first n bytes of the request have been moved between the two memories. */
  ghost predicate Moved(r: Request, n: nat, was: Spaces, now: Spaces) {
    if r.toDevice then
      && now.host == was.host
      && forall a: nat :: now.card(a) ==
           if r.pos <= a < r.pos + n then was.host(Bus(r.frameOf, r.buf + (a - r.pos))) else was.card(a)
    else
      now.card == was.card && Filled(r, n, was, now) && OthersKept(r, n, was, now)
  }

  /** The first n bytes of the buffer are those of the card from the position on. */
  ghost predicate Filled(r: Request, n: nat, was: Spaces, now: Spaces) {
    forall v :: r.buf <= v < r.buf + n ==> now.host(Bus(r.frameOf, v)) == was.card(r.pos + (v - r.buf))
  }

  /** All other host bytes are what they were. */
  ghost predicate OthersKept(r: Request, n: nat, was: Spaces, now: Spaces) {
    forall a: nat :: Outside(r, n, a) ==> now.host(a) == was.host(a)
  }

  /** None of the first n bytes of the buffer is at this bus address. */
  ghost predicate Outside(r: Request, n: nat, a: nat) {
    forall v :: r.buf <= v < r.buf + n ==> Bus(r.frameOf, v) != a
  }

  /** For a read, the pages of the buffer must be in different frames. */
  ghost predicate DistinctFrames(r: Request, count: nat) {
    !r.toDevice ==>
      forall a, b :: Page(r.buf) <= a < b && PageStart(b) < r.buf + count ==> r.frameOf(a) != r.frameOf(b)
  }

  lemma BusInjective(r: Request, count: nat, v: nat, w: nat)
    requires !r.toDevice && DistinctFrames(r, count)
    requires r.buf <= v < w < r.buf + count
    ensures Bus(r.frameOf, v) != Bus(r.frameOf, w)
  {
    PageAndOffset(v);
    PageAndOffset(w);
    if Page(v) != Page(w) {
      assert r.frameOf(Page(v)) != r.frameOf(Page(w));
    }
  }

  /** The plan that transfer_create makes for a range. */
  function RangePlan(r: Request, count: nat): Plan
    requires count > 0
  {
    Plan(Chunk(r.frameOf, r.buf, count, false), r.pos, r.advance, r.toDevice)
  }

  /** The first n blocks of the plan hold bytes of the request, in order. */
  ghost predicate PlanOf(p: Plan, r: Request, n: nat)
    requires n <= |p.blocks|
  {
    && p.advance == r.advance && p.toDevice == r.toDevice && p.ep == r.pos
    && forall k :: 0 <= k < Total(p.blocks, n) ==> ByteAt(p.blocks, n, k) == Bus(r.frameOf, r.buf + k)
  }

  /** The plan fits its descriptors and its blocks hold the first `count` bytes of the request. */
  ghost predicate Covers(p: Plan, r: Request, count: nat) {
    Fits(p) && Total(p.blocks, |p.blocks|) == count && PlanOf(p, r, |p.blocks|)
  }

  lemma RangePlanCovers(r: Request, count: nat)
    requires count > 0 && r.pos + count <= TWO_TO_64
    ensures Covers(RangePlan(r, count), r, count)
  {
    var segs := RangeSegments(r.frameOf, r.buf, count);
    var p := RangePlan(r, count);
    SplitLength(r.buf, count);
    RangeSegmentsPageSized(r.frameOf, r.buf, count);
    BlockSizes(segs, false);
    CoalescingKeepsBytes(segs, false);
    RangeTotal(r.frameOf, r.buf, count, |segs|);
    forall k | 0 <= k < count
      ensures ByteAt(p.blocks, |p.blocks|, k) == Bus(r.frameOf, r.buf + k)
    {
      RangeByteAt(r.frameOf, r.buf, count, |segs|, k);
    }
    forall j | 0 <= j < |p.blocks|
      ensures p.blocks[j].addr < TWO_TO_64
    {
      BlockStart(p.blocks, j);
    }
  }

  /** A block of one byte or more starts with a byte of the whole. */
  lemma BlockStart(segs: seq<Segment>, j: nat)
    requires j < |segs| && segs[j].len > 0
    ensures Total(segs, j) < Total(segs, |segs|)
    ensures ByteAt(segs, |segs|, Total(segs, j)) == segs[j].addr
  {
    ByteAtStays(segs, j + 1, |segs|, Total(segs, j));
  }

  lemma WritesMoveBytes(r: Request, p: Plan, n: nat, m: Spaces)
    requires n <= |p.blocks| && PlanOf(p, r, n) && r.toDevice && r.advance
    ensures Moved(r, Total(p.blocks, n), m, CopyBlocks(p, n, m))
  {
    WritesFlat(p, n, m, 0);
    var now, total := CopyBlocks(p, n, m), Total(p.blocks, n);
    forall a: nat
      ensures now.card(a) ==
              if r.pos <= a < r.pos + total then m.host(Bus(r.frameOf, r.buf + (a - r.pos))) else m.card(a)
    {
      WritesFlat(p, n, m, a);
    }
  }

  lemma ReadsMoveBytes(r: Request, p: Plan, n: nat, m: Spaces)
    requires n <= |p.blocks| && PlanOf(p, r, n) && !r.toDevice && r.advance && Injective(p.blocks)
    ensures Moved(r, Total(p.blocks, n), m, CopyBlocks(p, n, m))
  {
    ReadsKeepCard(p, n, m);
    var now, total := CopyBlocks(p, n, m), Total(p.blocks, n);
    forall v | r.buf <= v < r.buf + total
      ensures now.host(Bus(r.frameOf, v)) == m.card(r.pos + (v - r.buf))
    {
      ReadsFlat(p, n, m, v - r.buf);
    }
    forall a: nat | Outside(r, total, a)
      ensures now.host(a) == m.host(a)
    {
      forall k | 0 <= k < total
        ensures ByteAt(p.blocks, n, k) != a
      {
        assert Bus(r.frameOf, r.buf + k) != a;
      }
      ReadsOnlyBlocks(p, n, m, a);
    }
  }

  lemma PlanOfPrefix(r: Request, p: Plan, n: nat)
    requires n <= |p.blocks| && PlanOf(p, r, |p.blocks|)
    ensures Total(p.blocks, n) <= Total(p.blocks, |p.blocks|)
    ensures PlanOf(p, r, n)
  {
    TotalMonotone(p.blocks, n, |p.blocks|);
    forall k | 0 <= k < Total(p.blocks, n)
      ensures ByteAt(p.blocks, n, k) == Bus(r.frameOf, r.buf + k)
    {
      ByteAtStays(p.blocks, n, |p.blocks|, k);
    }
  }

  lemma PlanIsInjective(r: Request, p: Plan, count: nat)
    requires Covers(p, r, count) && DistinctFrames(r, count) && !r.toDevice
    ensures Injective(p.blocks)
  {
    forall j, k | 0 <= j < k < count
      ensures ByteAt(p.blocks, |p.blocks|, j) != ByteAt(p.blocks, |p.blocks|, k)
    {
      PlanBytesDiffer(r, p, count, j, k);
    }
  }

  lemma PlanBytesDiffer(r: Request, p: Plan, count: nat, j: nat, k: nat)
    requires PlanOf(p, r, |p.blocks|) && Total(p.blocks, |p.blocks|) == count && j < k < count
    requires DistinctFrames(r, count) && !r.toDevice
    ensures ByteAt(p.blocks, |p.blocks|, j) != ByteAt(p.blocks, |p.blocks|, k)
  {
    assert ByteAt(p.blocks, |p.blocks|, j) == Bus(r.frameOf, r.buf + j);
    assert ByteAt(p.blocks, |p.blocks|, k) == Bus(r.frameOf, r.buf + k);
    BusInjective(r, count, r.buf + j, r.buf + k);
  }

  /** Copying the first n blocks of a plan moves exactly that many of the request's bytes. */
  lemma BlocksMoveBytes(r: Request, count: nat, p: Plan, n: nat, m: Spaces)
    requires Covers(p, r, count) && DistinctFrames(r, count) && n <= |p.blocks| && r.advance
    ensures Total(p.blocks, n) <= count
    ensures Moved(r, Total(p.blocks, n), m, CopyBlocks(p, n, m))
  {
    PlanOfPrefix(r, p, n);
    if r.toDevice {
      WritesMoveBytes(r, p, n, m);
    } else {
      PlanIsInjective(r, p, count);
      ReadsMoveBytes(r, p, n, m);
    }
  }

  /** The rest of a request after n bytes. */
  function After(r: Request, n: nat): Request {
    r.(buf := r.buf + n, pos := r.pos + n)
  }

  lemma RestKeepsDistinctFrames(r: Request, count: nat, n: nat, len: nat)
    requires DistinctFrames(r, count) && n + len <= count
    ensures DistinctFrames(After(r, n), len)
  {
  }

  lemma RestMoves(r: Request, count: nat, n: nat, len: nat, p: Plan, k: nat, m: Spaces)
    requires n + len <= count && DistinctFrames(r, count) && r.advance
    requires Covers(p, After(r, n), len) && k <= |p.blocks|
    ensures Total(p.blocks, k) <= len
    ensures Moved(After(r, n), Total(p.blocks, k), m, CopyBlocks(p, k, m))
  {
    RestKeepsDistinctFrames(r, count, n, len);
    BlocksMoveBytes(After(r, n), len, p, k, m);
  }

  lemma WritesCompose(r: Request, n: nat, k: nat, m0: Spaces, m1: Spaces, m2: Spaces)
    requires Moved(r, n, m0, m1) && Moved(After(r, n), k, m1, m2) && r.toDevice
    ensures Moved(r, n + k, m0, m2)
  {
  }

  /** A byte of the first part of the buffer is outside of the rest. */
  lemma FirstPartIsOutside(r: Request, count: nat, n: nat, k: nat, v: nat)
    requires !r.toDevice && DistinctFrames(r, count) && n + k <= count
    requires r.buf <= v < r.buf + n
    ensures Outside(After(r, n), k, Bus(r.frameOf, v))
  {
    forall w | r.buf + n <= w < r.buf + n + k
      ensures Bus(r.frameOf, w) != Bus(r.frameOf, v)
    {
      BusInjective(r, count, v, w);
    }
  }

  lemma OutsideParts(r: Request, n: nat, k: nat, a: nat)
    requires Outside(r, n + k, a)
    ensures Outside(r, n, a) && Outside(After(r, n), k, a)
  {
  }

  lemma ReadByte(r: Request, count: nat, n: nat, k: nat, m0: Spaces, m1: Spaces, m2: Spaces, v: nat)
    requires Moved(r, n, m0, m1) && Moved(After(r, n), k, m1, m2) && !r.toDevice
    requires DistinctFrames(r, count) && n + k <= count && r.buf <= v < r.buf + n + k
    ensures m2.host(Bus(r.frameOf, v)) == m0.card(r.pos + (v - r.buf))
  {
    if v < r.buf + n {
      FirstPartIsOutside(r, count, n, k, v);
    } else {
      assert m2.host(Bus(r.frameOf, v)) == m1.card(r.pos + n + (v - (r.buf + n)));
    }
  }

  lemma KeptByte(r: Request, n: nat, k: nat, m0: Spaces, m1: Spaces, m2: Spaces, a: nat)
    requires Moved(r, n, m0, m1) && Moved(After(r, n), k, m1, m2) && !r.toDevice
    requires Outside(r, n + k, a)
    ensures m2.host(a) == m0.host(a)
  {
    OutsideParts(r, n, k, a);
  }

  lemma FilledTwice(r: Request, count: nat, n: nat, k: nat, m0: Spaces, m1: Spaces, m2: Spaces)
    requires Moved(r, n, m0, m1) && Moved(After(r, n), k, m1, m2) && !r.toDevice
    requires DistinctFrames(r, count) && n + k <= count
    ensures Filled(r, n + k, m0, m2)
  {
    forall v | r.buf <= v < r.buf + n + k
      ensures m2.host(Bus(r.frameOf, v)) == m0.card(r.pos + (v - r.buf))
    {
      ReadByte(r, count, n, k, m0, m1, m2, v);
    }
  }

  lemma KeptTwice(r: Request, n: nat, k: nat, m0: Spaces, m1: Spaces, m2: Spaces)
    requires Moved(r, n, m0, m1) && Moved(After(r, n), k, m1, m2) && !r.toDevice
    ensures OthersKept(r, n + k, m0, m2)
  {
    forall a: nat | Outside(r, n + k, a)
      ensures m2.host(a) == m0.host(a)
    {
      KeptByte(r, n, k, m0, m1, m2, a);
    }
  }

  lemma ReadsCompose(r: Request, count: nat, n: nat, k: nat, m0: Spaces, m1: Spaces, m2: Spaces)
    requires Moved(r, n, m0, m1) && Moved(After(r, n), k, m1, m2) && !r.toDevice
    requires DistinctFrames(r, count) && n + k <= count
    ensures Moved(r, n + k, m0, m2)
  {
    FilledTwice(r, count, n, k, m0, m1, m2);
    KeptTwice(r, n, k, m0, m1, m2);
  }

  /** Moving n bytes and then the next k bytes moves n + k bytes. */
  lemma MovesCompose(r: Request, count: nat, n: nat, k: nat, m0: Spaces, m1: Spaces, m2: Spaces)
    requires Moved(r, n, m0, m1) && Moved(After(r, n), k, m1, m2)
    requires DistinctFrames(r, count) && n + k <= count
    ensures Moved(r, n + k, m0, m2)
  {
    if r.toDevice {
      WritesCompose(r, n, k, m0, m1, m2);
    } else {
      ReadsCompose(r, count, n, k, m0, m1, m2);
    }
  }

  // ---- either mode ----------------------------------------------------------------

  /** Nothing has changed but the memory that the request is to fill. */
  ghost predicate Confined(r: Request, count: nat, was: Spaces, now: Spaces) {
    if r.toDevice then
      && now.host == was.host
      && forall a: nat :: !(r.pos <= a < r.pos + count) ==> now.card(a) == was.card(a)
    else
      now.card == was.card && OthersKept(r, count, was, now)
  }

  lemma {:induction false} WritesConfined(p: Plan, n: nat, m: Spaces, a: nat)
    requires p.toDevice && n <= |p.blocks| && !(p.ep <= a < p.ep + Total(p.blocks, n))
    ensures CopyBlocks(p, n, m).host == m.host && CopyBlocks(p, n, m).card(a) == m.card(a)
  {
    if n > 0 {
      WritesConfined(p, n - 1, m, a);
    }
  }

  lemma BlocksConfined(r: Request, count: nat, n: nat, len: nat, p: Plan, k: nat, m: Spaces)
    requires n + len <= count && Covers(p, After(r, n), len) && k <= |p.blocks|
    ensures Confined(r, count, m, CopyBlocks(p, k, m))
  {
    var now := CopyBlocks(p, k, m);
    TotalMonotone(p.blocks, k, |p.blocks|);
    if r.toDevice {
      WritesConfined(p, k, m, p.ep + len);
      forall a: nat | !(r.pos <= a < r.pos + count)
        ensures now.card(a) == m.card(a)
      {
        WritesConfined(p, k, m, a);
      }
    } else {
      ReadsKeepCard(p, k, m);
      forall a: nat | Outside(r, count, a)
        ensures now.host(a) == m.host(a)
      {
        KeptOutside(r, count, n, len, p, k, m, a);
      }
    }
  }

  lemma KeptOutside(r: Request, count: nat, n: nat, len: nat, p: Plan, k: nat, m: Spaces, a: nat)
    requires n + len <= count && Covers(p, After(r, n), len) && k <= |p.blocks|
    requires !r.toDevice && Outside(r, count, a)
    ensures CopyBlocks(p, k, m).host(a) == m.host(a)
  {
    PlanOfPrefix(After(r, n), p, k);
    forall i | 0 <= i < Total(p.blocks, k)
      ensures ByteAt(p.blocks, k, i) != a
    {
      assert Bus(r.frameOf, r.buf + n + i) != a;
    }
    ReadsOnlyBlocks(p, k, m, a);
  }

  lemma ConfinedTwice(r: Request, count: nat, m0: Spaces, m1: Spaces, m2: Spaces)
    requires Confined(r, count, m0, m1) && Confined(r, count, m1, m2)
    ensures Confined(r, count, m0, m2)
  {
  }

  /** What is promised of the memories after n of count bytes: that exactly
      these have been moved, in incrementing mode; that nothing else has
      changed, in the other. */
  ghost predicate Carried(r: Request, count: nat, n: nat, was: Spaces, now: Spaces) {
    if r.advance then Moved(r, n, was, now) else Confined(r, count, was, now)
  }

  /** Copying the first k blocks of the part after n bytes carries their bytes, too. */
  lemma CarriesOn(r: Request, count: nat, n: nat, len: nat, p: Plan, k: nat, m0: Spaces, m1: Spaces)
    requires n + len <= count && DistinctFrames(r, count)
    requires Covers(p, After(r, n), len) && k <= |p.blocks|
    requires Carried(r, count, n, m0, m1)
    ensures Total(p.blocks, k) <= len
    ensures Carried(r, count, n + Total(p.blocks, k), m0, CopyBlocks(p, k, m1))
  {
    if r.advance {
      RestMoves(r, count, n, len, p, k, m1);
      MovesCompose(r, count, n, Total(p.blocks, k), m0, m1, CopyBlocks(p, k, m1));
    } else {
      TotalMonotone(p.blocks, k, |p.blocks|);
      BlocksConfined(r, count, n, len, p, k, m1);
      ConfinedTwice(r, count, m0, m1, CopyBlocks(p, k, m1));
    }
  }
}
