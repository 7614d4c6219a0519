/**
 How transfer_build groups the mapped page entries of a transfer into blocks,
 one descriptor each, stated apart from its loop.
 */
module Coalescing {
  import opened Words
  import opened ScatterGather

  const DESC_MAX_BYTES: nat := 0x3_ffff

  /** Bytes at consecutive bus addresses: a mapped page entry or a block. */
  datatype Segment = Segment(addr: nat, len: nat)

  /** The number of bytes in the first n segments. */
  function Total(segs: seq<Segment>, n: nat): nat
    requires n <= |segs|
  {
    if n == 0 then 0 else Total(segs, n - 1) + segs[n - 1].len
  }

  /** The address of byte k of the first n segments laid end to end. */
  function ByteAt(segs: seq<Segment>, n: nat, k: nat): nat
    requires n <= |segs| && k < Total(segs, n)
  {
    var before := Total(segs, n - 1);
    if k < before then ByteAt(segs, n - 1, k) else segs[n - 1].addr + (k - before)
  }

  predicate Agree(a: seq<Segment>, b: seq<Segment>, n: nat) {
    n <= |a| && n <= |b| && forall k :: 0 <= k < n ==> a[k] == b[k]
  }

  lemma {:induction false} AgreeTotal(a: seq<Segment>, b: seq<Segment>, n: nat)
    requires Agree(a, b, n)
    ensures Total(a, n) == Total(b, n)
  {
    if n != 0 {
      AgreeTotal(a, b, n - 1);
    }
  }

  lemma {:induction false} AgreeByteAt(a: seq<Segment>, b: seq<Segment>, n: nat, k: nat)
    requires Agree(a, b, n) && k < Total(a, n) == Total(b, n)
    ensures ByteAt(a, n, k) == ByteAt(b, n, k)
  {
    AgreeTotal(a, b, n - 1);
    if k < Total(a, n - 1) {
      AgreeByteAt(a, b, n - 1, k);
    }
  }

  /** Entries of 1 to PAGE_SIZE bytes: one page each, not merged. */
  predicate PageSized(segs: seq<Segment>) {
    forall i :: 0 <= i < |segs| ==> 1 <= segs[i].len <= PAGE_SIZE
  }

  predicate Contiguous(a: Segment, b: Segment) {
    b.addr == a.addr + a.len
  }

  /** Must a block that holds `blockLen` bytes and ends with entry a be closed before entry b? */
  predicate Breaks(a: Segment, b: Segment, blockLen: nat, force: bool) {
    !Contiguous(a, b) || blockLen > DESC_MAX_BYTES - PAGE_SIZE || force
  }

  /** The blocks closed so far and the open one. */
  datatype Groups = Groups(closed: seq<Segment>, open: Segment)

  /** The first n entries in blocks: the open one takes in an entry until it must be closed. */
  function Group(segs: seq<Segment>, n: nat, force: bool): (g: Groups)
    requires 1 <= n <= |segs|
    ensures |g.closed| < n
  {
    if n == 1 then Groups([], segs[0])
    else
      var g := Group(segs, n - 1, force);
      if Breaks(segs[n - 2], segs[n - 1], g.open.len, force)
      then Groups(g.closed + [g.open], segs[n - 1])
      else Groups(g.closed, Segment(g.open.addr, g.open.len + segs[n - 1].len))
  }

  function Blocks(segs: seq<Segment>, force: bool): (bs: seq<Segment>)
    requires segs != []
    ensures 1 <= |bs| <= |segs|
  {
    var g := Group(segs, |segs|, force);
    g.closed + [g.open]
  }

  // ---- what coalescing keeps ----------------------------------------------

  /** The open block ends where the last entry ends. */
  lemma {:induction false} OpenBlockEnds(segs: seq<Segment>, n: nat, force: bool)
    requires 1 <= n <= |segs|
    ensures var open := Group(segs, n, force).open;
            open.addr + open.len == segs[n - 1].addr + segs[n - 1].len
  {
    if n > 1 {
      OpenBlockEnds(segs, n - 1, force);
    }
  }

  lemma {:induction false} GroupTotal(segs: seq<Segment>, n: nat, force: bool)
    requires 1 <= n <= |segs|
    ensures var g := Group(segs, n, force);
            Total(g.closed, |g.closed|) + g.open.len == Total(segs, n)
  {
    if n > 1 {
      GroupTotal(segs, n - 1, force);
      var g := Group(segs, n - 1, force);
      AgreeTotal(g.closed + [g.open], g.closed, |g.closed|);
    }
  }

  /** Byte k of the groups: in a closed block, or in the open one. */
  function GroupByteAt(g: Groups, k: nat): nat
    requires k < Total(g.closed, |g.closed|) + g.open.len
  {
    var before := Total(g.closed, |g.closed|);
    if k < before then ByteAt(g.closed, |g.closed|, k) else g.open.addr + (k - before)
  }

  lemma ClosingKeepsBytes(g: Groups, next: Segment, k: nat)
    requires k < Total(g.closed, |g.closed|) + g.open.len
    ensures Total(g.closed + [g.open], |g.closed| + 1) == Total(g.closed, |g.closed|) + g.open.len
    ensures GroupByteAt(Groups(g.closed + [g.open], next), k) == GroupByteAt(g, k)
  {
    var more := g.closed + [g.open];
    AgreeTotal(more, g.closed, |g.closed|);
    if k < Total(g.closed, |g.closed|) {
      AgreeByteAt(more, g.closed, |g.closed|, k);
    }
  }

  lemma {:induction false} GroupKeepsBytes(segs: seq<Segment>, n: nat, force: bool, k: nat)
    requires 1 <= n <= |segs| && k < Total(segs, n)
    ensures var g := Group(segs, n, force);
            && Total(g.closed, |g.closed|) + g.open.len == Total(segs, n)
            && GroupByteAt(g, k) == ByteAt(segs, n, k)
  {
    GroupTotal(segs, n, force);
    if n > 1 {
      GroupTotal(segs, n - 1, force);
      OpenBlockEnds(segs, n - 1, force);
      var g := Group(segs, n - 1, force);
      if k < Total(segs, n - 1) {
        GroupKeepsBytes(segs, n - 1, force, k);
        if Breaks(segs[n - 2], segs[n - 1], g.open.len, force) {
          ClosingKeepsBytes(g, segs[n - 1], k);
        }
      }
    }
  }

  /** The blocks have the same bytes as the entries, in the same order. */
  lemma CoalescingKeepsBytes(segs: seq<Segment>, force: bool)
    requires segs != []
    ensures var bs := Blocks(segs, force);
            && Total(bs, |bs|) == Total(segs, |segs|)
            && forall k :: 0 <= k < Total(segs, |segs|) ==> ByteAt(bs, |bs|, k) == ByteAt(segs, |segs|, k)
  {
    var bs := Blocks(segs, force);
    var g := Group(segs, |segs|, force);
    GroupTotal(segs, |segs|, force);
    AgreeTotal(bs, g.closed, |g.closed|);
    forall k | 0 <= k < Total(segs, |segs|)
      ensures ByteAt(bs, |bs|, k) == ByteAt(segs, |segs|, k)
    {
      GroupKeepsBytes(segs, |segs|, force, k);
      ClosingKeepsBytes(g, Segment(0, 0), k);
    }
  }

  /** XDMA_DESC_MAX_BYTES is 2^18 - 1. */
  predicate SizeFits(s: Segment) {
    1 <= s.len <= 0x3_ffff
  }

  lemma {:induction false} GroupSizes(segs: seq<Segment>, n: nat, force: bool)
    requires 1 <= n <= |segs| && PageSized(segs)
    ensures var g := Group(segs, n, force);
            SizeFits(g.open) && forall j :: 0 <= j < |g.closed| ==> SizeFits(g.closed[j])
  {
    if n > 1 {
      GroupSizes(segs, n - 1, force);
    }
  }

  lemma BlockSizes(segs: seq<Segment>, force: bool)
    requires segs != [] && PageSized(segs)
    ensures forall j :: 0 <= j < |Blocks(segs, force)| ==> SizeFits(Blocks(segs, force)[j])
  {
    GroupSizes(segs, |segs|, force);
  }

  /** A closed block stays as it is. */
  lemma {:induction false} ClosedStays(segs: seq<Segment>, n: nat, m: nat, force: bool)
    requires 1 <= n <= m <= |segs|
    ensures Agree(Group(segs, n, force).closed, Group(segs, m, force).closed, |Group(segs, n, force).closed|)
  {
    if n < m {
      ClosedStays(segs, n, m - 1, force);
    }
  }

  /** Forced blocks are the entries themselves. */
  lemma {:induction false} ForcedGroup(segs: seq<Segment>, n: nat)
    requires 1 <= n <= |segs|
    ensures Group(segs, n, true) == Groups(segs[..n - 1], segs[n - 1])
  {
    if n > 1 {
      ForcedGroup(segs, n - 1);
    }
  }

  lemma ForcedBlocks(segs: seq<Segment>)
    requires segs != []
    ensures Blocks(segs, true) == segs
  {
    ForcedGroup(segs, |segs|);
  }

  /** Coalescing is greedy: a block is closed only where it has to be, before a
      gap or when one more page could exceed the bound. */
  predicate HasToClose(a: Segment, b: Segment) {
    !Contiguous(a, b) || a.len >= 258048
  }

  lemma {:induction false} GroupIsMaximal(segs: seq<Segment>, n: nat)
    requires 1 <= n <= |segs|
    ensures var g := Group(segs, n, false);
            && (g.closed != [] ==> HasToClose(g.closed[|g.closed| - 1], Segment(g.open.addr, 0)))
            && forall j :: 0 < j < |g.closed| ==> HasToClose(g.closed[j - 1], g.closed[j])
  {
    if n > 1 {
      GroupIsMaximal(segs, n - 1);
      OpenBlockEnds(segs, n - 1, false);
    }
  }

  lemma BlocksAreMaximal(segs: seq<Segment>, j: nat)
    requires segs != [] && 0 < j < |Blocks(segs, false)|
    ensures HasToClose(Blocks(segs, false)[j - 1], Blocks(segs, false)[j])
  {
    GroupIsMaximal(segs, |segs|);
  }

  /** The number of places where an entry does not continue the one before. */
  function Gaps(segs: seq<Segment>, n: nat): nat
    requires n <= |segs|
  {
    if n <= 1 then 0 else Gaps(segs, n - 1) + if Contiguous(segs[n - 2], segs[n - 1]) then 0 else 1
  }

  /** Each block beyond the first is paid for by a gap or by a full block of
      at least 258048 bytes, the bound less one page. */
  lemma {:induction false} BlocksArePaidFor(segs: seq<Segment>, n: nat)
    requires 1 <= n <= |segs|
    ensures var g := Group(segs, n, false);
            (|g.closed| - Gaps(segs, n)) * 258048 + g.open.len <= Total(segs, n)
  {
    if n > 1 {
      BlocksArePaidFor(segs, n - 1);
    }
  }

  lemma DescriptorCountBound(segs: seq<Segment>)
    requires segs != [] && PageSized(segs)
    ensures |Blocks(segs, false)| <= |segs|
    ensures |Blocks(segs, false)| <= 1 + Gaps(segs, |segs|) + Total(segs, |segs|) / 258048
  {
    BlocksArePaidFor(segs, |segs|);
  }

  // ---- the entries of a virtual range -------------------------------------

  /** The bus address of a virtual byte, for a page table. */
  function Bus(frameOf: nat -> Frame, v: nat): (b: nat)
    ensures b < TWO_TO_64 - 1
  {
    PageStart(frameOf(Page(v))) + Offset(v)
  }

  /** pci_map_sg with one mapping entry per scatter entry. */
  function MapSg(entries: seq<Entry>): seq<Segment> {
    seq(|entries|, i requires 0 <= i < |entries| =>
      Segment(PageStart(entries[i].frame) + entries[i].offset, entries[i].length))
  }

  /** The mapped entry of one piece. */
  function PieceSegment(frameOf: nat -> Frame, p: Piece): Segment {
    Segment(PageStart(frameOf(p.page)) + p.offset, p.length)
  }

  /** The mapped entries of a range whose pages the page table places. */
  function RangeSegments(frameOf: nat -> Frame, start: nat, count: nat): (segs: seq<Segment>)
    ensures |segs| == |Split(start, count)|
  {
    var pieces := Split(start, count);
    seq(|pieces|, i requires 0 <= i < |pieces| => PieceSegment(frameOf, pieces[i]))
  }

  lemma RangeSegmentsPageSized(frameOf: nat -> Frame, start: nat, count: nat)
    requires count > 0
    ensures PageSized(RangeSegments(frameOf, start, count))
  {
    forall i | 0 <= i < |Split(start, count)|
      ensures 1 <= RangeSegments(frameOf, start, count)[i].len <= PAGE_SIZE
    {
      SplitAt(start, count, i);
    }
  }

  /** The first n entries of a range end at a page boundary or at its end. */
  lemma {:induction false} RangeTotal(frameOf: nat -> Frame, start: nat, count: nat, n: nat)
    requires count > 0 && n <= |Split(start, count)|
    ensures Total(RangeSegments(frameOf, start, count), n) ==
            if n == |Split(start, count)| then count
            else if n == 0 then 0 else PageStart(Page(start) + n) - start
  {
    if n != 0 {
      RangeTotal(frameOf, start, count, n - 1);
      SplitAt(start, count, n - 1);
      PieceLength(start, count, n - 1);
    }
  }

  /** Byte k of the mapped entries is byte k of the range. */
  lemma {:induction false} RangeByteAt(frameOf: nat -> Frame, start: nat, count: nat, n: nat, k: nat)
    requires count > 0 && n <= |Split(start, count)| && k < Total(RangeSegments(frameOf, start, count), n)
    ensures ByteAt(RangeSegments(frameOf, start, count), n, k) == Bus(frameOf, start + k)
  {
    var segs := RangeSegments(frameOf, start, count);
    var before := Total(segs, n - 1);
    if k < before {
      RangeByteAt(frameOf, start, count, n - 1, k);
    } else {
      EntryStart(frameOf, start, count, n, before);
      BusWithinPage(frameOf, start + before, k - before);
    }
  }

  /** Entry n - 1 begins at the byte of the range that the entries before it end at, and stays in its page. */
  lemma EntryStart(frameOf: nat -> Frame, start: nat, count: nat, n: nat, before: nat)
    requires count > 0 && 0 < n <= |Split(start, count)|
    requires before == Total(RangeSegments(frameOf, start, count), n - 1)
    ensures RangeSegments(frameOf, start, count)[n - 1].addr == Bus(frameOf, start + before)
    ensures Offset(start + before) + RangeSegments(frameOf, start, count)[n - 1].len <= PAGE_SIZE
  {
    RangeTotal(frameOf, start, count, n - 1);
    SplitAt(start, count, n - 1);
  }

  lemma BusWithinPage(frameOf: nat -> Frame, v: nat, k: nat)
    requires Offset(v) + k < PAGE_SIZE
    ensures Bus(frameOf, v) + k == Bus(frameOf, v + k)
  {
  }

  /** A chunk of at most XDMA_TRANSFER_MAX_BYTES never outgrows 2049
      descriptors, far below the 24 bits of a writeback count. */
  lemma ChunkFitsWritebackCount(frameOf: nat -> Frame, start: nat, count: nat)
    requires 0 < count <= 2048 * 4096
    ensures |Blocks(RangeSegments(frameOf, start, count), false)| <= 2049
  {
    SplitLength(start, count);
  }
}
