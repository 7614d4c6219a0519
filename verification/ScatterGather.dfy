/**
 The scatter-gather mapper (xdma-sgm.c): it cuts a range of virtual bytes into
 page entries, in arrays whose size was fixed when the mapper was made.
 */
module ScatterGather {
  import opened Words

  /** A page frame number, as DMA addresses it: the byte after a page has an
      address below 2^64 too. */
  type Frame = x: int | 0 <= x < 0xf_ffff_ffff_ffff

  // ---- the partition, independent of the mapper's loops ------------------

  /** A part of one virtual page. */
  datatype Piece = Piece(page: nat, offset: nat, length: nat)

  function Split(start: nat, count: nat): seq<Piece>
    decreases count
  {
    if count == 0 then []
    else
      var room := PAGE_SIZE - Offset(start);
      var n := if room < count then room else count;
      [Piece(Page(start), Offset(start), n)] + Split(start + n, count - n)
  }

  /** The virtual bytes that pieces stand for, in order. */
  function VirtualBytes(pieces: seq<Piece>): seq<nat> {
    if pieces == [] then []
    else
      var p := pieces[0];
      Span(PageStart(p.page) + p.offset, p.length) + VirtualBytes(pieces[1..])
  }

  /** The number of pages that hold a byte of the range. */
  function PageCount(start: nat, count: nat): nat
    requires count > 0
  {
    Page(start + count - 1) - Page(start) + 1
  }

  /** The pieces are an exact partition of the range, in order. */
  lemma {:induction false} SplitIsPartition(start: nat, count: nat)
    ensures VirtualBytes(Split(start, count)) == Span(start, count)
    decreases count
  {
    if count != 0 {
      var room := PAGE_SIZE - Offset(start);
      var n := if room < count then room else count;
      SplitIsPartition(start + n, count - n);
      var p := Split(start, count)[0];
      assert Split(start, count)[1..] == Split(start + n, count - n);
      assert PageStart(p.page) + p.offset == start;
      SpanConcat(start, n, count - n);
    }
  }

  /** The page a piece is in, where it starts and how long it is. */
  lemma {:induction false} SplitAt(start: nat, count: nat, i: nat)
    requires count > 0 && i < |Split(start, count)|
    ensures Split(start, count)[i].page == Page(start) + i
    ensures Split(start, count)[i].offset == if i == 0 then Offset(start) else 0
    ensures 1 <= Split(start, count)[i].length <= PAGE_SIZE - Split(start, count)[i].offset
    decreases count
  {
    var room := PAGE_SIZE - Offset(start);
    var n := if room < count then room else count;
    if i > 0 {
      assert Split(start, count)[i] == Split(start + n, count - n)[i - 1];
      SplitAt(start + n, count - n, i - 1);
    }
  }

  lemma {:induction false} SplitLength(start: nat, count: nat)
    requires count > 0
    ensures |Split(start, count)| == PageCount(start, count)
    decreases count
  {
    var room := PAGE_SIZE - Offset(start);
    if room < count {
      SplitLength(start + room, count - room);
      assert Page(start + room) == Page(start) + 1;
    }
  }

  /** A mapper made for `count` bytes is large enough wherever they start. */
  lemma CapacitySuffices(start: nat, count: nat)
    requires count > 0
    ensures |Split(start, count)| <= Page(count) + 2
  {
    SplitLength(start, count);
  }

  // ---- the C page count ---------------------------------------------------

  /** nr_pages: computed at 64 bits, then kept in an int. */
  function NrPages(start: U64, count: U64): int {
    var last := Page((start + count - 1) % 0x1_0000_0000_0000_0000);
    ToInt32((last - Page(start) + 1) % 0x1_0000_0000_0000_0000)
  }

  /** The int is the page count exactly when the page count fits it. */
  lemma NrPagesIsPageCount(start: U64, count: U64)
    requires count > 0 && start + count < TWO_TO_64
    ensures NrPages(start, count) == PageCount(start, count) <==> PageCount(start, count) < 0x8000_0000
  {
    assert (start + count - 1) % 0x1_0000_0000_0000_0000 == start + count - 1;
    var n := PageCount(start, count);
    assert n % 0x1_0000_0000_0000_0000 == n;
  }

  /** No bytes count as no page, or as one if they start within a page. */
  lemma NrPagesOfNothing(start: U64)
    ensures NrPages(start, 0) == if start % 4096 == 0 then 0 else 1
  {
    if start == 0 {
      assert NrPages(0, 0) == 0;
    } else {
      assert (start - 1) % 0x1_0000_0000_0000_0000 == start - 1;
      var n := Page(start - 1) - Page(start) + 1;
      assert n % 0x1_0000_0000_0000_0000 == n;
    }
  }

  /** A range of 2^44 bytes is taken for an empty one. */
  lemma NrPagesTruncates()
    ensures PageCount(0, 0x1000_0000_0000) == 0x1_0000_0000
    ensures NrPages(0, 0x1000_0000_0000) == 0
  {
  }

  /** The mapping functions refuse the range, count its pages right or take it
      for one page. Their BUG_ONs demand it: see TruncatedCountFires. */
  predicate CountIsUsable(start: U64, count: U64, maxPages: int) {
    0 < count < TWO_TO_64 - start ==>
      NrPages(start, count) == PageCount(start, count) || NrPages(start, count) > maxPages || NrPages(start, count) == 1
  }

  /** A page count that is truncated, but not to one page, leaves more than a
      page for the last entry. */
  lemma TruncatedCountFires(start: U64, count: U64)
    requires 0 < count < TWO_TO_64 - start && NrPages(start, count) != PageCount(start, count)
    requires NrPages(start, count) > 1
    ensures start + count - PageStart(Page(start) + NrPages(start, count) - 1) > PAGE_SIZE
  {
    NrPagesIsPageCount(start, count);
    var n := PageCount(start, count);
    assert n % 0x1_0000_0000_0000_0000 == n;
    assert (start + count - 1) % 0x1_0000_0000_0000_0000 == start + count - 1;
    assert NrPages(start, count) == ToInt32(n) < n;
    PageAndOffset(start + count - 1);
  }

  // ---- the mapper ---------------------------------------------------------

  /** struct scatterlist */
  datatype Entry = Entry(frame: Frame, offset: nat, length: nat)

  /** The scatter list of a range whose pages sit in the given frames. */
  function Entries(frames: seq<Frame>, start: nat, count: nat): seq<Entry>
    requires |frames| == |Split(start, count)|
  {
    var pieces := Split(start, count);
    seq(|pieces|, i requires 0 <= i < |pieces| => Entry(frames[i], pieces[i].offset, pieces[i].length))
  }

  /** What the mapping functions make of a range that they count n pages for:
      one page gets what an unsigned int holds of the count. */
  function Mapped(frames: seq<Frame>, start: nat, count: nat, n: int): seq<Entry>
    requires |frames| == n && (n == |Split(start, count)| || n == 1)
  {
    if n == |Split(start, count)| then Entries(frames, start, count)
    else [Entry(frames[0], Offset(start), count % 0x1_0000_0000)]
  }

  /** A range of many pages that is taken for one page is not mapped: its one
      entry does not hold its bytes. */
  lemma TruncatedToOne(start: U64, count: U64, frame: Frame)
    requires 0 < count < TWO_TO_64 - start && NrPages(start, count) == 1 != PageCount(start, count)
    ensures |Split(start, count)| != 1
    ensures var e := Mapped([frame], start, count, 1)[0];
            && e.frame == frame && PageStart(Page(start)) + e.offset == start
            && e.length == count % 0x1_0000_0000 && e.length < count
  {
    SplitLength(start, count);
    NrPagesIsPageCount(start, count);
    assert count >= 0x1_0000_0000;
  }

  /** There is such a range. */
  lemma TakenForOnePage()
    ensures PageCount(0, 0x1000_0000_1000) == 0x1_0000_0001
    ensures NrPages(0, 0x1000_0000_1000) == 1
  {
  }

  /** What get_user_pages_fast answers: the number of pages it pinned and the
      frames of those, or a negative error. */
  datatype Pin = Pin(rc: int, frames: seq<Frame>) {
    predicate Valid(wanted: int) {
      rc <= wanted && |frames| == if rc > 0 then rc else 0
    }
  }

  /** vmalloc_to_page for the i-th page of a range; None is its null result. */
  function FrameAt(lookup: nat -> Option<Frame>, start: nat, i: nat): Option<Frame> {
    lookup(Page(start) + i)
  }

  class Mapper {
    const maxPages: int
    var mappedPages: int
    const pages: array<Frame>
    const sgl: array<Entry>

    ghost predicate Valid()
      reads this
    {
      0 <= maxPages && pages.Length == maxPages && sgl.Length == maxPages
    }

    constructor (maxPages: nat)
      ensures Valid() && fresh(pages) && fresh(sgl)
      ensures mappedPages == 0 && this.maxPages == maxPages
    {
      this.maxPages := maxPages;
      mappedPages := 0;
      pages := new Frame[maxPages];
      sgl := new Entry[maxPages];
    }

    /** The loop that both mapping functions end with. Its two count BUG_ONs
        are assertions here. */
    method Populate(start: U64, size: U64, nrPages: int)
      requires Valid()
      requires size > 0 && 1 <= nrPages <= maxPages && (nrPages == |Split(start, size)| || nrPages == 1)
      modifies sgl
      ensures sgl[..nrPages] == Mapped(pages[..nrPages], start, size, nrPages)
    {
      SplitLength(start, size);
      var count := size;
      sgl[0] := Entry(pages[0], Offset(start), 0);
      if nrPages > 1 {
        sgl[0] := sgl[0].(length := PAGE_SIZE - sgl[0].offset);
        count := count - sgl[0].length;
        var i := 1;
        while i < nrPages - 1
          invariant 1 <= i <= nrPages - 1
          invariant count == start + size - PageStart(Page(start) + i)
          invariant forall k :: 0 <= k < i ==>
                      sgl[k] == Entry(pages[k], if k == 0 then Offset(start) else 0,
                                      if k == 0 then PAGE_SIZE - Offset(start) else PAGE_SIZE)
        {
          assert count >= PAGE_SIZE;
          sgl[i] := Entry(pages[i], 0, PAGE_SIZE);
          count := count - PAGE_SIZE;
          i := i + 1;
        }
        assert count <= PAGE_SIZE;
        sgl[i] := Entry(pages[i], 0, count);
      } else {
        sgl[0] := sgl[0].(length := count % 0x1_0000_0000);
      }
      if nrPages == |Split(start, size)| {
        forall k | 0 <= k < nrPages
          ensures sgl[k] == Entries(pages[..nrPages], start, size)[k]
        {
          SplitAt(start, size, k);
          PieceLength(start, size, k);
        }
      }
    }

    /** What both mapping functions begin with. */
    method CountPages(start: U64, count: U64) returns (refused: bool, nrPages: int)
      requires Valid() && CountIsUsable(start, count, maxPages)
      ensures refused == (start + count >= TWO_TO_64 || NrPages(start, count) > maxPages)
      ensures nrPages == NrPages(start, count)
      ensures !refused && count > 0 ==>
                1 <= nrPages <= maxPages && (nrPages == |Split(start, count)| || nrPages == 1)
    {
      nrPages := NrPages(start, count);
      refused := (start + count) % 0x1_0000_0000_0000_0000 < start || nrPages > maxPages;
      if count > 0 {
        SplitLength(start, count);
      }
    }

    /** sgm_get_user_pages. `released` are the pages given back on failure. */
    method GetUserPages(start: U64, count: U64, pin: Pin) returns (rc: int, released: seq<Frame>)
      requires Valid() && mappedPages == 0 && CountIsUsable(start, count, maxPages)
      requires 0 < count < TWO_TO_64 - start && NrPages(start, count) <= maxPages ==> pin.Valid(NrPages(start, count))
      modifies this, pages, sgl
      ensures Valid() && mappedPages == if rc > 0 then rc else 0
      ensures released ==
              if 0 < count < TWO_TO_64 - start && pin.rc < NrPages(start, count) <= maxPages then pin.frames else []
      ensures rc == if start + count >= TWO_TO_64 then -EINVAL
                    else if NrPages(start, count) > maxPages then -EINVAL
                    else if count == 0 then 0
                    else if pin.rc < NrPages(start, count) then -ENOMEM
                    else NrPages(start, count)
      ensures rc > 0 ==>
                && pages[..rc] == pin.frames && (rc == |Split(start, count)| || rc == 1)
                && sgl[..rc] == Mapped(pin.frames, start, count, rc)
    {
      released := [];
      var refused, nrPages := CountPages(start, count);
      if refused {
        return -EINVAL, released;
      }
      if count == 0 {
        return 0, released;
      }
      forall i | 0 <= i < |pin.frames| {
        pages[i] := pin.frames[i];
      }
      rc := pin.rc;
      if rc < nrPages {
        if rc > 0 {
          mappedPages := rc;
        }
        released := pages[..mappedPages];
        rc := -ENOMEM;
        mappedPages := 0;
        return;
      }
      mappedPages := rc;
      assert pages[..rc] == pin.frames;
      Populate(start, count, nrPages);
      rc := nrPages;
    }

    /** sgm_kernel_pages */
    method KernelPages(start: U64, count: U64, lookup: nat -> Option<Frame>) returns (rc: int)
      requires Valid() && mappedPages == 0 && CountIsUsable(start, count, maxPages)
      modifies this, pages, sgl
      ensures Valid() && mappedPages == if rc > 0 then rc else 0
      ensures rc == if start + count >= TWO_TO_64 then -EINVAL
                    else if NrPages(start, count) > maxPages then -EINVAL
                    else if count == 0 then 0
                    else if exists i :: 0 <= i < NrPages(start, count) && FrameAt(lookup, start, i) == None
                    then -ENOMEM
                    else NrPages(start, count)
      ensures rc > 0 ==>
                && (rc == |Split(start, count)| || rc == 1)
                && (forall i :: 0 <= i < rc ==> FrameAt(lookup, start, i) == Some(pages[i]))
                && sgl[..rc] == Mapped(pages[..rc], start, count, rc)
    {
      var refused, nrPages := CountPages(start, count);
      if refused {
        return -EINVAL;
      }
      if count == 0 {
        return 0;
      }
      var i := 0;
      while i < nrPages
        invariant 0 <= i <= nrPages
        invariant forall k :: 0 <= k < i ==> FrameAt(lookup, start, k) == Some(pages[k])
      {
        var page := FrameAt(lookup, start, i);
        if page == None {
          mappedPages := 0;
          return -ENOMEM;
        }
        pages[i] := page.value;
        i := i + 1;
      }
      mappedPages := nrPages;
      Populate(start, count, nrPages);
      rc := nrPages;
    }
  }

  /** sg_create_mapper. The number of entries is kept in an int, and no memory
      can be had for a negative number of them. */
  method SgCreateMapper(maxLen: U64) returns (sgm: Mapper?)
    ensures sgm == null <==> maxLen == 0 || ToInt32(Page(maxLen) + 2) < 0
    ensures sgm != null ==>
              && fresh(sgm) && fresh(sgm.pages) && fresh(sgm.sgl) && sgm.Valid()
              && sgm.mappedPages == 0 && sgm.maxPages == ToInt32(Page(maxLen) + 2)
  {
    if maxLen == 0 {
      return null;
    }
    var maxPages := ToInt32(Page(maxLen) + 2);
    if maxPages < 0 {
      return null;
    }
    sgm := new Mapper(maxPages);
  }

  /** Every piece but the last fills its page. */
  lemma {:induction false} PieceLength(start: nat, count: nat, i: nat)
    requires count > 0 && i < |Split(start, count)|
    ensures Split(start, count)[i].length ==
            if i == |Split(start, count)| - 1
            then if i == 0 then count else start + count - PageStart(Page(start) + i)
            else PAGE_SIZE - Split(start, count)[i].offset
    decreases count
  {
    var room := PAGE_SIZE - Offset(start);
    var n := if room < count then room else count;
    if i > 0 {
      assert Split(start, count)[i] == Split(start + n, count - n)[i - 1];
      PieceLength(start + n, count - n, i - 1);
    }
  }
}
