/**
 check_transfer_align tests the user's buffer and position once; every
 descriptor of every transfer of the request inherits the alignment.
 */
module Alignment {
  import opened Words
  import opened Coalescing
  import opened Transfers
  import opened Copying
  import opened Engines
  import opened Requests

  /** Bitwise and. */
  function And(x: nat, mask: nat): nat {
    if x == 0 || mask == 0 then 0 else (x % 2) * (mask % 2) + 2 * And(x / 2, mask / 2)
  }

  function Pow2(k: nat): (p: nat)
    ensures p > 0
  {
    if k == 0 then 1 else 2 * Pow2(k - 1)
  }

  /** The engine properties that the check depends on. */
  datatype Channel = Channel(streaming: bool, nonIncr: bool, toDevice: bool, addrAlign: nat, lenGranularity: nat)

  /** check_transfer_align. Its casts to int keep the low bits that the masks select. */
  function CheckTransferAlign(c: Channel, buf: nat, count: nat, pos: nat, sync: bool): int
    requires c.addrAlign > 0 && c.lenGranularity > 0
  {
    var bufLsb := And(buf, c.addrAlign - 1);
    var posLsb := And(pos, c.addrAlign - 1);
    if c.streaming || c.nonIncr then
      if bufLsb != 0 then -EINVAL
      else if !c.streaming && posLsb != 0 && sync then -EINVAL
      else if And(count, c.lenGranularity - 1) != 0 then -EINVAL
      else 0
    else if bufLsb != posLsb then -EINVAL
    else 0
  }

  // ---- congruence ----------------------------------------------------------------

  function Times(m: int, x: int): int {
    m * x
  }

  /** The numbers differ by a multiple of m. */
  ghost predicate Congruent(a: int, b: int, m: int) {
    exists x: int :: a - b == Times(m, x)
  }

  lemma TimesDouble(m: int, x: int)
    ensures Times(2 * m, x) == 2 * Times(m, x)
    ensures Times(m, 2 * x) == 2 * Times(m, x)
  {
  }

  lemma HalvesCongruent(a: nat, b: nat, h: nat, x: int)
    ensures a - b == Times(2 * h, x) <==> a % 2 == b % 2 && a / 2 - b / 2 == Times(h, x)
  {
    TimesDouble(h, x);
    var t := Times(h, x);
    assert a == 2 * (a / 2) + a % 2 && b == 2 * (b / 2) + b % 2;
  }

  lemma CongruentByHalves(a: nat, b: nat, h: nat)
    ensures Congruent(a, b, 2 * h) <==> a % 2 == b % 2 && Congruent(a / 2, b / 2, h)
  {
    forall x: int
      ensures a - b == Times(2 * h, x) <==> a % 2 == b % 2 && a / 2 - b / 2 == Times(h, x)
    {
      HalvesCongruent(a, b, h, x);
    }
  }

  /** The bits below 2^k agree exactly when the numbers are congruent modulo 2^k. */
  lemma {:induction false} MaskTestsCongruence(a: nat, b: nat, k: nat)
    ensures And(a, Pow2(k) - 1) == And(b, Pow2(k) - 1) <==> Congruent(a, b, Pow2(k))
  {
    if k == 0 {
      assert a - b == Times(1, a - b);
    } else {
      MaskTestsCongruence(a / 2, b / 2, k - 1);
      LongerMask(a, b, Pow2(k - 1));
    }
  }

  /** A mask of one bit more tests the lowest bits, and the rest as before. */
  lemma LongerMask(a: nat, b: nat, h: nat)
    requires h > 0 && (And(a / 2, h - 1) == And(b / 2, h - 1) <==> Congruent(a / 2, b / 2, h))
    ensures And(a, 2 * h - 1) == And(b, 2 * h - 1) <==> Congruent(a, b, 2 * h)
  {
    MaskStep(a, h);
    MaskStep(b, h);
    CongruentByHalves(a, b, h);
  }

  /** The lowest bit, and the rest of a mask. */
  lemma MaskStep(x: nat, h: nat)
    requires h > 0
    ensures And(x, 2 * h - 1) == x % 2 + 2 * And(x / 2, h - 1)
  {
    assert (2 * h - 1) / 2 == h - 1 && (2 * h - 1) % 2 == 1;
  }

  lemma {:induction false} Pow2Divides(k: nat, n: nat)
    requires k <= n
    ensures Pow2(n) == Times(Pow2(k), Pow2(n - k))
  {
    if k < n {
      Pow2Divides(k, n - 1);
      TimesDouble(Pow2(k), Pow2(n - 1 - k));
    }
  }

  lemma TimesAssociates(m: int, x: int, y: int)
    ensures Times(Times(m, x), y) == Times(m, Times(x, y))
  {
  }

  // ---- inheritance ---------------------------------------------------------------

  /** Paging moves an address by a multiple of any power of two up to the page size. */
  lemma PagingKeepsCongruence(r: Request, v: nat, k: nat)
    requires k <= 12
    ensures exists x: int :: Bus(r.frameOf, v) - v == Times(Pow2(k), x)
  {
    var pages := r.frameOf(Page(v)) - Page(v);
    Pow2Divides(k, 12);
    assert Pow2(12) == 4096 by {
      assert Pow2(4) == 16;
      assert Pow2(8) == 256;
    }
    PageAndOffset(v);
    assert Bus(r.frameOf, v) - v == Times(4096, pages);
    TimesAssociates(Pow2(k), Pow2(12 - k), pages);
  }

  lemma CongruenceShift(a: int, b: int, m: int, a': int, b': int)
    requires exists x: int :: a' - a - (b' - b) == Times(m, x)
    ensures Congruent(a, b, m) <==> Congruent(a', b', m)
  {
    var x: int :| a' - a - (b' - b) == Times(m, x);
    if Congruent(a, b, m) {
      var y: int :| a - b == Times(m, y);
      assert Times(m, x + y) == Times(m, x) + Times(m, y);
      assert a' - b' == Times(m, x + y);
    }
    if Congruent(a', b', m) {
      var y: int :| a' - b' == Times(m, y);
      assert Times(m, y - x) == Times(m, y) - Times(m, x);
      assert a - b == Times(m, y - x);
    }
  }

  /** In a channel that streams or does not increment, the buffer and the size
      must be multiples of the alignment and the granularity, and so must the
      position, of a channel that does not stream, in a synchronous request. */
  lemma OtherModesNeedMultiples(c: Channel, buf: nat, count: nat, pos: nat, sync: bool, k: nat, g: nat)
    requires c.streaming || c.nonIncr
    requires c.addrAlign == Pow2(k) && c.lenGranularity == Pow2(g)
    ensures CheckTransferAlign(c, buf, count, pos, sync) ==
            if && Congruent(buf, 0, Pow2(k)) && Congruent(count, 0, Pow2(g))
               && (c.streaming || !sync || Congruent(pos, 0, Pow2(k)))
            then 0 else -22
  {
    MaskTestsCongruence(buf, 0, k);
    MaskTestsCongruence(pos, 0, k);
    MaskTestsCongruence(count, 0, g);
  }

  /** In the other channels, buffer and position must be congruent. */
  lemma MemoryModeNeedsCongruence(c: Channel, buf: nat, count: nat, pos: nat, sync: bool, k: nat)
    requires !c.streaming && !c.nonIncr && c.addrAlign == Pow2(k) && c.lenGranularity > 0
    ensures CheckTransferAlign(c, buf, count, pos, sync) == if Congruent(buf, pos, Pow2(k)) then 0 else -22
  {
    MaskTestsCongruence(buf, pos, k);
  }

  /** Descriptor j of the chunk after n bytes has host and device addresses
      that are congruent modulo the alignment exactly when the check passes. */
  lemma AlignmentIsInherited(c: Channel, r: Request, count: nat, n: nat, j: nat, k: nat)
    requires !c.streaming && !c.nonIncr && c.addrAlign == Pow2(k) && k <= 12 && c.lenGranularity > 0
    requires n < count && r.pos + count <= TWO_TO_64 && r.advance
    requires j < |ChunkPlan(r, count, n).blocks|
    ensures CheckTransferAlign(c, r.buf, count, r.pos, true) == 0 <==>
            Congruent(ChunkPlan(r, count, n).blocks[j].addr, Endpoint(ChunkPlan(r, count, n), j), c.addrAlign)
  {
    var p := ChunkPlan(r, count, n);
    var t := Total(p.blocks, j);
    ChunkShape(r, count, n);
    BlockStart(p.blocks, j);
    var v := r.buf + n + t;
    assert p.blocks[j].addr == Bus(r.frameOf, v);
    PagingKeepsCongruence(r, v, k);
    CongruenceShift(r.buf, r.pos, c.addrAlign, p.blocks[j].addr, Endpoint(p, j));
    MemoryModeNeedsCongruence(c, r.buf, count, r.pos, true, k);
  }

  /** char_sgdma_read_write. A request in the wrong direction or out of
      alignment changes nothing; one that passes is carried out by
      transfer_data. Of a streaming engine, where a device address means
      nothing, the memories are not spoken of. */
  method CharSgdmaReadWrite(ch: Channel, engine: Engine, r: Request, count: nat, write: bool,
                            tables: nat -> nat, c: Conduct, m: Spaces)
    returns (res: int, pos: nat, m': Spaces, ghost moved: nat)
    requires Idle(engine) && engine.status == c.held && forall i :: Regular(c.outcome(i))
    requires Sound(r, count, tables) && r.toDevice == ch.toDevice && r.advance == !ch.nonIncr
    requires ch.addrAlign > 0 && ch.lenGranularity > 0
    modifies engine
    ensures !ch.streaming ==> Carried(r, count, moved, m, m')
    ensures var accepted := write == ch.toDevice && CheckTransferAlign(ch, r.buf, count, r.pos, true) == 0;
            if accepted then
              && (res >= 0 <==> AllFull(r, count, c))
              && (res >= 0 ==> res == count == moved && pos == r.pos + count && Idle(engine))
              && (res < 0 ==> FailedSomewhere(r, count, c, pos, moved, res)
                              && res == if Interrupted(r, count, c) then -512 else -5)
            else res == -22 && pos == r.pos && moved == 0 && m' == m && Idle(engine)
  {
    res, pos, m', moved := -EINVAL, r.pos, m, 0;
    if write != ch.toDevice {
      return;
    }
    res := CheckTransferAlign(ch, r.buf, count, r.pos, true);
    if res != 0 {
      return;
    }
    res, pos, m', moved := TransferData(engine, r, count, tables, c, m);
  }
}
