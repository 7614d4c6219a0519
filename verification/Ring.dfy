/**
 The receive ring of a streaming engine: 256 result slots that the device
 fills, engine_ring_process scans and complete_cyclic empties.
 */
module Ring {
  import opened Words

  const RX_BUF_PAGES: nat := 256
  const RX_BUF_BLOCK: nat := 4096
  const C2H_WB: int := 0x52B4

  /** struct xdma_result */
  datatype Result = Result(status: U32, length: U32)

  const CLEAR: Result := Result(0, 0)

  predicate Present(r: Result) {
    r.status != 0
  }

  predicate IsEop(r: Result) {
    r.status % 2 == 1
  }

  predicate Faulty(r: Result) {
    r.status / 0x1_0000 != C2H_WB || r.length > RX_BUF_BLOCK || r.length == 0
  }

  /** The slot of a position in the ring. */
  function Slot(i: nat): (s: nat)
    ensures s < RX_BUF_PAGES
  {
    i % 256
  }

  lemma SlotAgain(i: nat, j: nat)
    ensures Slot(Slot(i) + j) == Slot(i + j)
  {
  }

  /** Less than a full turn apart, positions have different slots. */
  lemma SlotsDiffer(i: nat, j: nat)
    requires i < j < i + 256
    ensures Slot(i) != Slot(j)
  {
  }

  /** The driver's side of the ring. */
  datatype RingState = RingState(results: seq<Result>, head: nat, tail: nat, overrun: bool, eopFound: bool) {
    predicate Valid() {
      |results| == RX_BUF_PAGES && head < RX_BUF_PAGES && tail < RX_BUF_PAGES
    }

    /** The result at a distance from the head. */
    function At(i: nat): Result
      requires |results| == RX_BUF_PAGES
    {
      results[Slot(head + i)]
    }
  }

  /** The ring of a session that begins. */
  function EmptyRing(): (s: RingState)
    ensures s.Valid()
  {
    RingState(seq(RX_BUF_PAGES, _ => CLEAR), 0, 0, false, false)
  }

  /** The steps from the head around the ring to the tail. */
  function Distance(s: RingState): int {
    if s.head <= s.tail then s.tail - s.head else s.tail - s.head + 256
  }

  /** The number of scanned and unread slots. */
  function Unread(s: RingState): (n: nat)
    requires s.Valid()
    ensures n <= RX_BUF_PAGES
  {
    if s.overrun && s.head == s.tail then 256 else Distance(s)
  }

  /** Positions within two turns. */
  lemma SlotSmall(i: nat)
    requires i < 512
    ensures Slot(i) == if i < 256 then i else i - 256
  {
  }

  lemma UnreadEndsAtTail(s: RingState)
    requires s.Valid()
    ensures Slot(s.head + Unread(s)) == s.tail
  {
    SlotSmall(s.head + Unread(s));
  }

  // ---- engine_ring_process -----------------------------------------------------

  /** The slots from i on, at most up to `limit`, that hold a result. */
  function PresentRun(s: RingState, i: nat, limit: nat): (n: nat)
    requires s.Valid() && i <= limit
    ensures i <= n <= limit
    ensures forall k :: i <= k < n ==> Present(s.At(k))
    ensures n < limit ==> !Present(s.At(n))
    decreases limit - i
  {
    if i < limit && Present(s.At(i)) then PresentRun(s, i + 1, limit) else i
  }

  /** The unread count after a scan: it takes in the maximal run of results
      behind the unread ones, unless the ring has overrun. */
  function ScannedTo(s: RingState): (n: nat)
    requires s.Valid()
    ensures Unread(s) <= n <= RX_BUF_PAGES
  {
    if s.overrun then Unread(s) else PresentRun(s, Unread(s), RX_BUF_PAGES)
  }

  function AfterScan(s: RingState): (r: RingState)
    requires s.Valid()
  {
    var n := ScannedTo(s);
    s.(tail := Slot(s.head + n), overrun := s.overrun || n == RX_BUF_PAGES)
  }

  /** One round of the scan. */
  function AfterScanOne(s: RingState): RingState
    requires s.Valid()
  {
    var tail := Slot(s.tail + 1);
    s.(tail := tail, overrun := s.overrun || tail == s.head)
  }

  /** The results at distances a to b - 1 from the head that end a packet. */
  function EopCount(s: RingState, a: nat, b: nat): nat
    requires s.Valid() && a <= b
  {
    if a == b then 0 else EopCount(s, a, b - 1) + if IsEop(s.At(b - 1)) then 1 else 0
  }

  /** The count is of the results whose end-of-packet bit, the lowest, is set. */
  lemma {:induction false} EopCountMeans(s: RingState, a: nat, b: nat)
    requires s.Valid() && a <= b
    ensures EopCount(s, a, b) == |EopsIn(s, a, b)|
  {
    if a < b {
      EopCountMeans(s, a, b - 1);
      EopsInMore(s, a, b);
    } else {
      assert EopsIn(s, a, b) == {};
    }
  }

  ghost function EopsIn(s: RingState, a: nat, b: nat): set<nat>
    requires s.Valid()
  {
    set k: nat | a <= k < b && s.At(k).status % 2 == 1
  }

  lemma EopsInMore(s: RingState, a: nat, b: nat)
    requires s.Valid() && a < b
    ensures |EopsIn(s, a, b)| == |EopsIn(s, a, b - 1)| + if s.At(b - 1).status % 2 == 1 then 1 else 0
  {
    var before := EopsIn(s, a, b - 1);
    assert EopsIn(s, a, b) == if s.At(b - 1).status % 2 == 1 then before + {b - 1} else before;
  }

  // ---- the locked part of complete_cyclic ---------------------------------------

  /** Does the pop loop stop at distance i from the head? A slot it comes to
      for the second time is one that it has cleared, and faults. */
  predicate StopsAt(s: RingState, i: nat)
    requires s.Valid()
  {
    i >= RX_BUF_PAGES || Faulty(s.At(i)) || IsEop(s.At(i))
  }

  /** How far the loop may go: to the tail, or until it stops once the ring has overrun. */
  function PopLimit(s: RingState): nat
    requires s.Valid()
  {
    if s.overrun then 257 else Distance(s)
  }

  function PopFrom(s: RingState, i: nat, limit: nat): (n: nat)
    requires s.Valid() && i <= limit
    ensures i <= n <= limit
    decreases limit - i
  {
    if i == limit then i else if StopsAt(s, i) then i + 1 else PopFrom(s, i + 1, limit)
  }

  /** The loop stops at the first slot that stops it, or at its limit. */
  lemma {:induction false} PopStopsFirst(s: RingState, i: nat, limit: nat)
    requires s.Valid() && i <= limit
    ensures forall k :: i <= k < PopFrom(s, i, limit) - 1 ==> !StopsAt(s, k)
    ensures PopFrom(s, i, limit) < limit ==> i < PopFrom(s, i, limit) && StopsAt(s, PopFrom(s, i, limit) - 1)
    decreases limit - i
  {
    if i < limit && !StopsAt(s, i) {
      PopStopsFirst(s, i + 1, limit);
    }
  }

  function Popped(s: RingState): (n: nat)
    requires s.Valid()
    ensures n <= PopLimit(s)
  {
    PopFrom(s, 0, PopLimit(s))
  }

  predicate PopFaults(s: RingState)
    requires s.Valid()
  {
    var n := Popped(s);
    n > 0 && (n > RX_BUF_PAGES || Faulty(s.At(n - 1)))
  }

  /** The popped slots that hold data, and the bytes in them. */
  function PoppedBlocks(s: RingState): nat
    requires s.Valid()
  {
    if PopFaults(s) then Popped(s) - 1 else Popped(s)
  }

  function Lengths(s: RingState, n: nat): nat
    requires s.Valid()
  {
    if n == 0 then 0 else Lengths(s, n - 1) + s.At(n - 1).length
  }

  function Cleared(results: seq<Result>, head: nat, n: nat): (r: seq<Result>)
    requires |results| == RX_BUF_PAGES
    ensures |r| == RX_BUF_PAGES
  {
    if n == 0 then results else Cleared(results, head, n - 1)[Slot(head + (n - 1)) := CLEAR]
  }

  lemma {:induction false} ClearedAt(results: seq<Result>, head: nat, n: nat, i: nat)
    requires |results| == RX_BUF_PAGES && n <= RX_BUF_PAGES && i < RX_BUF_PAGES
    ensures Cleared(results, head, n)[Slot(head + i)] == if i < n then CLEAR else results[Slot(head + i)]
  {
    if n > 0 {
      ClearedAt(results, head, n - 1, i);
      if i < n - 1 {
        SlotsDiffer(head + i, head + (n - 1));
      } else if i > n - 1 {
        SlotsDiffer(head + (n - 1), head + i);
      }
    }
  }

  function AfterPop(s: RingState): RingState
    requires s.Valid()
  {
    var n := Popped(s);
    s.(results := Cleared(s.results, s.head, n), head := Slot(s.head + n),
       eopFound := s.eopFound || (n > 0 && !PopFaults(s) && IsEop(s.At(n - 1))))
  }

  // ---- the ring is a bounded FIFO -------------------------------------------------

  /** The unread results, oldest first. */
  function Contents(s: RingState): seq<Result>
    requires s.Valid()
  {
    seq(Unread(s), i requires 0 <= i < Unread(s) => s.At(i))
  }

  /** Scanning appends the maximal run of results that follow the unread ones,
      and flags an overrun exactly when that fills the ring. */
  lemma ScanAppends(s: RingState)
    requires s.Valid() && !s.overrun
    ensures var n, after := ScannedTo(s), AfterScan(s);
            && after.Valid() && Unread(after) == n && Contents(s) <= Contents(after)
            && (forall k :: Unread(s) <= k < n ==> Contents(after)[k] == s.At(k) && s.At(k).status != 0)
            && (n < RX_BUF_PAGES ==> s.At(n).status == 0)
            && (after.overrun <==> |Contents(after)| == RX_BUF_PAGES)
  {
    var n, after := ScannedTo(s), AfterScan(s);
    SlotSmall(s.head + n);
  }

  /** k rounds of the scan. */
  function Rounds(s: RingState, k: nat): (r: RingState)
    requires s.Valid()
    ensures r.Valid()
  {
    if k == 0 then s else AfterScanOne(Rounds(s, k - 1))
  }

  lemma OneRound(s: RingState, n: nat)
    requires s.Valid() && Distance(s) < n <= RX_BUF_PAGES
    ensures AfterScanOne(s.(tail := Slot(s.head + (n - 1)), overrun := false)) ==
            s.(tail := Slot(s.head + n), overrun := n == RX_BUF_PAGES)
  {
    SlotAgain(s.head + (n - 1), 1);
    SlotSmall(s.head + n);
  }

  /** A scan that nothing interrupts is that many rounds. */
  lemma {:induction false} ScanIsRounds(s: RingState, n: nat)
    requires s.Valid() && !s.overrun && Unread(s) <= n <= RX_BUF_PAGES
    ensures Rounds(s, n - Unread(s)) == s.(tail := Slot(s.head + n), overrun := n == RX_BUF_PAGES)
    ensures n == ScannedTo(s) ==> Rounds(s, n - Unread(s)) == AfterScan(s)
    decreases n
  {
    if n == Unread(s) {
      UnreadEndsAtTail(s);
    } else {
      ScanIsRounds(s, n - 1);
      OneRound(s, n);
    }
  }

  /** Popping clears the popped slots and no other. */
  lemma PopClears(s: RingState, i: nat)
    requires s.Valid() && Popped(s) <= RX_BUF_PAGES && i < RX_BUF_PAGES
    ensures AfterPop(s).results[Slot(s.head + i)] == if i < Popped(s) then Result(0, 0) else s.At(i)
  {
    ClearedAt(s.results, s.head, Popped(s), i);
  }

  /** The ring once the copy is done: the overrun flag is dropped. */
  function AfterRead(s: RingState): RingState
    requires s.Valid()
  {
    AfterPop(s).(overrun := false)
  }

  lemma PopWithinUnread(s: RingState)
    requires s.Valid() && (s.overrun ==> s.head == s.tail) && !PopFaults(s)
    ensures Popped(s) <= Unread(s) && Unread(AfterRead(s)) == Unread(s) - Popped(s)
  {
    PopStopsFirst(s, 0, PopLimit(s));
    SlotSmall(s.head + Popped(s));
  }

  lemma PopShifts(s: RingState, i: nat)
    requires s.Valid() && Popped(s) + i < RX_BUF_PAGES
    ensures AfterRead(s).At(i) == s.At(Popped(s) + i)
  {
    SlotAgain(s.head + Popped(s), i);
    PopClears(s, Popped(s) + i);
  }

  /** Without a fault, popping removes the oldest results: up to the first end
      of packet, or all of them. */
  lemma PopRemoves(s: RingState)
    requires s.Valid() && (s.overrun ==> s.head == s.tail) && !PopFaults(s)
    ensures var n := Popped(s);
            && n <= |Contents(s)| && AfterRead(s).Valid() && Contents(AfterRead(s)) == Contents(s)[n..]
            && (forall k :: 0 <= k < n - 1 ==> !IsEop(Contents(s)[k]))
            && (n < |Contents(s)| ==> n > 0 && IsEop(Contents(s)[n - 1]))
  {
    var n, after := Popped(s), AfterRead(s);
    PopStopsFirst(s, 0, PopLimit(s));
    PopWithinUnread(s);
    forall i | 0 <= i < Unread(s) - n
      ensures after.At(i) == s.At(n + i)
    {
      PopShifts(s, i);
    }
    forall k | 0 <= k < n - 1
      ensures !IsEop(s.At(k))
    {
      assert !StopsAt(s, k);
    }
  }

  /** A result that complete_cyclic takes for a fault: a wrong magic in the upper
      half of the status, no bytes or more than a block. */
  lemma FaultyMeans(r: Result)
    ensures Faulty(r) <==> !(0x52B4_0000 <= r.status < 0x52B5_0000) || !(1 <= r.length <= 4096)
  {
  }

  /** Popping a ring that has not overrun faults exactly when a bad result is
      unread before, or as, the first end of packet. */
  lemma PopFaultsIffBadFirst(s: RingState)
    requires s.Valid() && !s.overrun
    ensures PopFaults(s) <==> exists f :: 0 <= f < Unread(s) && BadFirst(s, f)
  {
    var n := Popped(s);
    PopStopsFirst(s, 0, PopLimit(s));
    if PopFaults(s) {
      forall e | 0 <= e < n - 1
        ensures !IsEop(s.At(e))
      {
        assert !StopsAt(s, e);
      }
      assert BadFirst(s, n - 1);
    } else {
      forall f | 0 <= f < Unread(s)
        ensures !BadFirst(s, f)
      {
        if Faulty(s.At(f)) {
          assert StopsAt(s, f);
          assert 0 <= n - 1 < f && IsEop(s.At(n - 1));
        }
      }
    }
  }

  /** A bad result at this distance from the head, and no end of packet before it. */
  ghost predicate BadFirst(s: RingState, f: nat)
    requires s.Valid()
  {
    Faulty(s.At(f)) && forall e :: 0 <= e < f ==> !IsEop(s.At(e))
  }

  /** Once the ring has overrun, the pop loop is fault-free exactly when some
      unread packet ends before the first bad result: with no end of packet in
      the 256 slots it runs into the slots it has cleared itself. */
  lemma OverrunPopFaults(s: RingState)
    requires s.Valid() && s.overrun
    ensures PopFaults(s) <==>
            forall e :: 0 <= e < RX_BUF_PAGES && IsEop(s.At(e)) ==> exists f :: 0 <= f <= e && Faulty(s.At(f))
  {
    var n := Popped(s);
    PopStopsFirst(s, 0, PopLimit(s));
    if PopFaults(s) {
      forall e | 0 <= e < RX_BUF_PAGES && IsEop(s.At(e))
        ensures exists f :: 0 <= f <= e && Faulty(s.At(f))
      {
        assert StopsAt(s, e);
        assert n - 1 <= e;
        assert Faulty(s.At(n - 1));
      }
    } else {
      forall f | 0 <= f <= n - 1
        ensures !Faulty(s.At(f))
      {
        assert f < n - 1 ==> !StopsAt(s, f);
      }
      assert IsEop(s.At(n - 1));
    }
  }
}
