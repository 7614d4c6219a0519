/**
 The engine fields and the methods that work on the receive ring in place.
 */
module RxEngine {
  import opened Words
  import opened Ring

  type Buffer = seq<seq<byte>>

  predicate IsBuffer(buffer: Buffer) {
    |buffer| == RX_BUF_PAGES && forall i :: 0 <= i < RX_BUF_PAGES ==> |buffer[i]| == RX_BUF_BLOCK
  }

  /** The bytes that copying `len` bytes from the block at `head` on delivers. */
  function CopyBytes(buffer: Buffer, head: nat, len: nat): seq<byte>
    requires IsBuffer(buffer)
    decreases len
  {
    if len == 0 then []
    else
      var n := Least(len, RX_BUF_BLOCK);
      buffer[Slot(head)][..n] + CopyBytes(buffer, head + 1, len - n)
  }

  lemma {:induction false} CopyBytesSlot(buffer: Buffer, head: nat, len: nat)
    requires IsBuffer(buffer)
    ensures CopyBytes(buffer, Slot(head), len) == CopyBytes(buffer, head, len)
    decreases len
  {
    if len > 0 {
      var n := Least(len, RX_BUF_BLOCK);
      SlotAgain(head, 0);
      SlotAgain(head, 1);
      CopyBytesSlot(buffer, Slot(head) + 1, len - n);
      CopyBytesSlot(buffer, head + 1, len - n);
    }
  }

  function Sum(lens: seq<nat>): nat {
    if lens == [] then 0 else lens[0] + Sum(lens[1..])
  }

  /** Every block but the last is full. */
  predicate FullButLast(lens: seq<nat>) {
    forall i :: 0 <= i < |lens| - 1 ==> lens[i] == RX_BUF_BLOCK
  }

  /** The bytes that results of these lengths describe: from each block, from
      the one at head on, as many as its result says. */
  function Described(buffer: Buffer, head: nat, lens: seq<nat>): seq<byte>
    requires IsBuffer(buffer) && BlockLengths(lens)
    decreases |lens|
  {
    if lens == [] then [] else buffer[Slot(head)][..lens[0]] + Described(buffer, head + 1, lens[1..])
  }

  /** What results may say: no result describes nothing, or more than a block. */
  predicate BlockLengths(lens: seq<nat>) {
    forall i :: 0 <= i < |lens| ==> 1 <= lens[i] <= RX_BUF_BLOCK
  }

  lemma {:induction false} SumPositive(lens: seq<nat>)
    requires BlockLengths(lens) && lens != []
    ensures Sum(lens) == lens[0] + Sum(lens[1..]) && (|lens| > 1 ==> Sum(lens[1..]) > 0)
    decreases |lens|
  {
    if |lens| > 1 {
      SumPositive(lens[1..]);
    }
  }

  lemma FullRest(lens: seq<nat>)
    requires |lens| > 1
    ensures FullButLast(lens) <==> lens[0] == RX_BUF_BLOCK && FullButLast(lens[1..])
  {
    var rest := lens[1..];
    if lens[0] == RX_BUF_BLOCK && FullButLast(rest) {
      forall i | 0 <= i < |lens| - 1
        ensures lens[i] == RX_BUF_BLOCK
      {
        assert i > 0 ==> lens[i] == rest[i - 1];
      }
    }
    if FullButLast(lens) {
      forall i | 0 <= i < |rest| - 1
        ensures rest[i] == RX_BUF_BLOCK
      {
        assert rest[i] == lens[i + 1];
      }
    }
  }

  lemma {:induction false} FullIsCopied(buffer: Buffer, head: nat, lens: seq<nat>)
    requires IsBuffer(buffer) && BlockLengths(lens) && FullButLast(lens)
    ensures CopyBytes(buffer, head, Sum(lens)) == Described(buffer, head, lens)
    decreases |lens|
  {
    if lens != [] {
      SumPositive(lens);
      if |lens| > 1 {
        FullRest(lens);
      }
      FullIsCopied(buffer, head + 1, lens[1..]);
    }
  }

  /** A buffer in which each block is filled with its number. */
  function Numbered(): (buffer: Buffer)
    ensures IsBuffer(buffer)
  {
    seq(256, i requires 0 <= i < 256 => Filled(i))
  }

  function Filled(x: byte): (block: seq<byte>)
    ensures |block| == RX_BUF_BLOCK && forall k :: 0 <= k < RX_BUF_BLOCK ==> block[k] == x
  {
    seq(4096, _ => x)
  }

  /** The first short block shows: behind its last byte the copy goes on in the
      same block, though the next byte described is in the next one. */
  lemma {:induction false} ShortIsNotCopied(head: nat, lens: seq<nat>)
    requires BlockLengths(lens) && !FullButLast(lens)
    ensures CopyBytes(Numbered(), head, Sum(lens)) != Described(Numbered(), head, lens)
    decreases |lens|
  {
    SumPositive(lens);
    FullRest(lens);
    var buffer, rest, n := Numbered(), lens[1..], lens[0];
    var copied, described := CopyBytes(buffer, head, Sum(lens)), Described(buffer, head, lens);
    if n == RX_BUF_BLOCK {
      ShortIsNotCopied(head + 1, rest);
      assert copied[..n] == described[..n];
      assert copied[n..] == CopyBytes(buffer, head + 1, Sum(rest));
      assert described[n..] == Described(buffer, head + 1, rest);
    } else {
      SlotsDiffer(head, head + 1);
      assert copied[n] == buffer[Slot(head)][n] == Slot(head);
      assert Described(buffer, head + 1, rest)[0] == buffer[Slot(head + 1)][0] == Slot(head + 1);
      assert described[n] == Described(buffer, head + 1, rest)[0];
    }
  }

  /** Copying the sum of the lengths delivers what the results describe,
      whatever the blocks hold, exactly when every block but the last is full:
      copying splits the sum, not the parts. */
  lemma CopyMatchesIffFull(head: nat, lens: seq<nat>)
    requires BlockLengths(lens)
    ensures (forall buffer | IsBuffer(buffer) :: CopyBytes(buffer, head, Sum(lens)) == Described(buffer, head, lens))
            <==> FullButLast(lens)
  {
    if FullButLast(lens) {
      forall buffer | IsBuffer(buffer)
        ensures CopyBytes(buffer, head, Sum(lens)) == Described(buffer, head, lens)
      {
        FullIsCopied(buffer, head, lens);
      }
    } else {
      ShortIsNotCopied(head, lens);
      assert IsBuffer(Numbered());
    }
  }

  /** The lengths of the first n results from the head on. */
  function ResultLengths(s: RingState, n: nat): seq<nat>
    requires s.Valid()
  {
    seq(n, k requires 0 <= k < n => s.At(k).length)
  }

  lemma {:induction false} SumSnoc(lens: seq<nat>, x: nat)
    ensures Sum(lens + [x]) == Sum(lens) + x
    decreases |lens|
  {
    if lens == [] {
      assert [x][1..] == [];
    } else {
      assert (lens + [x])[1..] == lens[1..] + [x];
      SumSnoc(lens[1..], x);
    }
  }

  lemma {:induction false} LengthsIsSum(s: RingState, n: nat)
    requires s.Valid()
    ensures Lengths(s, n) == Sum(ResultLengths(s, n))
  {
    if n > 0 {
      LengthsIsSum(s, n - 1);
      SumSnoc(ResultLengths(s, n - 1), s.At(n - 1).length);
      assert ResultLengths(s, n) == ResultLengths(s, n - 1) + [s.At(n - 1).length];
    }
  }

  /** The blocks that complete_cyclic pops have lengths of blocks. */
  lemma PoppedAreBlocks(s: RingState)
    requires s.Valid()
    ensures BlockLengths(ResultLengths(s, PoppedBlocks(s)))
  {
    PopStopsFirst(s, 0, PopLimit(s));
    forall k | 0 <= k < PoppedBlocks(s)
      ensures 1 <= s.At(k).length <= RX_BUF_BLOCK
    {
      assert k < Popped(s) - 1 ==> !StopsAt(s, k);
    }
  }

  /** So what complete_cyclic copies out is what the results it popped describe
      exactly when all of these but the last describe full blocks. */
  lemma CompleteMatchesIffFull(s: RingState)
    requires s.Valid()
    ensures var n := PoppedBlocks(s);
            var lens := ResultLengths(s, n);
            && BlockLengths(lens)
            && ((forall buffer | IsBuffer(buffer) ::
                   CopyBytes(buffer, s.head, Lengths(s, n)) == Described(buffer, s.head, lens))
                <==> forall k: nat :: k + 1 < n ==> s.At(k).length == RX_BUF_BLOCK)
  {
    var n := PoppedBlocks(s);
    var lens := ResultLengths(s, n);
    PoppedAreBlocks(s);
    LengthsIsSum(s, n);
    CopyMatchesIffFull(s.head, lens);
    assert FullButLast(lens) <==> forall k: nat :: k + 1 < n ==> s.At(k).length == RX_BUF_BLOCK by {
      assert forall k :: 0 <= k < n ==> lens[k] == s.At(k).length;
    }
  }

  /** The loop of engine_ring_process once the scan has got to n results. */
  ghost predicate ScanLoop(s: RingState, n: nat, tail: nat, overrun: bool, eopCount: nat)
    requires s.Valid()
  {
    && Unread(s) <= n <= RX_BUF_PAGES && tail == Slot(s.head + n)
    && (if s.overrun then n == Unread(s) && overrun
        else overrun == (n == RX_BUF_PAGES) && PresentRun(s, n, RX_BUF_PAGES) == ScannedTo(s))
    && eopCount == EopCount(s, Unread(s), n)
  }

  lemma ScanRound(s: RingState, n: nat, tail: nat, overrun: bool, eopCount: nat)
    requires s.Valid() && ScanLoop(s, n, tail, overrun, eopCount)
    requires Present(s.results[tail]) && !overrun
    ensures n < RX_BUF_PAGES
    ensures ScanLoop(s, n + 1, Slot(tail + 1), Slot(tail + 1) == s.head,
                     eopCount + if IsEop(s.results[tail]) then 1 else 0)
  {
    SlotAgain(s.head + n, 1);
    SlotSmall(s.head + n + 1);
  }

  lemma ScanEnds(s: RingState, n: nat, tail: nat, overrun: bool, eopCount: nat)
    requires s.Valid() && ScanLoop(s, n, tail, overrun, eopCount)
    requires !Present(s.results[tail]) || overrun
    ensures s.(tail := tail, overrun := overrun) == AfterScan(s) && n == ScannedTo(s)
  {
  }

  /** The loop of complete_cyclic after n slots that have not stopped it. */
  ghost predicate PopLoop(s: RingState, n: nat, now: RingState, numCredit: nat, pktLength: nat)
    requires s.Valid()
  {
    && n <= PopLimit(s) && PopFrom(s, n, PopLimit(s)) == Popped(s) && (n > 0 ==> !StopsAt(s, n - 1))
    && now == s.(results := Cleared(s.results, s.head, n), head := Slot(s.head + n))
    && numCredit == n && pktLength == Lengths(s, n)
  }

  /** One round of the loop. */
  function AfterPopOne(now: RingState, eop: bool): RingState
    requires now.Valid()
  {
    now.(results := now.results[now.head := CLEAR], head := Slot(now.head + 1), eopFound := now.eopFound || eop)
  }

  lemma PopHasNext(s: RingState, n: nat, now: RingState)
    requires s.Valid() && n <= PopLimit(s) && n < 257 && (now.head != now.tail || now.overrun)
    requires now.tail == s.tail && now.overrun == s.overrun && now.head == Slot(s.head + n)
    ensures n < PopLimit(s)
  {
    if !s.overrun {
      SlotSmall(s.head + n);
    }
  }

  /** The slot that the loop comes to next: one not yet cleared, unless it has gone all around. */
  lemma NextSlot(s: RingState, n: nat)
    requires s.Valid() && n < 257
    ensures Cleared(s.results, s.head, n)[Slot(s.head + n)] == if n < RX_BUF_PAGES then s.At(n) else CLEAR
  {
    if n < RX_BUF_PAGES {
      ClearedAt(s.results, s.head, n, n);
    } else {
      SlotAgain(RX_BUF_PAGES, s.head);
      ClearedAt(s.results, s.head, RX_BUF_PAGES, 0);
    }
  }

  lemma PopReads(s: RingState, n: nat, now: RingState, numCredit: nat, pktLength: nat)
    requires s.Valid() && PopLoop(s, n, now, numCredit, pktLength)
    requires now.head != now.tail || now.overrun
    ensures n < PopLimit(s) && now.Valid() && PopStarts(s, n)
    ensures now.results[now.head] == if n < RX_BUF_PAGES then s.At(n) else CLEAR
  {
    PopHasNext(s, n, now);
    NextSlot(s, n);
  }

  /** Whether the loop stops here is decided by the slot that it looks at. */
  ghost predicate PopStarts(s: RingState, n: nat)
    requires s.Valid()
  {
    n < PopLimit(s) && n < 257 && Popped(s) == if StopsAt(s, n) then n + 1 else PopFrom(s, n + 1, PopLimit(s))
  }

  lemma PopOnce(s: RingState, n: nat, now: RingState)
    requires s.Valid() && now == s.(results := Cleared(s.results, s.head, n), head := Slot(s.head + n))
    ensures AfterPopOne(now, false) == s.(results := Cleared(s.results, s.head, n + 1), head := Slot(s.head + n + 1))
  {
    SlotAgain(s.head + n, 1);
  }

  lemma PopStops(s: RingState, n: nat, now: RingState, numCredit: nat, pktLength: nat)
    requires s.Valid() && PopLoop(s, n, now, numCredit, pktLength) && PopStarts(s, n)
    requires now.results[now.head] == if n < RX_BUF_PAGES then s.At(n) else CLEAR
    requires Faulty(now.results[now.head]) || IsEop(now.results[now.head])
    ensures Popped(s) == n + 1
    ensures var r := now.results[now.head];
            && (PopFaults(s) <==> Faulty(r)) && PoppedBlocks(s) == (if Faulty(r) then n else n + 1)
            && Lengths(s, PoppedBlocks(s)) == pktLength + (if Faulty(r) then 0 else r.length)
            && AfterPopOne(now, !Faulty(r)) == AfterPop(s)
  {
    PopOnce(s, n, now);
  }

  lemma PopGoesOn(s: RingState, n: nat, now: RingState, numCredit: nat, pktLength: nat)
    requires s.Valid() && PopLoop(s, n, now, numCredit, pktLength) && PopStarts(s, n)
    requires now.results[now.head] == if n < RX_BUF_PAGES then s.At(n) else CLEAR
    requires !Faulty(now.results[now.head]) && !IsEop(now.results[now.head])
    ensures PopLoop(s, n + 1, AfterPopOne(now, false), numCredit + 1, pktLength + now.results[now.head].length)
  {
    PopOnce(s, n, now);
  }

  lemma PopEnds(s: RingState, n: nat, now: RingState, numCredit: nat, pktLength: nat)
    requires s.Valid() && PopLoop(s, n, now, numCredit, pktLength)
    requires now.head == now.tail && !now.overrun
    ensures PopDone(s, now, false, numCredit, pktLength)
  {
    SlotSmall(s.head + n);
  }

  /** What complete_cyclic knows once the pop loop is over. */
  ghost predicate PopDone(s: RingState, now: RingState, fault: bool, numCredit: nat, pktLength: nat)
    requires s.Valid()
  {
    && now == AfterPop(s) && fault == PopFaults(s)
    && numCredit == PoppedBlocks(s) && pktLength == Lengths(s, numCredit)
  }

  lemma PopRound(s: RingState, n: nat, now: RingState, numCredit: nat, pktLength: nat)
    requires s.Valid() && PopLoop(s, n, now, numCredit, pktLength)
    requires now.head != now.tail || now.overrun
    ensures now.Valid() && n < 257
    ensures var r := now.results[now.head];
            if Faulty(r) then PopDone(s, AfterPopOne(now, false), true, numCredit, pktLength)
            else if IsEop(r) then PopDone(s, AfterPopOne(now, true), false, numCredit + 1, pktLength + r.length)
            else PopLoop(s, n + 1, AfterPopOne(now, false), numCredit + 1, pktLength + r.length)
  {
    PopReads(s, n, now, numCredit, pktLength);
    var r := now.results[now.head];
    if Faulty(r) || IsEop(r) {
      PopStops(s, n, now, numCredit, pktLength);
    } else {
      PopGoesOn(s, n, now, numCredit, pktLength);
    }
  }

  class RxEngine {
    const results: array<Result>
    var rxBuffer: Buffer
    var rxHead: nat
    var rxTail: nat
    var rxOverrun: bool
    var eopFound: bool
    /** The user's buffer up to user_buffer_index. */
    var user: seq<byte>
    /** What has been written to the credit register. */
    var credits: nat

    ghost predicate Valid()
      reads this
    {
      results.Length == RX_BUF_PAGES && rxHead < RX_BUF_PAGES && rxTail < RX_BUF_PAGES && IsBuffer(rxBuffer)
    }

    ghost function View(): (s: RingState)
      reads this, results
      requires Valid()
      ensures s.Valid()
    {
      RingState(results[..], rxHead, rxTail, rxOverrun, eopFound)
    }

    constructor (buffer: Buffer)
      requires IsBuffer(buffer)
      ensures Valid() && fresh(results) && rxBuffer == buffer
      ensures View() == EmptyRing()
      ensures user == [] && credits == 0
    {
      results := new Result[256](_ => CLEAR);
      rxBuffer := buffer;
      rxHead, rxTail, rxOverrun, eopFound := 0, 0, false, false;
      user, credits := [], 0;
    }

    /** engine_ring_process */
    method RingProcess() returns (eopCount: nat)
      requires Valid()
      modifies this`rxTail, this`rxOverrun
      ensures Valid() && View() == AfterScan(old(View()))
      ensures eopCount == EopCount(old(View()), old(Unread(View())), old(ScannedTo(View())))
    {
      ghost var s, n := View(), Unread(View());
      eopCount := 0;
      UnreadEndsAtTail(s);
      while Present(results[rxTail]) && !rxOverrun
        invariant Valid() && n <= 256 && ScanLoop(s, n, rxTail, rxOverrun, eopCount)
        decreases 256 - n
      {
        ScanRound(s, n, rxTail, rxOverrun, eopCount);
        if IsEop(results[rxTail]) {
          eopCount := eopCount + 1;
        }
        rxTail := (rxTail + 1) % 256;
        if rxTail == rxHead {
          rxOverrun := true;
        }
        n := n + 1;
      }
      ScanEnds(s, n, rxTail, rxOverrun, eopCount);
    }

    /** One round of the pop loop: the result at the head is checked and cleared.
        The loop began on ring s and has come past n slots. */
    method PopOne(ghost s: RingState, ghost n: nat, numCredit: nat, pktLength: nat)
      returns (numCredit': nat, pktLength': nat, fault: bool, eop: bool)
      requires Valid() && s.Valid() && PopLoop(s, n, View(), numCredit, pktLength)
      requires rxHead != rxTail || rxOverrun
      modifies results, this`rxHead, this`eopFound
      ensures Valid() && View() == AfterPopOne(old(View()), eop) && n < 257
      ensures if fault || eop then PopDone(s, View(), fault, numCredit', pktLength')
              else PopLoop(s, n + 1, View(), numCredit', pktLength')
    {
      PopRound(s, n, View(), numCredit, pktLength);
      var r := results[rxHead];
      ghost var was := results[..];
      numCredit', pktLength', fault, eop := numCredit, pktLength, false, false;
      if r.status / 0x1_0000 != C2H_WB {
        fault := true;
      } else if r.length > RX_BUF_BLOCK {
        fault := true;
      } else if r.length == 0 {
        fault := true;
      } else {
        pktLength' := pktLength + r.length;
        numCredit' := numCredit + 1;
        if IsEop(r) {
          eop := true;
          eopFound := true;
        }
      }
      assert fault == Faulty(r) && eop == (!Faulty(r) && IsEop(r));
      results[rxHead] := CLEAR;
      assert results[..] == was[rxHead := CLEAR];
      rxHead := (rxHead + 1) % 256;
    }

    /** The part of complete_cyclic that runs under the lock. */
    method PopResults() returns (pktLength: nat, numCredit: nat, fault: bool, head: nat)
      requires Valid()
      modifies results, this`rxHead, this`eopFound
      ensures Valid() && head == old(rxHead)
      ensures PopDone(old(View()), View(), fault, numCredit, pktLength)
    {
      ghost var s, n := View(), 0;
      pktLength, numCredit, fault, head := 0, 0, false, rxHead;
      while rxHead != rxTail || rxOverrun
        invariant Valid() && n <= 257 && !fault
        invariant PopLoop(s, n, View(), numCredit, pktLength)
        decreases 257 - n
      {
        var eop;
        numCredit, pktLength, fault, eop := PopOne(s, n, numCredit, pktLength);
        if fault || eop {
          return;
        }
        n := n + 1;
      }
      PopEnds(s, n, View(), numCredit, pktLength);
    }

    /** copy_cyclic_to_user. `faultAt` is the block, if any, that copy_to_user
        fails on, leaving `left` bytes uncopied. */
    method CopyCyclicToUser(pktLength: nat, start: nat, faultAt: Option<nat>, left: nat) returns (rc: nat)
      requires Valid() && start < RX_BUF_PAGES && left > 0
      modifies this`user
      ensures if faultAt.Some? && faultAt.value * 4096 < pktLength
              then rc == left && user == old(user) + CopyBytes(rxBuffer, start, faultAt.value * 4096)
              else rc == pktLength && user == old(user) + CopyBytes(rxBuffer, start, pktLength)
    {
      var remaining, head, k := pktLength, start, 0;
      while remaining > 0
        invariant head < RX_BUF_PAGES && head == Slot(start + k)
        invariant remaining == if k * 4096 < pktLength then pktLength - k * 4096 else 0
        invariant faultAt.Some? && faultAt.value * 4096 < pktLength ==> k <= faultAt.value
        invariant user == old(user) + CopyBytes(rxBuffer, start, pktLength - remaining)
        decreases remaining
      {
        var copy := if remaining > RX_BUF_BLOCK then RX_BUF_BLOCK else remaining;
        if faultAt == Some(k) {
          return left;
        }
        CopyBytesSnoc(rxBuffer, start, k, copy);
        user := user + rxBuffer[head][..copy];
        remaining := remaining - copy;
        SlotAgain(start + k, 1);
        head := (head + 1) % 256;
        k := k + 1;
      }
      rc := pktLength;
    }

    /** complete_cyclic */
    method CompleteCyclic(faultAt: Option<nat>, left: nat) returns (rc: int)
      requires Valid() && left > 0
      modifies this, results
      ensures Valid() && rxBuffer == old(rxBuffer)
      ensures var s := old(View());
              var len := Lengths(s, PoppedBlocks(s));
              if PopFaults(s) then
                rc == -EIO && View() == AfterPop(s) && user == old(user) && credits == old(credits)
              else if faultAt.Some? && faultAt.value * 4096 < len then
                && rc == left && View() == AfterRead(s)
                && user == old(user) + CopyBytes(rxBuffer, s.head, faultAt.value * 4096)
                && credits == old(credits) + PoppedBlocks(s)
              else
                && rc == len && View() == AfterRead(s)
                && user == old(user) + CopyBytes(rxBuffer, s.head, len)
                && credits == old(credits) + if len > 0 then PoppedBlocks(s) else 0
    {
      var pktLength, numCredit, fault, head := PopResults();
      if fault {
        rc := -EIO;
      } else {
        rc := CopyCyclicToUser(pktLength, head, faultAt, left);
        rxOverrun := false;
        if rc > 0 {
          credits := credits + numCredit;
        }
      }
    }
  }

  /** Copying one block more, after k full ones. */
  lemma {:induction false} CopyBytesSnoc(buffer: Buffer, start: nat, k: nat, n: nat)
    requires IsBuffer(buffer) && 0 < n <= RX_BUF_BLOCK
    ensures CopyBytes(buffer, start, k * 4096 + n) == CopyBytes(buffer, start, k * 4096) + buffer[Slot(start + k)][..n]
    decreases k
  {
    if k > 0 {
      CopyBytesSnoc(buffer, start + 1, k - 1, n);
      var first := buffer[Slot(start)][..RX_BUF_BLOCK];
      assert CopyBytes(buffer, start, k * 4096 + n) == first + CopyBytes(buffer, start + 1, (k - 1) * 4096 + n);
      assert CopyBytes(buffer, start, k * 4096) == first + CopyBytes(buffer, start + 1, (k - 1) * 4096);
    } else {
      assert CopyBytes(buffer, start + 1, 0) == [];
    }
  }
}
