/**
 The engine object: its transfer list, its registers and the functions that
 change them under the engine lock.
 */
module Engines {
  import opened Words
  import opened Descriptors
  import opened Transfers
  import opened Queue
  import Device

  const STAT_BUSY: bv32 := 0x1
  /** MAGIC_STOPPED, ALIGN_MISMATCH, READ_ERROR and DESC_ERROR */
  const STAT_ERRORS: bv32 := 0x00f8_3e18

  predicate IsBusy(status: bv32) {
    status & STAT_BUSY != 0
  }

  predicate HasError(status: bv32) {
    status & STAT_ERRORS != 0
  }

  /** BUSY is bit 0. The errors are an alignment mismatch, bit 3, a wrong magic,
      bit 4, read errors, bits 9 to 13, and descriptor errors, bits 19 to 23. */
  lemma StatusBits(s: bv32)
    ensures IsBusy(s) <==> s & 1 == 1
    ensures HasError(s) <==>
            (s >> 3) & 1 == 1 || (s >> 4) & 1 == 1 || (s >> 9) & 0x1f != 0 || (s >> 19) & 0x1f != 0
  {
  }

  /** The two fields of a poll-mode writeback word. */
  function WritebackCount(wb: U32): nat {
    wb % 0x100_0000
  }

  predicate WritebackError(wb: U32) {
    wb >= 0x8000_0000
  }

  function States(list: seq<Transfer>): (states: seq<TransferState>)
    reads list
    ensures |states| == |list|
  {
    seq(|list|, i requires 0 <= i < |list| reads list => list[i].state)
  }

  /** The first k transfers are completed, the others are in the states they were in. */
  ghost predicate Marked(list: seq<Transfer>, k: nat, was: seq<TransferState>)
    reads list
  {
    |was| == |list| &&
    (Distinct(list) ==> forall j :: 0 <= j < |list| ==> list[j].state == if j < k then Completed else was[j])
  }

  ghost predicate NoneCyclic(list: seq<Transfer>, k: nat)
    reads list
  {
    k <= |list| && forall j :: 0 <= j < k ==> !list[j].cyclic
  }

  /** A list that has been worked off up to transfer k. */
  ghost predicate WorkedOff(list: seq<Transfer>, k: nat, was: seq<TransferState>)
    reads list
  {
    NoneCyclic(list, k) && Marked(list, k, was)
  }

  /** A list is worked off as far as the count goes, or to a cyclic transfer. */
  ghost predicate StopsAt(list: seq<Transfer>, count: nat, k: nat)
    reads list
  {
    NoneCyclic(list, k) && k <= Passed(list, 0, count) && (k < Passed(list, 0, count) ==> list[k].cyclic)
  }

  /** There is a transfer to end the accounting with: one that the count does
      not run past, or a cyclic one. */
  ghost predicate Accountable(list: seq<Transfer>, count: nat)
    reads list
  {
    Passed(list, 0, count) < |list| || exists t <- list :: t.cyclic
  }

  class Engine {
    var running: bool
    var shutdownRequest: bool
    var shutdownIdle: bool
    var transferList: seq<Transfer>
    var descDequeued: nat
    var status: bv32

    // registers of the device
    var firstDescLow: U32
    var firstDescHigh: U32
    var firstDescAdjacent: nat
    var runStop: bool

    /** The states given to transfers so far. */
    ghost var verdicts: seq<Verdict>
    /** How often the device has been started. */
    ghost var starts: nat

    ghost function View(): QState
      reads this
    {
      QState(running, shutdownRequest, shutdownIdle, transferList, descDequeued, verdicts, starts)
    }

    /** The device is set to start on the head of the queue. */
    ghost predicate Programmed()
      reads this
    {
      && transferList != []
      && runStop
      && firstDescLow == Low(transferList[0].descBus) && firstDescHigh == High(transferList[0].descBus)
      && firstDescAdjacent == Device.FirstExtra(transferList[0].descAdjacent)
    }

    /** The state that the last verdict gives. */
    ghost function LastState(): TransferState
      reads this
      requires verdicts != []
    {
      verdicts[|verdicts| - 1].state
    }

    /** The first k + 1 transfers of the list have got verdicts, in order, and
        bear those states; the others are in the states they were in. */
    ghost predicate Judged(list: seq<Transfer>, k: nat, before: seq<Verdict>, was: seq<TransferState>)
      reads this, list
    {
      && k < |list| == |was| && verdicts != []
      && verdicts == before + AllCompleted(list, k) + [Verdict(list[k], LastState())]
      && Marked(list, k, was[k := LastState()])
    }

    constructor ()
      ensures View() == IDLE && !runStop && status == 0
    {
      running, shutdownRequest, shutdownIdle, transferList, descDequeued, status := false, false, false, [], 0, 0;
      firstDescLow, firstDescHigh, firstDescAdjacent, runStop := 0, 0, 0, false;
      verdicts, starts := [], 0;
    }

    /** engine_start: the BUG_ONs are its preconditions. */
    method Start()
      requires !running && transferList != []
      modifies this
      ensures View() == Started(old(View())) && Programmed()
      ensures running && !shutdownRequest && !shutdownIdle && descDequeued == 0 && starts == old(starts) + 1
      ensures status == old(status) && transferList == old(transferList) && verdicts == old(verdicts)
    {
      var transfer := transferList[0];
      shutdownRequest, shutdownIdle := false, false;
      descDequeued := 0;
      firstDescLow := Low(transfer.descBus);
      firstDescHigh := High(transfer.descBus);
      var extraAdj := 0;
      if transfer.descAdjacent > 0 {
        extraAdj := transfer.descAdjacent - 1;
        if extraAdj > MAX_EXTRA_ADJ {
          extraAdj := MAX_EXTRA_ADJ;
        }
      }
      firstDescAdjacent := extraAdj;
      runStop := true;
      running := true;
      starts := starts + 1;
    }

    /** transfer_queue */
    method Submit(transfer: Transfer) returns (rc: int)
      requires transfer.descNum != 0
      modifies this, transfer`state
      ensures View() == AfterSubmit(old(View()), transfer)
      ensures rc == if old(shutdownRequest) then -1 else 0
      ensures rc == -1 ==> View() == old(View()) && runStop == old(runStop)
      ensures rc == 0 ==> running && transferList == old(transferList) + [transfer] && verdicts == old(verdicts)
      ensures transfer.state == if rc == 0 then Submitted else old(transfer.state)
      ensures !old(running) && rc == 0 ==> Programmed()
      ensures old(running && Programmed()) ==> Programmed()
      ensures status == old(status)
    {
      if shutdownRequest {
        return -1;
      }
      transfer.state := Submitted;
      transferList := transferList + [transfer];
      if !running {
        Start();
      }
      rc := 0;
    }

    /** engine_service_shutdown */
    method Shutdown()
      modifies `running, `runStop
      ensures View() == old(View()).(running := false)
      ensures status == old(status) && !runStop
    {
      runStop := false;
      running := false;
    }

    /** engine_transfer_dequeue and engine_transfer_completion, on transfer k
        of the queue of q, which is completed. */
    method CompleteHead(ghost q: QState, ghost k: nat, ghost was: seq<TransferState>)
      requires k < |q.queue| && View() == Listed(q, k)
      requires WorkedOff(q.queue, k, was) && !q.queue[k].cyclic
      modifies `transferList, `descDequeued, `verdicts, {transferList[0]}`state
      ensures View() == Listed(q, k + 1) && Prefix(q.queue, k + 1) == Prefix(q.queue, k) + q.queue[k].descNum
      ensures WorkedOff(q.queue, k + 1, was)
    {
      ListedMore(q, k);
      var transfer := transferList[0];
      transferList := transferList[1..];
      descDequeued := descDequeued + transfer.descNum;
      transfer.state := Completed;
      verdicts := verdicts + [Verdict(transfer, Completed)];
    }

    /** engine_service_transfer_list: it stops at a cyclic transfer, too. */
    method ServiceTransferList(pdescCompleted: nat) returns (left: nat, ghost k: nat)
      modifies `transferList, `descDequeued, `verdicts, (set t | t in transferList)`state
      ensures StopsAt(old(transferList), pdescCompleted, k)
      ensures View() == Listed(old(View()), k)
      ensures left == pdescCompleted - Prefix(old(transferList), k)
      ensures left + descDequeued == pdescCompleted + old(descDequeued)
      ensures Marked(old(transferList), k, old(States(transferList)))
    {
      ghost var q, was := View(), States(transferList);
      left, k := pdescCompleted, 0;
      while transferList != [] && !transferList[0].cyclic && left > transferList[0].descNum
        invariant k <= |q.queue| && View() == Listed(q, k)
        invariant left + Prefix(q.queue, k) == pdescCompleted && (k > 0 ==> left > 0)
        invariant WorkedOff(q.queue, k, was)
        decreases |transferList|
      {
        left := left - transferList[0].descNum;
        CompleteHead(q, k, was);
        k := k + 1;
      }
      PassedIsUnique(q.queue, pdescCompleted, k);
    }

    /** engine_service_final_transfer, on transfer k of a list worked off up
        to there; a null transfer is a BUG_ON. */
    method ServiceFinalTransfer(pdescCompleted: nat,
                                ghost list: seq<Transfer>, ghost k: nat, ghost was: seq<TransferState>)
      requires k < |list| && transferList == list[k..] && Marked(list, k, was)
      modifies `transferList, `descDequeued, `verdicts, `runStop, {transferList[0]}`state
      ensures View() == AfterFinal(old(View()), pdescCompleted, HasError(status))
      ensures verdicts != [] && Marked(list, k, was[k := LastState()])
      ensures runStop == (old(runStop) && !HasError(status))
      ensures (status >> 3) & 1 == 1 || (status >> 4) & 1 == 1
              || (status >> 9) & 0x1f != 0 || (status >> 19) & 0x1f != 0 ==>
                list[k].state == Failed && transferList == old(transferList) && !runStop
    {
      StatusBits(status);
      var transfer := transferList[0];
      if HasError(status) {
        // engine_err_handle
        transfer.state := Failed;
        verdicts := verdicts + [Verdict(transfer, Failed)];
        runStop := false;
        return;
      }
      if pdescCompleted < transfer.descNum {
        transfer.state := Failed;
      } else {
        transfer.state := Completed;
      }
      verdicts := verdicts + [Verdict(transfer, transfer.state)];
      transferList := transferList[1..];
      descDequeued := descDequeued + transfer.descNum;
    }

    /** engine_service_resume */
    method Resume()
      modifies this
      ensures View() == Resumed(old(View()))
      ensures running == (old(running) || (!old(shutdownRequest) && transferList != []))
      ensures shutdownIdle == if old(running) then old(shutdownIdle)
                              else old(shutdownRequest) || (old(shutdownIdle) && transferList == [])
      ensures !old(running) && running ==> Programmed()
      ensures old(running) || !running ==> runStop == old(runStop)
      ensures status == old(status) && transferList == old(transferList) && verdicts == old(verdicts)
    {
      if !running {
        if shutdownRequest {
          shutdownIdle := true;
        } else if transferList != [] {
          Start();
        }
      }
    }

    /** Accounting for the completed descriptors, head by head, up to transfer k. */
    method Account(descCount: nat) returns (ghost k: nat)
      requires Accountable(transferList, descCount)
      modifies `transferList, `descDequeued, `verdicts, `runStop, (set t | t in transferList)`state
      ensures StopsAt(old(transferList), descCount, k) && k < |old(transferList)|
      ensures Prefix(old(transferList), k) <= descCount
      ensures View() == Accounted(old(View()), k, descCount, HasError(status))
      ensures runStop == (old(runStop) && !HasError(status))
      ensures Judged(old(transferList), k, old(verdicts), old(States(transferList)))
    {
      ghost var q, was := View(), States(transferList);
      var left;
      left, k := ServiceTransferList(descCount);
      PrefixWithin(q.queue, descCount, k);
      ServiceFinalTransfer(left, q.queue, k, was);
      assert View() == Accounted(q, k, descCount, HasError(status));
      FinalVerdict(q, k, descCount, HasError(status), View());
    }

    /** The last part of engine_service: account for the completed descriptors
        and restart the engine. */
    method ServiceQueue(descCount: nat) returns (ghost k: nat)
      requires Accountable(transferList, descCount)
      modifies this, (set t | t in transferList)`state
      ensures StopsAt(old(transferList), descCount, k) && k < |old(transferList)|
      ensures Prefix(old(transferList), k) <= descCount
      ensures View() == Resumed(Accounted(old(View()), k, descCount, HasError(status)))
      ensures HasError(status) ==> runStop == (!old(running) && running)
      ensures Judged(old(transferList), k, old(verdicts), old(States(transferList)))
      ensures !old(running) && running ==> Programmed()
      ensures status == old(status)
    {
      k := Account(descCount);
      Resume();
    }

    /** The status and the descriptor count that a service call goes by. */
    function StatusUsed(wb: U32, statusReg: bv32): bv32
      reads this
    {
      if WritebackCount(wb) == 0 || WritebackError(wb) then statusReg else status
    }

    function Attributable(wb: U32, countReg: U32): nat
      reads this
    {
      ((if WritebackCount(wb) == 0 then countReg else WritebackCount(wb)) - descDequeued) % 0x1_0000_0000
    }

    function FoundStopped(wb: U32, statusReg: bv32): bool
      reads this
    {
      !IsBusy(StatusUsed(wb, statusReg)) || WritebackCount(wb) != 0
    }

    /** The first part of engine_service on a running engine: read the status,
        stop an engine that has stopped, and find the count to go by. */
    method TakeStock(wb: U32, statusReg: bv32, countReg: U32) returns (attributed: U32)
      requires running
      modifies `status, `running, `runStop
      ensures attributed == old(Attributable(wb, countReg)) && status == old(StatusUsed(wb, statusReg))
      ensures View() == old(View()).(running := !old(FoundStopped(wb, statusReg)))
    {
      var descCount := WritebackCount(wb);
      if descCount == 0 || WritebackError(wb) {
        status := statusReg;
      }
      if (running && !IsBusy(status)) || descCount != 0 {
        Shutdown();
      }
      if descCount == 0 {
        descCount := countReg;
      }
      attributed := (descCount - descDequeued) % 0x1_0000_0000;
    }

    /** engine_service. `statusReg` and `countReg` are what the two device
        registers read as; a polled writeback replaces the count and, unless it
        signals an error, leaves the status of the last read in place. */
    method Service(wb: U32, statusReg: bv32, countReg: U32) returns (rc: int, ghost k: nat)
      requires running ==> Accountable(transferList, Attributable(wb, countReg))
      modifies this, (set t | t in transferList)`state
      ensures !old(running) ==>
                View() == old(View()) && rc == 0 && status == if wb == 0 then statusReg else old(status)
      ensures old(running) ==>
                var count := old(Attributable(wb, countReg));
                && StopsAt(old(transferList), count, k) && k < |old(transferList)|
                && Prefix(old(transferList), k) <= count
                && View() == ServicedTo(old(View()), k, count, old(FoundStopped(wb, statusReg)),
                                      HasError(old(StatusUsed(wb, statusReg))))
                && status == old(StatusUsed(wb, statusReg))
                && rc == (if WritebackError(wb) then -1 else 0)
                && (HasError(status) && !old(shutdownRequest) ==> runStop == old(FoundStopped(wb, statusReg)))
                && Judged(old(transferList), k, old(verdicts), old(States(transferList)))
      ensures old(running && FoundStopped(wb, statusReg)) && running ==> Programmed()
    {
      rc, k := if WritebackError(wb) then -1 else 0, 0;
      if !running {
        if wb == 0 {
          status := statusReg;
        }
        return 0, 0;
      }
      var attributed := TakeStock(wb, statusReg, countReg);
      k := ServiceQueue(attributed);
    }
  }

  /** The count is that of the writeback word, or of the register if the word has
      none, less what this run has already accounted for, in 32 bits. */
  lemma AttributableMeans(engine: Engine, wb: U32, countReg: U32)
    requires engine.descDequeued < 0x1_0000_0000
    ensures var count := if wb % 0x100_0000 == 0 then countReg else wb % 0x100_0000;
            engine.Attributable(wb, countReg) ==
            count - engine.descDequeued + if engine.descDequeued <= count then 0 else 0x1_0000_0000
  {
  }

  /** The call after one that found BUSY: the descriptors of the completed head
      are not counted again, so nothing is left for the next transfer, which fails. */
  lemma NothingIsCountedTwice(engine: Engine, q: QState)
    requires Settled(q) && |q.queue| >= 2 && q.queue[0].descNum < 0x1_0000_0000
    requires engine.View() == AfterService(q, q.queue[0].descNum, false, false)
    ensures engine.running && engine.Attributable(0, q.queue[0].descNum) == 0 && Passed(engine.transferList, 0, 0) == 0
    ensures AfterService(engine.View(), engine.Attributable(0, q.queue[0].descNum), true, false).verdicts ==
            q.verdicts + [Verdict(q.queue[0], Completed), Verdict(q.queue[1], Failed)]
  {
    BusyServiceFailsNext(q);
  }

  /** Every verdict that a service call gives shows in the state of its transfer. */
  lemma VerdictsShow(engine: Engine, list: seq<Transfer>, k: nat, before: seq<Verdict>, was: seq<TransferState>)
    requires engine.Judged(list, k, before, was) && Distinct(list)
    ensures before <= engine.verdicts
    ensures forall v <- engine.verdicts[|before|..] :: v.transfer.state == v.state
    ensures forall j :: k < j < |list| ==> list[j].state == was[j]
  {
    var given := engine.verdicts[|before|..];
    assert given == AllCompleted(list, k) + [Verdict(list[k], engine.LastState())];
    forall i | 0 <= i < |given|
      ensures given[i].transfer.state == given[i].state
    {
      assert given[i].transfer == list[i];
    }
  }
}
