/**
 A synchronous read or write request: transfer_data cuts it into transfers,
 queues each on the engine, lets the device run and services the engine.
 */
module Requests {
  import opened Words
  import opened Descriptors
  import opened Coalescing
  import opened Transfers
  import opened Queue
  import opened Engines
  import opened Copying
  import Device

  const TRANSFER_MAX_BYTES: nat := 2048 * 4096

  /** What comes of one transfer after the device has executed some of its
      descriptors. A service call is made: by the interrupt, or in poll mode,
      where the writeback word may count the descriptors and flag an error; the
      status register reads as `status`. Or a signal ends the wait before that,
      or there is no memory for the transfer in the first place. */
  datatype Outcome =
    | Serviced(executed: nat, counted: bool, flagged: bool, status: bv32)
    | Signalled(executed: nat)
    | NotCreated

  /** Does the writeback word hold a count? */
  predicate HasCount(o: Outcome) {
    o.Serviced? && o.counted && o.executed > 0
  }

  /** The status that the service call goes by: the register, or what the
      driver read last if the writeback makes that read unnecessary. */
  function Used(o: Outcome, held: bv32): bv32
    requires o.Serviced?
  {
    if HasCount(o) && !o.flagged then held else o.status
  }

  /** The engine is found stopped. */
  predicate Stopped(o: Outcome, held: bv32)
    requires o.Serviced?
  {
    HasCount(o) || !IsBusy(Used(o, held))
  }

  /** The device has executed all n descriptors and no error shows. */
  predicate Flawless(o: Outcome, n: nat, held: bv32) {
    o.Serviced? && o.executed >= n && !HasError(Used(o, held))
  }

  /** A status that still shows BUSY shows an error, too. */
  predicate Regular(o: Outcome) {
    o.Serviced? ==> HasCount(o) || !IsBusy(o.status) || HasError(o.status)
  }

  /** The writeback word, for a transfer of n descriptors. */
  function Word(o: Outcome, n: nat): U32
    requires o.Serviced? && n < 0x100_0000
  {
    (if o.counted then Least(o.executed, n) else 0) + (if o.flagged then 0x8000_0000 else 0)
  }

  lemma WordSplits(o: Outcome, n: nat)
    requires o.Serviced? && n < 0x100_0000
    ensures WritebackCount(Word(o, n)) == (if o.counted then Least(o.executed, n) else 0)
    ensures WritebackError(Word(o, n)) == o.flagged
  {
  }

  /** The engine can take a transfer. */
  ghost predicate Idle(e: Engine)
    reads e
  {
    !e.running && e.transferList == [] && !e.shutdownRequest
  }

  /** The transfer failed by an error is still queued; the device has been
      started on it again, if it was found stopped. */
  ghost predicate LeftQueued(e: Engine, t: Transfer, restarted: bool)
    reads e
  {
    e.running && e.transferList == [t] && e.runStop == restarted && (restarted ==> e.Programmed())
  }

  /** What the device does to memory when it is started on a table and executes
      at most `budget` descriptors. */
  function DeviceRun(table: seq<Desc>, bus: nat, first: nat, extra: nat, budget: nat,
                     toDevice: bool, m: Spaces): Spaces
  {
    Execute(table, Device.Run(Device.ReadAll(table), bus, first, extra, |table|), budget, toDevice, m)
  }

  lemma DeviceRunCopiesBlocks(p: Plan, bus: nat, budget: nat, m: Spaces)
    requires Fits(p) && 0 < |p.blocks|
    requires bus % 4096 == 0 && DescAddress(bus, |p.blocks|) <= TWO_TO_64
    ensures DeviceRun(CompiledTable(p, bus), bus, bus, Device.FirstExtra(|p.blocks|), budget, p.toDevice, m)
         == CopyBlocks(p, Least(budget, |p.blocks|), m)
  {
    Device.DeviceRunsCompiledTable(p, bus, |p.blocks|);
    ExecuteCompiled(p, bus, budget, m);
  }

  /** Servicing an engine that runs its only transfer retires that transfer,
      unless the status shows an error. */
  lemma SingleService(q: QState, t: Transfer, count: nat, stopped: bool, error: bool)
    requires q.running && q.queue == [t] && !q.shutdownRequest && count <= t.descNum
    ensures Passed(q.queue, 0, count) == 0
    ensures var after := ServicedTo(q, 0, count, stopped, error);
            && !after.shutdownRequest && after.running == (error || !stopped)
            && after.queue == (if error then [t] else [])
            && after.verdicts == q.verdicts + [Verdict(t, if error || count < t.descNum then Failed else Completed)]
  {
  }

  /** The transfer is the only one that the engine has, and it is running it. */
  ghost predicate RunsOnly(e: Engine, t: Transfer)
    reads e, t
  {
    && e.running && e.transferList == [t] && e.descDequeued == 0 && !e.shutdownRequest
    && t.state == Submitted && !t.cyclic && 0 < t.descNum < 0x100_0000
  }

  /** The engine and its only transfer after the service call. */
  ghost predicate JudgedOnly(e: Engine, t: Transfer, o: Outcome, held: bv32)
    reads e, t
    requires o.Serviced?
  {
    && e.status == Used(o, held) && t.state == (if Flawless(o, t.descNum, held) then Completed else Failed)
    && (if HasError(Used(o, held)) then LeftQueued(e, t, Stopped(o, held))
        else e.transferList == [] && !e.shutdownRequest && e.running == !Stopped(o, held))
  }

  /** What a service call is handed: the count it will find, and how it will judge the engine. */
  lemma CallReads(engine: Engine, t: Transfer, o: Outcome)
    requires RunsOnly(engine, t) && o.Serviced?
    ensures var wb, executed := Word(o, t.descNum), Least(o.executed, t.descNum);
            && engine.Attributable(wb, executed) == executed && WritebackError(wb) == o.flagged
            && engine.StatusUsed(wb, o.status) == Used(o, engine.status)
            && engine.FoundStopped(wb, o.status) == Stopped(o, engine.status)
            && Accountable(engine.transferList, executed)
  {
    WordSplits(o, t.descNum);
  }

  lemma JudgedFollows(engine: Engine, t: Transfer, o: Outcome, held: bv32, q: QState, was: seq<TransferState>)
    requires q.running && q.queue == [t] && !q.shutdownRequest && o.Serviced? && engine.status == Used(o, held)
    requires engine.View() ==
             ServicedTo(q, 0, Least(o.executed, t.descNum), Stopped(o, held), HasError(engine.status))
    requires HasError(engine.status) ==> engine.runStop == Stopped(o, held)
    requires Stopped(o, held) && engine.running ==> engine.Programmed()
    requires engine.Judged([t], 0, q.verdicts, was)
    ensures JudgedOnly(engine, t, o, held)
  {
    SingleService(q, t, Least(o.executed, t.descNum), Stopped(o, held), HasError(engine.status));
    assert engine.LastState() == if Flawless(o, t.descNum, held) then Completed else Failed;
    assert Distinct(q.queue) && q.queue[0] == t;
  }

  /** A service call on it. One that goes by the writeback word completes a
      transfer that is executed to its end exactly if the status read last
      shows no error. */
  method ServiceOnly(engine: Engine, t: Transfer, outcome: Outcome) returns (rc: int)
    requires RunsOnly(engine, t) && outcome.Serviced?
    modifies engine, t`state
    ensures rc == (if outcome.flagged then -1 else 0) && JudgedOnly(engine, t, outcome, old(engine.status))
    ensures var counts := outcome.counted && outcome.executed > 0;
            var stopped, error := counts || engine.status & 1 == 0, HasError(engine.status);
            && engine.status == (if counts && !outcome.flagged then old(engine.status) else outcome.status)
            && t.state == (if outcome.executed >= t.descNum && !error then Completed else Failed)
            && engine.transferList == (if error then [t] else []) && engine.running == (error || !stopped)
            && (error ==> engine.runStop == stopped)
  {
    ghost var q, held, was := engine.View(), engine.status, States(engine.transferList);
    var wb, executed := Word(outcome, t.descNum), Least(outcome.executed, t.descNum);
    CallReads(engine, t, outcome);
    ghost var k;
    rc, k := engine.Service(wb, outcome.status, executed);
    JudgedFollows(engine, t, outcome, held, q, was);
    StatusBits(engine.status);
  }

  /** transfer_monitor: in interrupt mode, the wait for the service call or a
      signal; in poll mode, the service call itself. */
  method Monitor(engine: Engine, t: Transfer, outcome: Outcome) returns (rc: int)
    requires RunsOnly(engine, t) && !outcome.NotCreated?
    modifies engine, t`state
    ensures if outcome.Signalled? then
              && rc == -ERESTARTSYS && t.state == Submitted && engine.running && engine.transferList == [t]
              && engine.status == old(engine.status)
            else
              rc == (if outcome.flagged then -1 else 0) && JudgedOnly(engine, t, outcome, old(engine.status))
  {
    if outcome.Signalled? {
      return -ERESTARTSYS;
    }
    rc := ServiceOnly(engine, t, outcome);
  }

  /** One transfer: queue it, let the device execute what its start registers
      and the table say, and wait. After an error, what the device does when it
      is started again comes later. */
  method RunTransfer(engine: Engine, t: Transfer, ghost p: Plan, outcome: Outcome, m: Spaces)
    returns (rc: int, m': Spaces)
    requires Idle(engine) && t.state == New && !t.cyclic && !outcome.NotCreated?
    requires 0 < |p.blocks| == t.descNum == t.descAdjacent <= t.table.Length && t.toDevice == p.toDevice
    requires t.table[..t.descNum] == CompiledTable(p, t.descBus) && Fits(p)
    requires t.descBus % 4096 == 0 && DescAddress(t.descBus, t.descNum) <= TWO_TO_64
    requires t.descNum < 0x100_0000
    modifies engine, t`state
    ensures m' == CopyBlocks(p, Least(outcome.executed, t.descNum), m)
    ensures if outcome.Signalled? then
              && rc == -ERESTARTSYS && t.state == Submitted && engine.running && engine.transferList == [t]
              && engine.status == old(engine.status)
            else
              rc == (if outcome.flagged then -1 else 0) && JudgedOnly(engine, t, outcome, old(engine.status))
  {
    var queued := engine.Submit(t);
    assert engine.transferList == [t];
    JoinHalves(t.descBus);
    m' := DeviceRun(t.table[..t.descNum], t.descBus, Join(engine.firstDescLow, engine.firstDescHigh),
                    engine.firstDescAdjacent, outcome.executed, t.toDevice, m);
    DeviceRunCopiesBlocks(p, t.descBus, outcome.executed, m);
    rc := Monitor(engine, t, outcome);
  }

  // ---- transfer_data ------------------------------------------------------------

  /** Chunk i of a request starts here; 8388608 is TRANSFER_MAX_BYTES. */
  function ChunkStart(i: nat): nat {
    i * 8388608
  }

  /** The plan of the chunk that starts after n bytes. */
  function ChunkPlan(r: Request, count: nat, n: nat): Plan
    requires n < count
  {
    RangePlan(After(r, n), Least(count - n, TRANSFER_MAX_BYTES))
  }

  /** How the engine behaves in a request: the status that was read last when
      it comes, and what comes of each chunk's transfer. */
  datatype Conduct = Conduct(held: bv32, outcome: nat -> Outcome)

  /** The status that the driver holds when chunk i is queued. */
  function StatusBefore(c: Conduct, i: nat): bv32 {
    if i == 0 then c.held
    else if c.outcome(i - 1).Serviced? then Used(c.outcome(i - 1), StatusBefore(c, i - 1))
    else StatusBefore(c, i - 1)
  }

  /** Chunk i is executed to its end without an error. */
  predicate Full(r: Request, count: nat, c: Conduct, i: nat)
    requires ChunkStart(i) < count
  {
    Flawless(c.outcome(i), |ChunkPlan(r, count, ChunkStart(i)).blocks|, StatusBefore(c, i))
  }

  /** Every chunk of the request is. */
  ghost predicate AllFull(r: Request, count: nat, c: Conduct) {
    forall i :: 0 <= i && ChunkStart(i) < count ==> Full(r, count, c, i)
  }

  /** What the caller of a request must provide: addresses in range, a size
      that a ssize_t holds, page-aligned descriptor memory and, for a read, a
      buffer without shared frames. */
  ghost predicate Sound(r: Request, count: nat, tables: nat -> nat) {
    && count < 0x8000_0000_0000_0000 && r.buf + count < TWO_TO_64 && r.pos + count <= TWO_TO_64
    && DistinctFrames(r, count)
    && forall i :: tables(i) % 4096 == 0 && DescAddress(tables(i), 2050) <= TWO_TO_64
  }

  lemma ChunkShape(r: Request, count: nat, n: nat)
    requires n < count && r.pos + count <= TWO_TO_64
    ensures Covers(ChunkPlan(r, count, n), After(r, n), Least(count - n, TRANSFER_MAX_BYTES))
    ensures 0 < |ChunkPlan(r, count, n).blocks| <= 2049
  {
    var len := Least(count - n, TRANSFER_MAX_BYTES);
    RangePlanCovers(After(r, n), len);
    ChunkFitsWritebackCount(r.frameOf, r.buf + n, len);
  }

  /** The transfer for the chunk that starts after n bytes. */
  method MakeChunk(r: Request, count: nat, n: nat, bus: nat) returns (t: Transfer)
    requires n < count && r.buf + count < TWO_TO_64 && r.pos + count <= TWO_TO_64
    requires DescAddress(bus, 2050) <= TWO_TO_64
    ensures fresh(t) && fresh(t.table) && t.state == New && !t.cyclic && t.descBus == bus && t.toDevice == r.toDevice
    ensures 0 < |ChunkPlan(r, count, n).blocks| == t.descNum == t.descAdjacent <= t.table.Length && t.descNum <= 2049
    ensures t.table[..t.descNum] == CompiledTable(ChunkPlan(r, count, n), bus)
  {
    ChunkShape(r, count, n);
    var len := Least(count - n, TRANSFER_MAX_BYTES);
    t := TransferCreate(r.buf + n, len, r.pos + n, r.toDevice, !r.advance, false, true, r.frameOf, bus);
  }

  /** One round of transfer_data's loop, up to the result it leaves. */
  method RunChunk(engine: Engine, r: Request, count: nat, n: nat, bus: nat, outcome: Outcome,
                  ghost m0: Spaces, m: Spaces) returns (res: int, m': Spaces, ghost x: nat)
    requires Idle(engine) && Regular(outcome) && n < count && Carried(r, count, n, m0, m)
    requires r.buf + count < TWO_TO_64 && r.pos + count <= TWO_TO_64 && DistinctFrames(r, count)
    requires bus % 4096 == 0 && DescAddress(bus, 2050) <= TWO_TO_64
    modifies engine
    ensures Carried(r, count, n + x, m0, m') && x <= Least(count - n, TRANSFER_MAX_BYTES)
    ensures res ==
            if Flawless(outcome, |ChunkPlan(r, count, n).blocks|, old(engine.status)) then 0
            else if outcome.Signalled? then -ERESTARTSYS else -EIO
    ensures res == 0 ==>
              && Idle(engine) && engine.status == Used(outcome, old(engine.status))
              && x == Least(count - n, TRANSFER_MAX_BYTES)
  {
    if outcome.NotCreated? {
      return -EIO, m, 0;
    }
    ghost var p := ChunkPlan(r, count, n);
    ghost var executed := Least(outcome.executed, |p.blocks|);
    ChunkShape(r, count, n);
    var t := MakeChunk(r, count, n, bus);
    var rc;
    rc, m' := RunTransfer(engine, t, p, outcome, m);
    x := Total(p.blocks, executed);
    CarriesOn(r, count, n, Least(count - n, TRANSFER_MAX_BYTES), p, executed, m0, m);
    res := 0;
    if t.state != Submitted {
      if t.state != Completed {
        res := -EIO;
      }
    } else if rc != 0 {
      res := -ERESTARTSYS;
    }
  }

  /** The first i chunks are full. */
  ghost predicate FullBefore(r: Request, count: nat, c: Conduct, i: nat) {
    forall k :: 0 <= k < i && ChunkStart(k) < count ==> Full(r, count, c, k)
  }

  ghost predicate FirstNotFull(r: Request, count: nat, c: Conduct, i: nat) {
    ChunkStart(i) < count && FullBefore(r, count, c, i) && !Full(r, count, c, i)
  }

  /** The first chunk that was not full ended by a signal. */
  ghost predicate Interrupted(r: Request, count: nat, c: Conduct) {
    exists i: nat :: FirstNotFull(r, count, c, i) && c.outcome(i).Signalled?
  }

  /** Chunk i was the first that was not executed to its end without an error:
      the request reports what the chunks before that one moved, and chunk i
      may have moved more, from its start on. */
  ghost predicate FailedAt(r: Request, count: nat, c: Conduct, i: nat, pos: nat, moved: nat, res: int) {
    && ChunkStart(i) < count && pos == r.pos + ChunkStart(i)
    && ChunkStart(i) <= moved <= Least(count, ChunkStart(i + 1))
    && FirstNotFull(r, count, c, i)
    && res == if c.outcome(i).Signalled? then -ERESTARTSYS else -EIO
  }

  /** After i rounds: all chunks so far were full, or the last one was not. */
  ghost predicate Progress(r: Request, count: nat, c: Conduct, i: nat, done: nat, moved: nat, res: int) {
    if res == 0 then
      done == moved == Least(count, ChunkStart(i)) && FullBefore(r, count, c, i)
    else
      i > 0 && FailedAt(r, count, c, i - 1, r.pos + done, moved, res)
  }

  lemma ProgressStep(r: Request, count: nat, c: Conduct, i: nat, done: nat, x: nat, res: int)
    requires Progress(r, count, c, i, done, done, 0) && done < count
    requires x <= Least(count - done, TRANSFER_MAX_BYTES)
    requires var n := |ChunkPlan(r, count, done).blocks|;
             res == if Flawless(c.outcome(i), n, StatusBefore(c, i)) then 0
                    else if c.outcome(i).Signalled? then -ERESTARTSYS else -EIO
    requires res == 0 ==> x == Least(count - done, TRANSFER_MAX_BYTES)
    ensures Progress(r, count, c, i + 1, if res == 0 then done + x else done, done + x, res)
    ensures res == 0 ==> StatusBefore(c, i + 1) == Used(c.outcome(i), StatusBefore(c, i))
  {
  }

  /** The request ended at its first chunk that was not full. */
  ghost predicate FailedSomewhere(r: Request, count: nat, c: Conduct, pos: nat, moved: nat, res: int) {
    exists i: nat :: FailedAt(r, count, c, i, pos, moved, res)
  }

  lemma OnlyOneFirst(r: Request, count: nat, c: Conduct, i: nat)
    requires FirstNotFull(r, count, c, i)
    ensures Interrupted(r, count, c) <==> c.outcome(i).Signalled?
  {
    forall j: nat | FirstNotFull(r, count, c, j)
      ensures j == i
    {
    }
  }

  lemma ProgressEnds(r: Request, count: nat, c: Conduct, i: nat, done: nat, pos: nat, moved: nat, res: int)
    requires Progress(r, count, c, i, done, moved, res) && (res == 0 ==> done >= count) && pos == r.pos + done
    ensures res == 0 <==> AllFull(r, count, c)
    ensures res == 0 ==> done == moved == count
    ensures res != 0 ==>
              FailedSomewhere(r, count, c, pos, moved, res) && res == if Interrupted(r, count, c) then -512 else -5
  {
    if res != 0 {
      OnlyOneFirst(r, count, c, i - 1);
      assert FailedAt(r, count, c, i - 1, pos, moved, res);
    } else {
      forall k | 0 <= k && ChunkStart(k) < count
        ensures Full(r, count, c, k)
      {
        assert k < i;
      }
    }
  }

  /** A round that extends the progress of the request. */
  method NextChunk(engine: Engine, r: Request, count: nat, done: nat, tables: nat -> nat, i: nat, c: Conduct,
                   ghost m0: Spaces, m: Spaces)
    returns (res: int, m': Spaces, ghost moved: nat)
    requires Idle(engine) && engine.status == StatusBefore(c, i) && Regular(c.outcome(i))
    requires Sound(r, count, tables) && done < count
    requires Carried(r, count, done, m0, m) && Progress(r, count, c, i, done, done, 0)
    modifies engine
    ensures Carried(r, count, moved, m0, m') && (res == 0 ==> Idle(engine) && engine.status == StatusBefore(c, i + 1))
    ensures Progress(r, count, c, i + 1,
                     if res == 0 then done + Least(count - done, TRANSFER_MAX_BYTES) else done, moved, res)
  {
    ghost var x;
    res, m', x := RunChunk(engine, r, count, done, tables(i), c.outcome(i), m0, m);
    ProgressStep(r, count, c, i, done, x, res);
    moved := done + x;
  }

  /** transfer_data, by the engine's only submitter. `tables` are the addresses
      that the descriptor tables get. `moved` is how many bytes reached their
      destination. */
  method TransferData(engine: Engine, r: Request, count: nat, tables: nat -> nat, c: Conduct, m: Spaces)
    returns (res: int, pos: nat, m': Spaces, ghost moved: nat)
    requires Idle(engine) && engine.status == c.held && forall i :: Regular(c.outcome(i))
    requires Sound(r, count, tables)
    modifies engine
    ensures Carried(r, count, moved, m, m')
    ensures res >= 0 <==> AllFull(r, count, c)
    ensures res >= 0 ==> res == count == moved && pos == r.pos + count && Idle(engine)
    ensures res < 0 ==>
              FailedSomewhere(r, count, c, pos, moved, res) && res == if Interrupted(r, count, c) then -512 else -5
  {
    res, pos, m', moved := 0, r.pos, m, 0;
    var remaining: int, done: nat := count, 0;
    var i: nat := 0;
    while res == 0 && remaining > 0
      invariant pos == r.pos + done && Carried(r, count, moved, m, m')
      invariant Progress(r, count, c, i, done, moved, res)
      invariant res == 0 ==>
                  remaining == count - done && moved == done && Idle(engine) && engine.status == StatusBefore(c, i)
      decreases res == 0, remaining
    {
      var transferLen: nat := if remaining > TRANSFER_MAX_BYTES then TRANSFER_MAX_BYTES else remaining;
      res, m', moved := NextChunk(engine, r, count, done, tables, i, c, m, m');
      if res != 0 {
        transferLen := 0;
        remaining := 0;
      }
      remaining := remaining - transferLen;
      done := done + transferLen;
      pos := pos + transferLen;
      i := i + 1;
    }
    ProgressEnds(r, count, c, i, done, pos, moved, res);
    if res == 0 {
      res := done;
    }
  }
}
