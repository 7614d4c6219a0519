/**
 The transfer queue of one engine, as values: what submitting a transfer and
 servicing the engine make of the queue, and what every run keeps.
 */
module Queue {
  import opened Transfers

  /** A transfer leaving the submitted state, and the state it goes to. */
  datatype Verdict = Verdict(transfer: Transfer, state: TransferState)

  /** The software state of an engine. Two histories come with it: the states
      given to transfers, and how often the device has been started. */
  datatype QState = QState(
    running: bool, shutdownRequest: bool, shutdownIdle: bool,
    queue: seq<Transfer>, dequeued: nat, verdicts: seq<Verdict>, starts: nat)

  /** The descriptors of the first n transfers. */
  function Prefix(queue: seq<Transfer>, n: nat): nat
    requires n <= |queue|
  {
    if n == 0 then 0 else Prefix(queue, n - 1) + queue[n - 1].descNum
  }

  /** From transfer i on, the first that `count` descriptors do not run past. */
  function Passed(queue: seq<Transfer>, i: nat, count: nat): (k: nat)
    requires i <= |queue|
    ensures i <= k <= |queue|
    decreases |queue| - i
  {
    if i == |queue| || count <= queue[i].descNum then i
    else Passed(queue, i + 1, count - queue[i].descNum)
  }

  /** engine_start */
  function Started(q: QState): QState
    requires !q.running && q.queue != []
  {
    q.(running := true, shutdownRequest := false, shutdownIdle := false, dequeued := 0, starts := q.starts + 1)
  }

  /** transfer_queue */
  function AfterSubmit(q: QState, t: Transfer): QState {
    if q.shutdownRequest then q
    else
      var queued := q.(queue := q.queue + [t]);
      if q.running then queued else Started(queued)
  }

  /** engine_service_resume */
  function Resumed(q: QState): QState {
    if q.running then q
    else if q.shutdownRequest then q.(shutdownIdle := true)
    else if q.queue != [] then Started(q)
    else q
  }

  function AllCompleted(queue: seq<Transfer>, k: nat): seq<Verdict>
    requires k <= |queue|
  {
    seq(k, i requires 0 <= i < k => Verdict(queue[i], Completed))
  }

  /** The first k transfers dequeued and completed. */
  function Listed(q: QState, k: nat): QState
    requires k <= |q.queue|
  {
    q.(queue := q.queue[k..], dequeued := q.dequeued + Prefix(q.queue, k),
       verdicts := q.verdicts + AllCompleted(q.queue, k))
  }

  /** The head dequeued and completed. */
  function Dequeued(q: QState): QState
    requires q.queue != []
  {
    var head := q.queue[0];
    q.(queue := q.queue[1..], dequeued := q.dequeued + head.descNum,
       verdicts := q.verdicts + [Verdict(head, Completed)])
  }

  lemma ListedMore(q: QState, k: nat)
    requires k < |q.queue|
    ensures Dequeued(Listed(q, k)) == Listed(q, k + 1)
    ensures Prefix(q.queue, k + 1) == Prefix(q.queue, k) + q.queue[k].descNum
  {
    assert AllCompleted(q.queue, k + 1) == AllCompleted(q.queue, k) + [Verdict(q.queue[k], Completed)];
  }

  /** engine_service_final_transfer, on the head of the queue */
  function AfterFinal(q: QState, count: nat, error: bool): QState
    requires q.queue != []
  {
    var head := q.queue[0];
    if error then q.(verdicts := q.verdicts + [Verdict(head, Failed)])
    else
      q.(queue := q.queue[1..], dequeued := q.dequeued + head.descNum,
         verdicts := q.verdicts + [Verdict(head, if count < head.descNum then Failed else Completed)])
  }

  /** `count` descriptors are accounted for, up to transfer k. */
  function Accounted(q: QState, k: nat, count: nat, error: bool): QState
    requires k < |q.queue| && Prefix(q.queue, k) <= count
  {
    AfterFinal(Listed(q, k), count - Prefix(q.queue, k), error)
  }

  /** engine_service on a running engine that accounts up to transfer k:
      `stopped` tells whether the engine was found idle (or reported a
      writeback), `error` whether the status the driver holds has an error bit. */
  function ServicedTo(q: QState, k: nat, count: nat, stopped: bool, error: bool): QState
    requires q.running && k < |q.queue| && Prefix(q.queue, k) <= count
  {
    Resumed(Accounted(q.(running := !stopped), k, count, error))
  }

  /** engine_service on a queue without cyclic transfers: it accounts as far as the count goes. */
  function AfterService(q: QState, count: nat, stopped: bool, error: bool): QState
    requires q.running && Passed(q.queue, 0, count) < |q.queue|
  {
    PassedAccounts(q.queue, 0, count);
    ServicedTo(q, Passed(q.queue, 0, count), count, stopped, error)
  }

  // ---- accounting ------------------------------------------------------------

  lemma {:induction false} PassedAccounts(queue: seq<Transfer>, i: nat, count: nat)
    requires i <= |queue|
    ensures var k := Passed(queue, i, count);
            && Prefix(queue, k) <= Prefix(queue, i) + count
            && (k > i ==> Prefix(queue, k) < Prefix(queue, i) + count)
            && (k < |queue| ==> Prefix(queue, i) + count <= Prefix(queue, k + 1))
    decreases |queue| - i
  {
    if i < |queue| && count > queue[i].descNum {
      PassedAccounts(queue, i + 1, count - queue[i].descNum);
    }
  }

  lemma {:induction false} PrefixMonotone(queue: seq<Transfer>, m: nat, n: nat)
    requires m <= n <= |queue|
    ensures Prefix(queue, m) <= Prefix(queue, n)
  {
    if m < n {
      PrefixMonotone(queue, m, n - 1);
    }
  }

  /** What the count runs past can be told from the prefix sums around it. */
  lemma PassedIsUnique(queue: seq<Transfer>, count: nat, k: nat)
    requires k <= |queue| && (k > 0 ==> Prefix(queue, k) < count)
    ensures k <= Passed(queue, 0, count)
    ensures k == |queue| || count <= Prefix(queue, k + 1) ==> k == Passed(queue, 0, count)
  {
    var p := Passed(queue, 0, count);
    PassedAccounts(queue, 0, count);
    if p < k {
      PrefixMonotone(queue, p + 1, k);
    } else if k < p {
      PrefixMonotone(queue, k + 1, p);
    }
  }

  /** The head is found within the queue exactly when the count is covered by
      the queued descriptors: only then does the null BUG_ON of the final
      transfer not fire. */
  lemma HeadFoundIffCovered(queue: seq<Transfer>, count: nat)
    requires queue != []
    ensures Passed(queue, 0, count) < |queue| <==> count <= Prefix(queue, |queue|)
  {
    var k := Passed(queue, 0, count);
    PassedAccounts(queue, 0, count);
    if k < |queue| {
      PrefixMonotone(queue, k + 1, |queue|);
    }
  }

  /** The retired prefix is the one that the prefix sums of the descriptor
      counts single out, and no other. */
  lemma ServiceIsPrefixSum(q: QState, count: nat, stopped: bool, k: nat)
    requires q.running && 1 <= count <= Prefix(q.queue, |q.queue|)
    requires k < |q.queue|
    ensures Passed(q.queue, 0, count) < |q.queue|
    ensures Passed(q.queue, 0, count) == k <==> Prefix(q.queue, k) < count <= Prefix(q.queue, k + 1)
    ensures Prefix(q.queue, k) < count <= Prefix(q.queue, k + 1) ==>
              var after := AfterService(q, count, stopped, false);
              && after.queue == q.queue[k + 1..]
              && after.verdicts == q.verdicts + AllCompleted(q.queue, k) +
                 [Verdict(q.queue[k], if count == Prefix(q.queue, k + 1) then Completed else Failed)]
  {
    var p := Passed(q.queue, 0, count);
    HeadFoundIffCovered(q.queue, count);
    PassedAccounts(q.queue, 0, count);
    if p < k {
      PrefixMonotone(q.queue, p + 1, k);
    } else if k < p {
      PrefixMonotone(q.queue, k + 1, p);
    }
    if p == k {
      assert q.queue[k..][1..] == q.queue[k + 1..];
    }
  }

  lemma FinalVerdict(q: QState, k: nat, count: nat, error: bool, after: QState)
    requires k < |q.queue| && Prefix(q.queue, k) <= count && after == Accounted(q, k, count, error)
    ensures after.verdicts != []
    ensures after.verdicts == q.verdicts + AllCompleted(q.queue, k) +
                              [Verdict(q.queue[k], after.verdicts[|after.verdicts| - 1].state)]
  {
  }

  /** No prefix that the count runs past exceeds it. */
  lemma PrefixWithin(queue: seq<Transfer>, count: nat, k: nat)
    requires k <= Passed(queue, 0, count)
    ensures Prefix(queue, k) <= count
  {
    PassedAccounts(queue, 0, count);
    PrefixMonotone(queue, k, Passed(queue, 0, count));
  }

  // ---- runs -------------------------------------------------------------------

  /** What happens to an engine: a request queues a transfer, or the engine is
      serviced after the device has executed `count` descriptors of its run. */
  datatype Event =
    | Submit(transfer: Transfer)
    | Service(count: nat)

  /** Each run of the device executes the list of the transfer it was started
      on, so it never counts past that transfer. */
  predicate Possible(q: QState, e: Event) {
    match e
    case Submit(t) => t.descNum > 0
    case Service(count) => q.running ==> q.queue != [] && count <= q.queue[0].descNum
  }

  /** One step: a service call finds BUSY clear and no error. */
  function Step(q: QState, e: Event): QState
    requires Possible(q, e)
  {
    match e
    case Submit(t) => AfterSubmit(q, t)
    case Service(count) => if q.running then AfterService(q, count, true, false) else q
  }

  ghost predicate PossibleRun(q: QState, events: seq<Event>)
    decreases |events|
  {
    events == [] || (Possible(q, events[0]) && PossibleRun(Step(q, events[0]), events[1..]))
  }

  ghost function Run(q: QState, events: seq<Event>): QState
    requires PossibleRun(q, events)
    decreases |events|
  {
    if events == [] then q else Run(Step(q, events[0]), events[1..])
  }

  /** The transfers submitted in a run, in order. */
  function Submitted(events: seq<Event>): seq<Transfer> {
    if events == [] then []
    else (if events[0].Submit? then [events[0].transfer] else []) + Submitted(events[1..])
  }

  function Retired(verdicts: seq<Verdict>): seq<Transfer> {
    seq(|verdicts|, i requires 0 <= i < |verdicts| => verdicts[i].transfer)
  }

  const IDLE: QState := QState(false, false, false, [], 0, [], 0)

  /** What holds whenever the engine lock is free. */
  ghost predicate Settled(q: QState) {
    && !q.shutdownRequest
    && (q.running <==> q.queue != [])
    && (q.running ==> q.dequeued == 0)
    && (forall t <- q.queue :: t.descNum > 0)
  }

  lemma StepKeepsSettled(q: QState, e: Event)
    requires Settled(q) && Possible(q, e)
    ensures Settled(Step(q, e))
    ensures Retired(Step(q, e).verdicts) + Step(q, e).queue ==
            Retired(q.verdicts) + q.queue + if e.Submit? then [e.transfer] else []
    ensures q.verdicts <= Step(q, e).verdicts
    ensures Step(q, e).verdicts ==
            if e.Submit? || !q.running then q.verdicts
            else q.verdicts + [Verdict(q.queue[0], if e.count == q.queue[0].descNum then Completed else Failed)]
  {
  }

  /** In every run: the queue runs whenever it has something to run, so nothing
      submitted is stranded; each transfer is retired at most once; retired
      transfers followed by queued ones are the submitted ones, in order. */
  lemma {:induction false} EveryRunKeepsOrder(q: QState, events: seq<Event>)
    requires Settled(q) && PossibleRun(q, events)
    ensures var end := Run(q, events);
            && Settled(end)
            && Retired(end.verdicts) + end.queue == Retired(q.verdicts) + q.queue + Submitted(events)
            && q.verdicts <= end.verdicts
    decreases |events|
  {
    if events == [] {
      assert Retired(q.verdicts) + q.queue + [] == Retired(q.verdicts) + q.queue;
    } else {
      var next := Step(q, events[0]);
      StepKeepsSettled(q, events[0]);
      EveryRunKeepsOrder(next, events[1..]);
      var mine := if events[0].Submit? then [events[0].transfer] else [];
      assert Retired(q.verdicts) + q.queue + mine + Submitted(events[1..])
          == Retired(q.verdicts) + q.queue + (mine + Submitted(events[1..]));
    }
  }

  ghost predicate Distinct(s: seq<Transfer>) {
    forall i, j :: 0 <= i < j < |s| ==> s[i] != s[j]
  }

  /** No transfer that was submitted once is given a state twice, or is given
      one and stays queued. */
  lemma RetiredOnce(events: seq<Event>)
    requires PossibleRun(IDLE, events) && Distinct(Submitted(events))
    ensures var end := Run(IDLE, events);
            && Distinct(Retired(end.verdicts))
            && forall t <- end.queue :: t !in Retired(end.verdicts)
  {
    QueueSafety(events);
    var end := Run(IDLE, events);
    var a, b := Retired(end.verdicts), end.queue;
    forall i, j | 0 <= i < j < |a|
      ensures a[i] != a[j]
    {
      assert (a + b)[i] == a[i] && (a + b)[j] == a[j];
    }
    forall i, j | 0 <= i < |a| && 0 <= j < |b|
      ensures a[i] != b[j]
    {
      assert (a + b)[i] == a[i] && (a + b)[|a| + j] == b[j];
    }
  }

  lemma QueueSafety(events: seq<Event>)
    requires PossibleRun(IDLE, events)
    ensures var end := Run(IDLE, events);
            && Retired(end.verdicts) + end.queue == Submitted(events)
            && (end.running <==> end.queue != [])
  {
    EveryRunKeepsOrder(IDLE, events);
    assert Retired(IDLE.verdicts) + IDLE.queue + Submitted(events) == Submitted(events);
  }

  // ---- where the code does not keep it ----------------------------------------

  /** A service call keeps what every run relies on exactly when it found the
      engine stopped. One that still sees BUSY unlinks the head all the same. */
  lemma BusyServiceCondition(q: QState, count: nat, stopped: bool)
    requires Settled(q) && q.running && count <= Prefix(q.queue, |q.queue|)
    ensures Passed(q.queue, 0, count) < |q.queue|
    ensures var after := AfterService(q, count, stopped, false);
            && (Settled(after) <==> stopped)
            && ((after.running <==> after.queue != []) <==> (stopped || Passed(q.queue, 0, count) + 1 < |q.queue|))
  {
    HeadFoundIffCovered(q.queue, count);
    PrefixPositive(q.queue, Passed(q.queue, 0, count) + 1);
  }

  lemma PrefixPositive(queue: seq<Transfer>, n: nat)
    requires 0 < n <= |queue| && (forall t <- queue :: t.descNum > 0)
    ensures Prefix(queue, n) > 0
  {
    assert queue[n - 1] in queue;
  }

  /** What it leads to: the device completes the head, is seen BUSY and then
      idle. The second service call finds no descriptors to account for and
      fails the next transfer, which the device was never started on. */
  lemma BusyServiceFailsNext(q: QState)
    requires Settled(q) && |q.queue| >= 2
    ensures var head, next := q.queue[0], q.queue[1];
            && Passed(q.queue, 0, head.descNum) == 0
            && var once := AfterService(q, head.descNum, false, false);
            && once.running && once.queue == q.queue[1..] && once.starts == q.starts
            && head.descNum - once.dequeued == 0 && Passed(once.queue, 0, 0) == 0
            && AfterService(once, 0, true, false).verdicts ==
               q.verdicts + [Verdict(head, Completed), Verdict(next, Failed)]
  {
    assert q.queue[0] in q.queue;
    assert q.queue[0..] == q.queue;
    var once := AfterService(q, q.queue[0].descNum, false, false);
    assert once.queue[0..] == once.queue;
    assert q.queue[1] in q.queue;
  }

  lemma RetiredAppend(verdicts: seq<Verdict>, queue: seq<Transfer>, k: nat, state: TransferState)
    requires k < |queue|
    ensures Retired(verdicts + AllCompleted(queue, k) + [Verdict(queue[k], state)]) ==
            Retired(verdicts) + queue[..k + 1]
  {
  }

  lemma OrderKept(before: seq<Transfer>, queue: seq<Transfer>, k: nat,
                  after: seq<Transfer>, rest: seq<Transfer>, error: bool)
    requires k < |queue| && after == before + queue[..k + 1]
    requires rest == if error then queue[k..] else queue[k + 1..]
    ensures after + rest == before + queue <==> !error
  {
    assert queue == queue[..k + 1] + queue[k + 1..];
    assert error ==> |after + rest| == |before + queue| + 1;
  }

  /** What any service call leaves, k transfers into the queue. */
  lemma ServiceLeaves(q: QState, count: nat, stopped: bool, error: bool, k: nat) returns (state: TransferState)
    requires q.running && !q.shutdownRequest && k == Passed(q.queue, 0, count) < |q.queue|
    ensures var after := AfterService(q, count, stopped, error);
            && after.queue == (if error then q.queue[k..] else q.queue[k + 1..])
            && after.running == (!stopped || after.queue != [])
            && after.starts == q.starts + (if stopped && after.queue != [] then 1 else 0)
            && after.verdicts == q.verdicts + AllCompleted(q.queue, k) + [Verdict(q.queue[k], state)]
    ensures error ==> state == Failed
  {
    PassedAccounts(q.queue, 0, count);
    var left := count - Prefix(q.queue, k);
    assert q.queue[k..][1..] == q.queue[k + 1..];
    state := if error || left < q.queue[k].descNum then Failed else Completed;
  }

  /** A service call keeps every submitted transfer in one of the two places
      exactly when the status shows no error: an error fails the transfer that
      the device was on and leaves it queued. The device is then started on it
      again exactly when it was found stopped; otherwise it is not started at all. */
  lemma ErrorServiceCondition(q: QState, count: nat, stopped: bool, error: bool)
    requires Settled(q) && q.running && count <= Prefix(q.queue, |q.queue|)
    ensures Passed(q.queue, 0, count) < |q.queue|
    ensures var k, after := Passed(q.queue, 0, count), AfterService(q, count, stopped, error);
            && (Retired(after.verdicts) + after.queue == Retired(q.verdicts) + q.queue <==> !error)
            && (error ==>
                  && after.queue == q.queue[k..] && after.running
                  && after.verdicts == q.verdicts + AllCompleted(q.queue, k) + [Verdict(q.queue[k], Failed)]
                  && after.starts == q.starts + if stopped then 1 else 0)
  {
    HeadFoundIffCovered(q.queue, count);
    var k, after := Passed(q.queue, 0, count), AfterService(q, count, stopped, error);
    var state := ServiceLeaves(q, count, stopped, error, k);
    RetiredAppend(q.verdicts, q.queue, k, state);
    OrderKept(Retired(q.verdicts), q.queue, k, Retired(after.verdicts), after.queue, error);
  }
}
