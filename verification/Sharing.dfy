/**
 Several submitters on one engine, in interrupt mode: each cuts its own request
 into chunks and waits for one transfer at a time, while the device works off
 the queue that they share. A state machine over the steps of the submitters,
 the device and the service work.
 */
module Sharing {
  import opened Words
  import opened Coalescing
  import opened Transfers
  import opened Queue
  import opened Copying
  import opened Requests
  import Device

  /** A submitter's request. */
  datatype Party = Party(request: Request, count: nat)

  /** Where a submitter is in transfer_data: about to queue a chunk, waiting for
      its transfer, or done with it. */
  datatype Phase = Ready | Waiting(transfer: Transfer) | Returned(res: int)

  datatype Progress = Progress(done: nat, phase: Phase)

  /** Whose a queued transfer is, and what it moves. */
  datatype Job = Job(owner: nat, plan: Plan)

  /** `jobs` go with the queued transfers. The device has executed `executed`
      descriptors since it was started, with memory as in `base`. A history
      comes with it: how many bytes of each request had been moved then. */
  datatype State = State(queue: QState, jobs: seq<Job>, subs: seq<Progress>,
                         base: Spaces, executed: nat, landed: seq<nat>)

  datatype Step =
    | Enqueue(i: nat, transfer: Transfer)   // a submitter queues the transfer of its next chunk
    | NoMemory(i: nat)                      // there is no memory for that transfer
    | Advance                               // the device executes one more descriptor
    | Service                               // the device has stopped; the engine is serviced
    | Wake(i: nat)                          // a submitter finds its transfer completed or failed
    | Signal(i: nat)                        // a submitter is interrupted by a signal

  /** The state of a transfer: the last that it was given. */
  function StateOf(verdicts: seq<Verdict>, t: Transfer): TransferState {
    if verdicts == [] then TransferState.Submitted
    else
      var last := verdicts[|verdicts| - 1];
      if last.transfer == t then last.state else StateOf(verdicts[..|verdicts| - 1], t)
  }

  function ChunkLength(party: Party, done: nat): nat {
    if done < party.count then Least(party.count - done, TRANSFER_MAX_BYTES) else 0
  }

  /** The transfer has the descriptors of this plan, in memory as it is allocated. */
  predicate TransferFor(t: Transfer, p: Plan) {
    t.descNum == |p.blocks| && t.descBus % 4096 == 0 && DescAddress(t.descBus, 2050) <= TWO_TO_64
  }

  /** What the device has made of memory: it was started on the head of the queue. */
  function Visible(s: State): Spaces {
    if s.queue.running && s.queue.queue != [] && s.jobs != [] then
      var t, p := s.queue.queue[0], s.jobs[0].plan;
      DeviceRun(CompiledTable(p, t.descBus), t.descBus, Join(Low(t.descBus), High(t.descBus)),
                Device.FirstExtra(t.descNum), s.executed, p.toDevice, s.base)
    else s.base
  }

  /** The engine runs the head of its queue, not past its end. */
  predicate RunsHead(s: State) {
    && s.queue.running && s.queue.queue != [] && s.jobs != [] && s.executed <= s.queue.queue[0].descNum
    && s.executed <= |s.jobs[0].plan.blocks| && s.jobs[0].owner < |s.landed|
  }

  predicate Enabled(team: seq<Party>, s: State, step: Step) {
    match step
    case Enqueue(i, t) =>
      && i < |team| && i < |s.subs| && s.subs[i].phase.Ready? && s.subs[i].done < team[i].count
      && TransferFor(t, ChunkPlan(team[i].request, team[i].count, s.subs[i].done))
      && t !in s.queue.queue && StateOf(s.queue.verdicts, t) == TransferState.Submitted
    case NoMemory(i) => i < |team| && i < |s.subs| && s.subs[i].phase.Ready?
    case Advance => RunsHead(s) && s.executed < s.queue.queue[0].descNum
    case Service => RunsHead(s)
    case Wake(i) =>
      && i < |team| && i < |s.subs| && s.subs[i].phase.Waiting?
      && StateOf(s.queue.verdicts, s.subs[i].phase.transfer) != TransferState.Submitted
    case Signal(i) =>
      && i < |team| && i < |s.subs| && s.subs[i].phase.Waiting?
      && StateOf(s.queue.verdicts, s.subs[i].phase.transfer) == TransferState.Submitted
  }

  /** A submitter that has moved n bytes goes on, or returns. */
  function GoesOn(party: Party, n: nat): Progress {
    Progress(n, if n >= party.count then Returned(n) else Ready)
  }

  /** transfer_data after its wait: a transfer that is not completed is an error. */
  function Woken(party: Party, sub: Progress, state: TransferState): Progress {
    if state == Completed then GoesOn(party, sub.done + ChunkLength(party, sub.done))
    else sub.(phase := Returned(-EIO))
  }

  function AfterEnqueue(team: seq<Party>, s: State, i: nat, t: Transfer): State
    requires Enabled(team, s, Enqueue(i, t))
  {
    s.(queue := AfterSubmit(s.queue, t),
       jobs := s.jobs + [Job(i, ChunkPlan(team[i].request, team[i].count, s.subs[i].done))],
       subs := s.subs[i := s.subs[i].(phase := Waiting(t))])
  }

  function AfterServiceStep(s: State): State
    requires RunsHead(s)
  {
    var job := s.jobs[0];
    State(Queue.Step(s.queue, Queue.Service(s.executed)), s.jobs[1..], s.subs, Visible(s), 0,
          s.landed[job.owner := s.landed[job.owner] + Total(job.plan.blocks, s.executed)])
  }

  function Next(team: seq<Party>, s: State, step: Step): State
    requires Enabled(team, s, step)
  {
    match step
    case Enqueue(i, t) => AfterEnqueue(team, s, i, t)
    case NoMemory(i) => s.(subs := s.subs[i := s.subs[i].(phase := Returned(-EIO))])
    case Advance => s.(executed := s.executed + 1)
    case Service => AfterServiceStep(s)
    case Wake(i) =>
      s.(subs := s.subs[i := Woken(team[i], s.subs[i], StateOf(s.queue.verdicts, s.subs[i].phase.transfer))])
    case Signal(i) => s.(subs := s.subs[i := s.subs[i].(phase := Returned(-ERESTARTSYS))])
  }

  function Initial(team: seq<Party>, m: Spaces): State {
    State(IDLE, [], seq(|team|, i requires 0 <= i < |team| => GoesOn(team[i], 0)), m, 0, seq(|team|, _ => 0))
  }

  ghost predicate IsRun(team: seq<Party>, s: State, steps: seq<Step>)
    decreases |steps|
  {
    steps == [] || (Enabled(team, s, steps[0]) && IsRun(team, Next(team, s, steps[0]), steps[1..]))
  }

  ghost function Final(team: seq<Party>, s: State, steps: seq<Step>): State
    requires IsRun(team, s, steps)
    decreases |steps|
  {
    if steps == [] then s else Final(team, Next(team, s, steps[0]), steps[1..])
  }

  // ---- the bytes of several requests -------------------------------------------------

  /** Where byte k of a request goes, and where it comes from. */
  function Dest(r: Request, k: nat): nat {
    if r.toDevice then r.pos + k else Bus(r.frameOf, r.buf + k)
  }

  function Source(r: Request, k: nat): nat {
    if r.toDevice then Bus(r.frameOf, r.buf + k) else r.pos + k
  }

  /** The memory that an engine of this direction writes, and the one that it reads. */
  function Written(toDevice: bool, m: Spaces): Memory {
    if toDevice then m.card else m.host
  }

  function ReadFrom(toDevice: bool, m: Spaces): Memory {
    if toDevice then m.host else m.card
  }

  /** The two requests share no byte of the memory that is written. */
  ghost predicate Apart(a: Party, b: Party) {
    forall k, l :: 0 <= k < a.count && 0 <= l < b.count ==> Dest(a.request, k) != Dest(b.request, l)
  }

  /** Requests that one engine can serve, in incrementing mode, each of them
      sound and apart from the others. */
  ghost predicate GoodTeam(team: seq<Party>, toDevice: bool) {
    && (forall i :: 0 <= i < |team| ==>
          var r := team[i].request;
          && r.advance && r.toDevice == toDevice && r.buf + team[i].count < TWO_TO_64
          && r.pos + team[i].count <= TWO_TO_64 && DistinctFrames(r, team[i].count))
    && (forall i, j :: 0 <= i < |team| && 0 <= j < |team| && i != j ==> Apart(team[i], team[j]))
  }

  /** Byte k of the request is where it was to go. */
  ghost predicate Arrived(r: Request, k: nat, was: Spaces, now: Spaces) {
    Written(r.toDevice, now)(Dest(r, k)) == ReadFrom(r.toDevice, was)(Source(r, k))
  }

  /** Among the first n[i] bytes of each request, none goes to this address. */
  ghost predicate Untouched(team: seq<Party>, n: seq<nat>, a: nat)
    requires |n| == |team|
  {
    forall i, k :: 0 <= i < |team| && 0 <= k < n[i] ==> Dest(team[i].request, k) != a
  }

  /** Exactly the first n[i] bytes of each request have been moved. */
  ghost predicate AllMoved(team: seq<Party>, toDevice: bool, n: seq<nat>, was: Spaces, now: Spaces)
    requires |n| == |team|
  {
    && ReadFrom(toDevice, now) == ReadFrom(toDevice, was)
    && (forall i, k :: 0 <= i < |team| && 0 <= k < n[i] ==> Arrived(team[i].request, k, was, now))
    && (forall a: nat :: Untouched(team, n, a) ==> Written(toDevice, now)(a) == Written(toDevice, was)(a))
  }

  /** What Moved says of a part of a request, in these terms. */
  lemma MovedPart(r: Request, n: nat, x: nat, was: Spaces, now: Spaces)
    requires Moved(After(r, n), x, was, now)
    ensures ReadFrom(r.toDevice, now) == ReadFrom(r.toDevice, was)
    ensures forall k :: n <= k < n + x ==> Arrived(r, k, was, now)
  {
    forall k | n <= k < n + x
      ensures Arrived(r, k, was, now)
    {
      if r.toDevice {
        assert now.card(r.pos + k) == was.host(Bus(r.frameOf, r.buf + n + (k - n)));
      } else {
        assert now.host(Bus(r.frameOf, r.buf + k)) == was.card(r.pos + n + (k - n));
      }
    }
  }

  lemma MovedKeeps(r: Request, n: nat, x: nat, was: Spaces, now: Spaces, a: nat)
    requires Moved(After(r, n), x, was, now)
    requires forall k :: n <= k < n + x ==> Dest(r, k) != a
    ensures Written(r.toDevice, now)(a) == Written(r.toDevice, was)(a)
  {
    if r.toDevice {
      assert r.pos + n <= a < r.pos + n + x ==> Dest(r, a - r.pos) == a;
    } else {
      forall v | r.buf + n <= v < r.buf + n + x
        ensures Bus(r.frameOf, v) != a
      {
        assert Dest(r, v - r.buf) != a;
      }
      assert Outside(After(r, n), x, a);
    }
  }

  /** Two bytes of a request go to different places. */
  lemma DestInjective(party: Party, k: nat, l: nat)
    requires DistinctFrames(party.request, party.count) && k < l < party.count
    ensures Dest(party.request, k) != Dest(party.request, l)
  {
    var r := party.request;
    if !r.toDevice {
      BusInjective(r, party.count, r.buf + k, r.buf + l);
    }
  }

  /** A byte that has been moved stays when x more bytes of request i are. */
  lemma MovedByteStays(team: seq<Party>, toDevice: bool, n: seq<nat>, i: nat, x: nat,
                       m0: Spaces, m1: Spaces, m2: Spaces, j: nat, k: nat)
    requires GoodTeam(team, toDevice) && |n| == |team| && i < |team| && n[i] + x <= team[i].count
    requires Moved(After(team[i].request, n[i]), x, m1, m2)
    requires j < |team| && k < n[j] <= team[j].count && Arrived(team[j].request, k, m0, m1)
    ensures Arrived(team[j].request, k, m0, m2)
  {
    var r, a := team[i].request, Dest(team[j].request, k);
    forall l | n[i] <= l < n[i] + x
      ensures Dest(r, l) != a
    {
      if i == j {
        DestInjective(team[i], k, l);
      } else {
        assert Apart(team[i], team[j]);
      }
    }
    MovedKeeps(r, n[i], x, m1, m2, a);
  }

  /** Moving x more bytes of request i adds them to what has been moved. */
  lemma AllMovedMore(team: seq<Party>, toDevice: bool, n: seq<nat>, i: nat, x: nat, m0: Spaces, m1: Spaces, m2: Spaces)
    requires GoodTeam(team, toDevice) && |n| == |team| && i < |team| && n[i] + x <= team[i].count
    requires forall j :: 0 <= j < |team| ==> n[j] <= team[j].count
    requires AllMoved(team, toDevice, n, m0, m1) && Moved(After(team[i].request, n[i]), x, m1, m2)
    ensures AllMoved(team, toDevice, n[i := n[i] + x], m0, m2)
  {
    var n', r := n[i := n[i] + x], team[i].request;
    MovedPart(r, n[i], x, m1, m2);
    forall j, k | 0 <= j < |team| && 0 <= k < n'[j]
      ensures Arrived(team[j].request, k, m0, m2)
    {
      if k < n[j] {
        MovedByteStays(team, toDevice, n, i, x, m0, m1, m2, j, k);
      } else {
        assert Arrived(r, k, m1, m2);
      }
    }
    forall a: nat | Untouched(team, n', a)
      ensures Written(toDevice, m2)(a) == Written(toDevice, m0)(a)
    {
      UntouchedMeans(team, n, i, x, a);
      MovedKeeps(r, n[i], x, m1, m2, a);
    }
  }

  lemma UntouchedMeans(team: seq<Party>, n: seq<nat>, i: nat, x: nat, a: nat)
    requires |n| == |team| && i < |team| && Untouched(team, n[i := n[i] + x], a)
    ensures Untouched(team, n, a)
    ensures forall k :: n[i] <= k < n[i] + x ==> Dest(team[i].request, k) != a
  {
    var n' := n[i := n[i] + x];
    forall j, k | 0 <= j < |team| && 0 <= k < n[j]
      ensures Dest(team[j].request, k) != a
    {
      assert k < n'[j];
    }
    forall k | n[i] <= k < n[i] + x
      ensures Dest(team[i].request, k) != a
    {
      assert k < n'[i];
    }
  }

  // ---- what every step keeps ----------------------------------------------------------

  /** A queued transfer is for the chunk that its owner has come to, of which
      nothing has been moved; the owner waits for it or has been interrupted. */
  predicate JobFits(party: Party, sub: Progress, landed: nat, job: Job, t: Transfer) {
    && landed == sub.done < party.count && job.plan == ChunkPlan(party.request, party.count, sub.done)
    && TransferFor(t, job.plan)
    && (sub.phase == Waiting(t) || sub.phase == Returned(-ERESTARTSYS))
  }

  ghost predicate Jobs(team: seq<Party>, s: State) {
    && |s.subs| == |s.landed| == |team| && |s.jobs| == |s.queue.queue|
    && (forall j :: 0 <= j < |s.jobs| ==> s.jobs[j].owner < |team|)
    && (forall j :: 0 <= j < |s.jobs| ==>
          var o := s.jobs[j].owner;
          JobFits(team[o], s.subs[o], s.landed[o], s.jobs[j], s.queue.queue[j]))
    && (forall i, j :: 0 <= i < j < |s.jobs| ==> s.jobs[i].owner != s.jobs[j].owner)
  }

  /** What a submitter's progress says of the bytes moved: all of its chunks so
      far, and a part of the one that it has come to. */
  predicate SubFits(party: Party, sub: Progress, landed: nat, state: TransferState) {
    var len := ChunkLength(party, sub.done);
    && sub.done <= party.count && sub.done <= landed <= sub.done + len
    && match sub.phase
       case Ready => sub.done < party.count && landed == sub.done
       case Waiting(_) =>
         && sub.done < party.count
         && (state == Completed ==> landed == sub.done + len)
         && (state == TransferState.Failed ==> landed < sub.done + len)
         && (state == TransferState.Submitted ==> landed == sub.done)
         && (state == Completed || state == TransferState.Failed || state == TransferState.Submitted)
       case Returned(res) =>
         && (res == -EIO ==> landed < sub.done + len)
         && (if res >= 0 then res == sub.done == party.count else res == -EIO || res == -ERESTARTSYS)
  }

  /** The state of the transfer that a submitter waits for. */
  function Awaited(s: State, i: nat): TransferState
    requires i < |s.subs|
  {
    if s.subs[i].phase.Waiting? then StateOf(s.queue.verdicts, s.subs[i].phase.transfer) else TransferState.Submitted
  }

  ghost predicate Subs(team: seq<Party>, s: State) {
    && |s.subs| == |s.landed| == |team|
    && forall i :: 0 <= i < |team| ==> SubFits(team[i], s.subs[i], s.landed[i], Awaited(s, i))
  }

  /** Queued transfers have no verdict and are each in one place; a transfer that
      is waited for is its waiter's, and queued until it has a verdict. */
  ghost predicate Tracked(s: State) {
    && |s.jobs| == |s.queue.queue|
    && Distinct(s.queue.queue)
    && (forall j :: 0 <= j < |s.queue.queue| ==>
          StateOf(s.queue.verdicts, s.queue.queue[j]) == TransferState.Submitted)
    && (forall i :: 0 <= i < |s.subs| && s.subs[i].phase.Waiting? ==> Found(s, i, s.subs[i].phase.transfer))
  }

  ghost predicate Found(s: State, i: nat, t: Transfer)
    requires |s.jobs| == |s.queue.queue|
  {
    && (forall j :: 0 <= j < |s.queue.queue| && s.queue.queue[j] == t ==> s.jobs[j].owner == i)
    && (t in s.queue.queue || StateOf(s.queue.verdicts, t) != TransferState.Submitted)
  }

  ghost predicate Good(team: seq<Party>, toDevice: bool, m0: Spaces, s: State) {
    && Settled(s.queue) && Jobs(team, s) && Subs(team, s) && Tracked(s)
    && s.executed <= (if s.queue.queue == [] then 0 else s.queue.queue[0].descNum)
    && AllMoved(team, toDevice, s.landed, m0, s.base)
  }

  lemma InitiallyGood(team: seq<Party>, toDevice: bool, m: Spaces)
    ensures Good(team, toDevice, m, Initial(team, m))
  {
    var s := Initial(team, m);
    forall a: nat | Untouched(team, s.landed, a)
      ensures Written(toDevice, s.base)(a) == Written(toDevice, m)(a)
    {
    }
  }

  lemma StateAfter(verdicts: seq<Verdict>, v: Verdict, t: Transfer)
    ensures StateOf(verdicts + [v], t) == if v.transfer == t then v.state else StateOf(verdicts, t)
  {
    assert (verdicts + [v])[..|verdicts|] == verdicts;
  }

  /** While anything is queued the engine runs its head, and what the device has
      executed is a count that the queue can be serviced with. */
  lemma CountIsPossible(team: seq<Party>, toDevice: bool, m0: Spaces, s: State)
    requires Good(team, toDevice, m0, s)
    ensures RunsHead(s) <==> s.queue.queue != []
    ensures RunsHead(s) ==> Possible(s.queue, Queue.Service(s.executed))
  {
  }

  /** The device has copied the blocks of the head's plan up to where it is. */
  lemma RunCopies(s: State)
    requires RunsHead(s) && TransferFor(s.queue.queue[0], s.jobs[0].plan)
    requires Fits(s.jobs[0].plan) && 0 < |s.jobs[0].plan.blocks| <= 2049
    ensures Visible(s) == CopyBlocks(s.jobs[0].plan, s.executed, s.base)
  {
    var bus := s.queue.queue[0].descBus;
    JoinHalves(bus);
    DeviceRunCopiesBlocks(s.jobs[0].plan, bus, s.executed, s.base);
  }

  /** The first e blocks of the chunk that a submitter has come to. */
  lemma ChunkMoves(party: Party, n: nat, p: Plan, e: nat, m: Spaces) returns (x: nat)
    requires n < party.count && p == ChunkPlan(party.request, party.count, n) && e <= |p.blocks|
    requires party.request.advance && DistinctFrames(party.request, party.count)
    requires party.request.pos + party.count <= TWO_TO_64
    ensures Fits(p) && 0 < |p.blocks| <= 2049
    ensures x == Total(p.blocks, e) <= ChunkLength(party, n) && (x == ChunkLength(party, n) <==> e == |p.blocks|)
    ensures Moved(After(party.request, n), x, m, CopyBlocks(p, e, m))
  {
    ChunkShape(party.request, party.count, n);
    RestMoves(party.request, party.count, n, ChunkLength(party, n), p, e, m);
    x := Total(p.blocks, e);
    PartIsLess(p, e);
  }

  /** What the run of the device so far has moved: part of the chunk of the owner. */
  lemma RunMoves(team: seq<Party>, toDevice: bool, m0: Spaces, s: State) returns (x: nat)
    requires GoodTeam(team, toDevice) && Good(team, toDevice, m0, s) && RunsHead(s)
    ensures var o := s.jobs[0].owner;
            && o < |team| && x == Total(s.jobs[0].plan.blocks, s.executed) <= ChunkLength(team[o], s.subs[o].done)
            && (x == ChunkLength(team[o], s.subs[o].done) <==> s.executed == s.queue.queue[0].descNum)
            && AllMoved(team, toDevice, s.landed[o := s.landed[o] + x], m0, Visible(s))
  {
    LandedWithin(team, s);
    var o := s.jobs[0].owner;
    x := HeadMoves(team[o], s.subs[o], s.landed[o], s);
    AllMovedMore(team, toDevice, s.landed, o, x, m0, s.base, Visible(s));
  }

  lemma HeadMoves(party: Party, sub: Progress, landed: nat, s: State) returns (x: nat)
    requires RunsHead(s) && JobFits(party, sub, landed, s.jobs[0], s.queue.queue[0])
    requires party.request.advance && DistinctFrames(party.request, party.count)
    requires party.request.pos + party.count <= TWO_TO_64
    ensures x == Total(s.jobs[0].plan.blocks, s.executed) <= ChunkLength(party, sub.done)
    ensures x == ChunkLength(party, sub.done) <==> s.executed == s.queue.queue[0].descNum
    ensures Moved(After(party.request, landed), x, s.base, Visible(s))
  {
    x := ChunkMoves(party, landed, s.jobs[0].plan, s.executed, s.base);
    RunCopies(s);
  }

  lemma LandedWithin(team: seq<Party>, s: State)
    requires Subs(team, s)
    ensures forall i :: 0 <= i < |team| ==> s.landed[i] <= team[i].count
  {
    forall i | 0 <= i < |team|
      ensures s.landed[i] <= team[i].count
    {
      assert SubFits(team[i], s.subs[i], s.landed[i], Awaited(s, i));
    }
  }

  lemma PartIsLess(p: Plan, e: nat)
    requires Fits(p) && e <= |p.blocks|
    ensures Total(p.blocks, e) <= Total(p.blocks, |p.blocks|)
    ensures Total(p.blocks, e) == Total(p.blocks, |p.blocks|) <==> e == |p.blocks|
  {
    if e < |p.blocks| {
      TotalMonotone(p.blocks, e + 1, |p.blocks|);
      assert SizeFits(p.blocks[e]);
    }
  }

  // ---- a service call -------------------------------------------------------------------

  /** The verdict on a head of which the device has executed `count` descriptors. */
  function HeadVerdict(q: QState, count: nat): Verdict
    requires q.queue != []
  {
    Verdict(q.queue[0], if count == q.queue[0].descNum then Completed else TransferState.Failed)
  }

  /** A service call takes the head off the queue and judges it. */
  lemma ServiceTakesHead(q: QState, count: nat)
    requires Settled(q) && q.queue != [] && count <= q.queue[0].descNum
    ensures var after := Queue.Step(q, Queue.Service(count));
            && Settled(after) && after.queue == q.queue[1..]
            && after.verdicts == q.verdicts + [HeadVerdict(q, count)]
  {
    StepKeepsSettled(q, Queue.Service(count));
    assert Passed(q.queue, 0, count) == 0 && q.queue[0..] == q.queue;
  }

  lemma ServiceKeepsJobs(team: seq<Party>, toDevice: bool, m0: Spaces, s: State)
    requires GoodTeam(team, toDevice) && Good(team, toDevice, m0, s) && RunsHead(s)
    ensures Jobs(team, AfterServiceStep(s))
  {
    ServiceTakesHead(s.queue, s.executed);
    var t, o := AfterServiceStep(s), s.jobs[0].owner;
    forall j | 0 <= j < |t.jobs|
      ensures t.jobs[j].owner < |team| && t.jobs[j].owner != o
      ensures JobFits(team[t.jobs[j].owner], t.subs[t.jobs[j].owner], t.landed[t.jobs[j].owner],
                      t.jobs[j], t.queue.queue[j])
    {
      assert t.jobs[j] == s.jobs[j + 1] && t.queue.queue[j] == s.queue.queue[j + 1];
    }
  }

  lemma ServiceKeepsTracked(team: seq<Party>, toDevice: bool, m0: Spaces, s: State)
    requires Good(team, toDevice, m0, s) && RunsHead(s)
    ensures Tracked(AfterServiceStep(s))
  {
    ServiceTakesHead(s.queue, s.executed);
    var t, head := AfterServiceStep(s), s.queue.queue[0];
    var v := t.queue.verdicts[|s.queue.verdicts|];
    forall j | 0 <= j < |t.queue.queue|
      ensures StateOf(t.queue.verdicts, t.queue.queue[j]) == TransferState.Submitted
    {
      StateAfter(s.queue.verdicts, v, s.queue.queue[j + 1]);
    }
    forall i | 0 <= i < |t.subs| && t.subs[i].phase.Waiting?
      ensures Found(t, i, t.subs[i].phase.transfer)
    {
      ServiceKeepsFound(s, v, i);
    }
  }

  lemma ServiceKeepsFound(s: State, v: Verdict, i: nat)
    requires Settled(s.queue) && RunsHead(s) && |s.jobs| == |s.queue.queue|
    requires i < |s.subs| && s.subs[i].phase.Waiting? && Found(s, i, s.subs[i].phase.transfer)
    requires v == HeadVerdict(s.queue, s.executed)
    ensures Found(AfterServiceStep(s), i, s.subs[i].phase.transfer)
  {
    ServiceTakesHead(s.queue, s.executed);
    var t, x := AfterServiceStep(s), s.subs[i].phase.transfer;
    StateAfter(s.queue.verdicts, v, x);
    assert s.queue.queue == [s.queue.queue[0]] + t.queue.queue;
  }

  lemma ServiceKeepsSub(team: seq<Party>, toDevice: bool, m0: Spaces, s: State, x: nat, i: nat)
    requires Good(team, toDevice, m0, s) && RunsHead(s) && i < |team|
    requires var o := s.jobs[0].owner;
             && x == Total(s.jobs[0].plan.blocks, s.executed) <= ChunkLength(team[o], s.subs[o].done)
             && (x == ChunkLength(team[o], s.subs[o].done) <==> s.executed == s.queue.queue[0].descNum)
    ensures var t := AfterServiceStep(s);
            |t.landed| == |team| && SubFits(team[i], t.subs[i], t.landed[i], Awaited(t, i))
  {
    ServiceTakesHead(s.queue, s.executed);
    var o, head := s.jobs[0].owner, s.queue.queue[0];
    assert JobFits(team[o], s.subs[o], s.landed[o], s.jobs[0], head);
    assert SubFits(team[i], s.subs[i], s.landed[i], Awaited(s, i));
    if s.subs[i].phase.Waiting? {
      assert Found(s, i, s.subs[i].phase.transfer);
      StateAfter(s.queue.verdicts, HeadVerdict(s.queue, s.executed), s.subs[i].phase.transfer);
    }
  }

  lemma ServiceKeepsGood(team: seq<Party>, toDevice: bool, m0: Spaces, s: State)
    requires GoodTeam(team, toDevice) && Good(team, toDevice, m0, s) && RunsHead(s)
    ensures Good(team, toDevice, m0, AfterServiceStep(s))
  {
    ServiceTakesHead(s.queue, s.executed);
    ServiceKeepsJobs(team, toDevice, m0, s);
    ServiceKeepsTracked(team, toDevice, m0, s);
    var x := RunMoves(team, toDevice, m0, s);
    forall i | 0 <= i < |team|
      ensures var t := AfterServiceStep(s); SubFits(team[i], t.subs[i], t.landed[i], Awaited(t, i))
    {
      ServiceKeepsSub(team, toDevice, m0, s, x, i);
    }
  }

  // ---- the steps of the submitters --------------------------------------------------------

  lemma EnqueueAppends(q: QState, t: Transfer)
    requires Settled(q) && t.descNum > 0
    ensures var after := AfterSubmit(q, t);
            Settled(after) && after.queue == q.queue + [t] && after.verdicts == q.verdicts
    ensures AfterSubmit(q, t) == Queue.Step(q, Queue.Submit(t))
  {
  }

  lemma EnqueueKeepsJobs(team: seq<Party>, s: State, i: nat, t: Transfer)
    requires Settled(s.queue) && Jobs(team, s) && Subs(team, s) && Enabled(team, s, Enqueue(i, t)) && t.descNum > 0
    ensures Jobs(team, AfterEnqueue(team, s, i, t))
  {
    EnqueueAppends(s.queue, t);
    assert SubFits(team[i], s.subs[i], s.landed[i], Awaited(s, i));
    forall j | 0 <= j < |s.jobs|
      ensures s.jobs[j].owner != i
    {
      var o := s.jobs[j].owner;
      assert JobFits(team[o], s.subs[o], s.landed[o], s.jobs[j], s.queue.queue[j]);
    }
  }

  lemma EnqueueKeepsTracked(team: seq<Party>, s: State, i: nat, t: Transfer)
    requires Settled(s.queue) && Jobs(team, s) && Tracked(s) && Enabled(team, s, Enqueue(i, t)) && t.descNum > 0
    ensures Tracked(AfterEnqueue(team, s, i, t))
  {
    EnqueueAppends(s.queue, t);
    var s' := AfterEnqueue(team, s, i, t);
    forall k | 0 <= k < |s'.subs| && s'.subs[k].phase.Waiting?
      ensures Found(s', k, s'.subs[k].phase.transfer)
    {
      if k != i {
        assert Found(s, k, s.subs[k].phase.transfer);
      }
    }
  }

  lemma EnqueueKeepsGood(team: seq<Party>, toDevice: bool, m0: Spaces, s: State, i: nat, t: Transfer)
    requires GoodTeam(team, toDevice) && Good(team, toDevice, m0, s) && Enabled(team, s, Enqueue(i, t))
    ensures Good(team, toDevice, m0, AfterEnqueue(team, s, i, t))
  {
    ChunkShape(team[i].request, team[i].count, s.subs[i].done);
    EnqueueAppends(s.queue, t);
    EnqueueKeepsJobs(team, s, i, t);
    EnqueueKeepsTracked(team, s, i, t);
    var s' := AfterEnqueue(team, s, i, t);
    forall k | 0 <= k < |team|
      ensures SubFits(team[k], s'.subs[k], s'.landed[k], Awaited(s', k))
    {
      assert SubFits(team[k], s.subs[k], s.landed[k], Awaited(s, k));
    }
  }

  /** A submitter that leaves its wait, or its loop: its progress stays right,
      and its transfer, if it is still queued, an interrupted one. */
  lemma LeavingKeepsGood(team: seq<Party>, toDevice: bool, m0: Spaces, s: State, i: nat, sub: Progress)
    requires Good(team, toDevice, m0, s) && i < |team| && !s.subs[i].phase.Returned?
    requires SubFits(team[i], sub, s.landed[i], TransferState.Submitted) && !sub.phase.Waiting?
    requires s.subs[i].phase.Waiting? && s.subs[i].phase.transfer in s.queue.queue ==>
               sub == s.subs[i].(phase := Returned(-ERESTARTSYS))
    ensures Good(team, toDevice, m0, s.(subs := s.subs[i := sub]))
  {
    var s' := s.(subs := s.subs[i := sub]);
    forall k | 0 <= k < |team|
      ensures SubFits(team[k], s'.subs[k], s'.landed[k], Awaited(s', k))
    {
      assert SubFits(team[k], s.subs[k], s.landed[k], Awaited(s, k));
    }
    forall j | 0 <= j < |s.jobs|
      ensures var o := s.jobs[j].owner; JobFits(team[o], s'.subs[o], s.landed[o], s.jobs[j], s.queue.queue[j])
    {
      var o := s.jobs[j].owner;
      assert JobFits(team[o], s.subs[o], s.landed[o], s.jobs[j], s.queue.queue[j]);
    }
    forall k | 0 <= k < |s'.subs| && s'.subs[k].phase.Waiting?
      ensures Found(s', k, s'.subs[k].phase.transfer)
    {
      assert Found(s, k, s.subs[k].phase.transfer);
    }
  }

  lemma WakeKeepsGood(team: seq<Party>, toDevice: bool, m0: Spaces, s: State, i: nat)
    requires Good(team, toDevice, m0, s) && Enabled(team, s, Wake(i))
    ensures Good(team, toDevice, m0, Next(team, s, Wake(i)))
  {
    assert SubFits(team[i], s.subs[i], s.landed[i], Awaited(s, i));
    assert s.subs[i].phase.transfer !in s.queue.queue;
    LeavingKeepsGood(team, toDevice, m0, s, i, Woken(team[i], s.subs[i], Awaited(s, i)));
  }

  lemma SignalKeepsGood(team: seq<Party>, toDevice: bool, m0: Spaces, s: State, i: nat)
    requires Good(team, toDevice, m0, s) && Enabled(team, s, Signal(i))
    ensures Good(team, toDevice, m0, Next(team, s, Signal(i)))
  {
    assert SubFits(team[i], s.subs[i], s.landed[i], Awaited(s, i));
    LeavingKeepsGood(team, toDevice, m0, s, i, s.subs[i].(phase := Returned(-ERESTARTSYS)));
  }

  lemma NoMemoryKeepsGood(team: seq<Party>, toDevice: bool, m0: Spaces, s: State, i: nat)
    requires Good(team, toDevice, m0, s) && Enabled(team, s, NoMemory(i))
    ensures Good(team, toDevice, m0, Next(team, s, NoMemory(i)))
  {
    assert SubFits(team[i], s.subs[i], s.landed[i], Awaited(s, i));
    LeavingKeepsGood(team, toDevice, m0, s, i, s.subs[i].(phase := Returned(-EIO)));
  }

  lemma StepKeepsGood(team: seq<Party>, toDevice: bool, m0: Spaces, s: State, step: Step)
    requires GoodTeam(team, toDevice) && Good(team, toDevice, m0, s) && Enabled(team, s, step)
    ensures Good(team, toDevice, m0, Next(team, s, step))
  {
    match step
    case Enqueue(i, t) => EnqueueKeepsGood(team, toDevice, m0, s, i, t);
    case Service => ServiceKeepsGood(team, toDevice, m0, s);
    case Wake(i) => WakeKeepsGood(team, toDevice, m0, s, i);
    case Signal(i) => SignalKeepsGood(team, toDevice, m0, s, i);
    case NoMemory(i) => NoMemoryKeepsGood(team, toDevice, m0, s, i);
    case Advance =>
  }

  // ---- every run ----------------------------------------------------------------------------

  lemma {:induction false} EveryRunIsGood(team: seq<Party>, toDevice: bool, m0: Spaces, s: State, steps: seq<Step>)
    requires GoodTeam(team, toDevice) && Good(team, toDevice, m0, s) && IsRun(team, s, steps)
    ensures Good(team, toDevice, m0, Final(team, s, steps))
    decreases |steps|
  {
    if steps != [] {
      StepKeepsGood(team, toDevice, m0, s, steps[0]);
      EveryRunIsGood(team, toDevice, m0, Next(team, s, steps[0]), steps[1..]);
    }
  }

  /** Of a request, n bytes have been moved: its chunks so far and a part of the
      one that it has come to. If it has returned its size, that is all of it;
      if it has returned -EIO, the device left that chunk unfinished. */
  predicate Accounts(party: Party, sub: Progress, n: nat) {
    && sub.done <= n <= sub.done + ChunkLength(party, sub.done) <= party.count
    && match sub.phase
       case Ready => n == sub.done < party.count
       case Waiting(_) => sub.done < party.count
       case Returned(res) =>
         if res >= 0 then res == sub.done == n == party.count
         else if res == -EIO then n < sub.done + ChunkLength(party, sub.done)
         else res == -ERESTARTSYS
  }

  /** In every interleaving of the submitters, the device and the service work,
      the memory as the device has left it is the one in which exactly the first
      n[i] bytes of each request have been moved, and each submitter's progress
      accounts for its n[i]. */
  lemma SharedFlatCopy(team: seq<Party>, toDevice: bool, m: Spaces, steps: seq<Step>) returns (n: seq<nat>)
    requires GoodTeam(team, toDevice) && IsRun(team, Initial(team, m), steps)
    ensures var s := Final(team, Initial(team, m), steps);
            && |n| == |team| == |s.subs| && AllMoved(team, toDevice, n, m, Visible(s))
            && forall i :: 0 <= i < |team| ==> Accounts(team[i], s.subs[i], n[i])
  {
    InitiallyGood(team, toDevice, m);
    EveryRunIsGood(team, toDevice, m, Initial(team, m), steps);
    n := GoodMeans(team, toDevice, m, Final(team, Initial(team, m), steps));
  }

  lemma GoodMeans(team: seq<Party>, toDevice: bool, m: Spaces, s: State) returns (n: seq<nat>)
    requires GoodTeam(team, toDevice) && Good(team, toDevice, m, s)
    ensures |n| == |team| == |s.subs| && AllMoved(team, toDevice, n, m, Visible(s))
    ensures forall i :: 0 <= i < |team| ==> Accounts(team[i], s.subs[i], n[i])
  {
    CountIsPossible(team, toDevice, m, s);
    n := s.landed;
    if RunsHead(s) {
      var o := s.jobs[0].owner;
      assert JobFits(team[o], s.subs[o], s.landed[o], s.jobs[0], s.queue.queue[0]);
      var x := RunMoves(team, toDevice, m, s);
      n := n[o := n[o] + x];
    }
    forall i | 0 <= i < |team|
      ensures Accounts(team[i], s.subs[i], n[i])
    {
      assert SubFits(team[i], s.subs[i], s.landed[i], Awaited(s, i));
    }
  }

  /** So a request that has returned its size has been carried out, byte for
      byte, whatever the other submitters do then and later. */
  lemma RequestDelivered(team: seq<Party>, toDevice: bool, m: Spaces, steps: seq<Step>, i: nat)
    requires GoodTeam(team, toDevice) && IsRun(team, Initial(team, m), steps) && i < |team|
    ensures var s := Final(team, Initial(team, m), steps);
            && i < |s.subs|
            && (s.subs[i].phase.Returned? && s.subs[i].phase.res >= 0 ==>
                  && s.subs[i].phase.res == team[i].count
                  && forall k :: 0 <= k < team[i].count ==> Arrived(team[i].request, k, m, Visible(s)))
  {
    var n := SharedFlatCopy(team, toDevice, m, steps);
    assert Accounts(team[i], Final(team, Initial(team, m), steps).subs[i], n[i]);
  }

  /** A submitter that is ready can queue any transfer that fits its chunk and
      that neither has been queued nor been judged. */
  lemma ReadyCanEnqueue(team: seq<Party>, toDevice: bool, m0: Spaces, s: State, i: nat, t: Transfer)
    requires Good(team, toDevice, m0, s) && i < |team| && s.subs[i].phase.Ready?
    requires t.descNum == |ChunkPlan(team[i].request, team[i].count, s.subs[i].done).blocks|
    requires t.descBus % 4096 == 0 && t.descBus + 32 * 2050 <= TWO_TO_64
    requires t !in s.queue.queue && t !in Retired(s.queue.verdicts)
    ensures Enabled(team, s, Enqueue(i, t)) && Enabled(team, s, NoMemory(i))
    ensures s.subs[i].done < team[i].count && Awaited(Next(team, s, Enqueue(i, t)), i) == TransferState.Submitted
  {
    assert SubFits(team[i], s.subs[i], s.landed[i], Awaited(s, i));
    NeverJudged(s.queue.verdicts, t);
    EnqueueAppends(s.queue, t);
  }

  /** A submitter that waits can be woken exactly when its transfer is no longer
      queued, and be interrupted by a signal exactly while it is. */
  lemma WaiterCanLeave(team: seq<Party>, toDevice: bool, m0: Spaces, s: State, i: nat)
    requires Good(team, toDevice, m0, s) && i < |team| && s.subs[i].phase.Waiting?
    ensures Enabled(team, s, Wake(i)) <==> s.subs[i].phase.transfer !in s.queue.queue
    ensures Enabled(team, s, Signal(i)) <==> s.subs[i].phase.transfer in s.queue.queue
  {
    assert Found(s, i, s.subs[i].phase.transfer);
  }

  lemma {:induction false} NeverJudged(verdicts: seq<Verdict>, t: Transfer)
    requires t !in Retired(verdicts)
    ensures StateOf(verdicts, t) == TransferState.Submitted
    decreases |verdicts|
  {
    if verdicts != [] {
      var n := |verdicts| - 1;
      assert Retired(verdicts)[n] == verdicts[n].transfer;
      assert Retired(verdicts) == Retired(verdicts[..n]) + [verdicts[n].transfer];
      NeverJudged(verdicts[..n], t);
    }
  }

  // ---- what requests return -------------------------------------------------------------------

  /** A submitter whose transfer has failed, or for which there is no memory,
      returns -EIO; one whose transfer is completed goes on by its chunk. */
  lemma WokenReturns(team: seq<Party>, s: State, i: nat)
    ensures Enabled(team, s, NoMemory(i)) ==> Next(team, s, NoMemory(i)).subs[i].phase == Returned(-5)
    ensures Enabled(team, s, Wake(i)) ==>
              var before, after := s.subs[i], Next(team, s, Wake(i)).subs[i];
              if StateOf(s.queue.verdicts, before.phase.transfer) == Completed then
                && after.done == before.done + ChunkLength(team[i], before.done)
                && after.phase == if after.done >= team[i].count then Returned(after.done) else Ready
              else after == before.(phase := Returned(-5))
  {
  }

  /** A submitter has returned -ERESTARTSYS exactly if a signal interrupted it:
      every other error is -EIO. */
  lemma {:induction false} InterruptedIffSignalled(team: seq<Party>, s: State, steps: seq<Step>, i: nat)
    requires IsRun(team, s, steps) && i < |s.subs|
    ensures var t := Final(team, s, steps);
            && |t.subs| == |s.subs|
            && (t.subs[i].phase == Returned(-512) <==> s.subs[i].phase == Returned(-512) || Signal(i) in steps)
    decreases |steps|
  {
    if steps != [] {
      InterruptedIffSignalled(team, Next(team, s, steps[0]), steps[1..], i);
    }
  }

  /** The events that a step is for the queue. */
  function EventsOf(s: State, step: Step): seq<Event> {
    match step
    case Enqueue(_, t) => [Event.Submit(t)]
    case Service => [Event.Service(s.executed)]
    case _ => []
  }

  lemma StepIsEvent(team: seq<Party>, toDevice: bool, m0: Spaces, s: State, step: Step)
    requires GoodTeam(team, toDevice) && Good(team, toDevice, m0, s) && Enabled(team, s, step)
    ensures var events, next := EventsOf(s, step), Next(team, s, step).queue;
            if events == [] then next == s.queue
            else Possible(s.queue, events[0]) && next == Queue.Step(s.queue, events[0])
  {
    if step.Enqueue? {
      ChunkShape(team[step.i].request, team[step.i].count, s.subs[step.i].done);
      EnqueueAppends(s.queue, step.transfer);
    }
  }

  /** The counts that the device comes to on the compiled tables are ones that
      the queue's runs allow for: every run here is a run of the queue. */
  lemma {:induction false} QueueRuns(team: seq<Party>, toDevice: bool, m0: Spaces, s: State, steps: seq<Step>)
    returns (events: seq<Event>)
    requires GoodTeam(team, toDevice) && Good(team, toDevice, m0, s) && IsRun(team, s, steps)
    ensures PossibleRun(s.queue, events) && Run(s.queue, events) == Final(team, s, steps).queue
    decreases |steps|
  {
    if steps == [] {
      return [];
    }
    StepIsEvent(team, toDevice, m0, s, steps[0]);
    StepKeepsGood(team, toDevice, m0, s, steps[0]);
    var rest := QueueRuns(team, toDevice, m0, Next(team, s, steps[0]), steps[1..]);
    events := EventsOf(s, steps[0]) + rest;
    if EventsOf(s, steps[0]) == [] {
      assert events == rest;
    } else {
      assert events[1..] == rest;
    }
  }

  // ---- when requests succeed ------------------------------------------------------------------

  /** No signal comes, there is memory for each transfer, and the device never stops before the end of a transfer. */
  ghost predicate Undisturbed(team: seq<Party>, s: State, steps: seq<Step>)
    requires IsRun(team, s, steps)
    decreases |steps|
  {
    steps == [] ||
    (&& !steps[0].Signal? && !steps[0].NoMemory?
     && (steps[0].Service? ==> s.executed == s.queue.queue[0].descNum)
     && Undisturbed(team, Next(team, s, steps[0]), steps[1..]))
  }

  ghost predicate NoFailures(s: State) {
    && (forall v <- s.queue.verdicts :: v.state == Completed)
    && (forall sub <- s.subs :: sub.phase.Returned? ==> sub.phase.res >= 0)
  }

  lemma {:induction false} StateIsGiven(verdicts: seq<Verdict>, t: Transfer)
    requires forall v <- verdicts :: v.state == Completed
    ensures StateOf(verdicts, t) in {TransferState.Submitted, Completed}
    decreases |verdicts|
  {
    if verdicts != [] {
      assert verdicts[|verdicts| - 1] in verdicts;
      StateIsGiven(verdicts[..|verdicts| - 1], t);
    }
  }

  lemma StepKeepsNoFailures(team: seq<Party>, s: State, step: Step)
    requires Settled(s.queue) && Enabled(team, s, step) && (step.Enqueue? ==> step.transfer.descNum > 0)
    requires NoFailures(s) && !step.Signal? && !step.NoMemory?
    requires step.Service? ==> s.executed == s.queue.queue[0].descNum
    ensures NoFailures(Next(team, s, step))
  {
    match step
    case Enqueue(i, t) => EnqueueAppends(s.queue, t);
    case Service => ServiceTakesHead(s.queue, s.executed);
    case Wake(i) => StateIsGiven(s.queue.verdicts, s.subs[i].phase.transfer);
    case _ =>
  }

  lemma {:induction false} UndisturbedRunsSucceed(team: seq<Party>, toDevice: bool, m0: Spaces, s: State,
                                                  steps: seq<Step>)
    requires GoodTeam(team, toDevice) && Good(team, toDevice, m0, s) && NoFailures(s)
    requires IsRun(team, s, steps) && Undisturbed(team, s, steps)
    ensures NoFailures(Final(team, s, steps))
    decreases |steps|
  {
    if steps != [] {
      if steps[0].Enqueue? {
        var i := steps[0].i;
        ChunkShape(team[i].request, team[i].count, s.subs[i].done);
      }
      StepKeepsNoFailures(team, s, steps[0]);
      StepKeepsGood(team, toDevice, m0, s, steps[0]);
      UndisturbedRunsSucceed(team, toDevice, m0, Next(team, s, steps[0]), steps[1..]);
    }
  }

  /** In an undisturbed run no request returns an error: each that has returned
      has returned its size, so it is delivered. */
  lemma UndisturbedRequestsSucceed(team: seq<Party>, toDevice: bool, m: Spaces, steps: seq<Step>, i: nat)
    requires GoodTeam(team, toDevice) && IsRun(team, Initial(team, m), steps) && i < |team|
    requires Undisturbed(team, Initial(team, m), steps)
    ensures var s := Final(team, Initial(team, m), steps);
            i < |s.subs| && (s.subs[i].phase.Returned? ==> s.subs[i].phase.res == team[i].count)
  {
    var s := Final(team, Initial(team, m), steps);
    InitiallyGood(team, toDevice, m);
    UndisturbedRunsSucceed(team, toDevice, m, Initial(team, m), steps);
    var n := SharedFlatCopy(team, toDevice, m, steps);
    assert Accounts(team[i], s.subs[i], n[i]);
    assert s.subs[i] in s.subs;
  }

  /** The steps of the device and the service work until transfer j is done with. */
  function StepsTo(s: State, j: nat): int
    requires j < |s.queue.queue|
  {
    Prefix(s.queue.queue, j + 1) - s.executed + j + 1
  }

  lemma {:induction false} PrefixShift(queue: seq<Transfer>, n: nat)
    requires n < |queue|
    ensures Prefix(queue, n + 1) == queue[0].descNum + Prefix(queue[1..], n)
  {
    if n > 0 {
      PrefixShift(queue, n - 1);
    }
  }

  /** The device and the service work can go on. */
  ghost predicate Runnable(s: State) {
    && Settled(s.queue) && |s.jobs| == |s.queue.queue|
    && s.executed <= (if s.queue.queue == [] then 0 else s.queue.queue[0].descNum)
    && forall j :: 0 <= j < |s.jobs| ==>
         s.jobs[j].owner < |s.landed| && s.queue.queue[j].descNum == |s.jobs[j].plan.blocks|
  }

  lemma GoodIsRunnable(team: seq<Party>, toDevice: bool, m0: Spaces, s: State)
    requires Good(team, toDevice, m0, s)
    ensures Runnable(s) && |s.subs| == |team|
  {
    forall j | 0 <= j < |s.jobs|
      ensures s.jobs[j].owner < |s.landed| && s.queue.queue[j].descNum == |s.jobs[j].plan.blocks|
    {
      var o := s.jobs[j].owner;
      assert JobFits(team[o], s.subs[o], s.landed[o], s.jobs[j], s.queue.queue[j]);
    }
  }

  /** The next such step brings transfer j nearer to its end. */
  lemma WorkGoesOn(team: seq<Party>, s: State, j: nat) returns (step: Step)
    requires Runnable(s) && j < |s.queue.queue|
    ensures Enabled(team, s, step) && StepsTo(s, j) > 0
    ensures var next := Next(team, s, step);
            Runnable(next) && next.subs == s.subs &&
            if step.Advance? then next.queue == s.queue && StepsTo(next, j) == StepsTo(s, j) - 1
            else
              && step.Service? && next.queue.queue == s.queue.queue[1..]
              && next.queue.verdicts == s.queue.verdicts + [Verdict(s.queue.queue[0], Completed)]
              && (j > 0 ==> StepsTo(next, j - 1) == StepsTo(s, j) - 1)
  {
    assert RunsHead(s);
    PrefixShift(s.queue.queue, j);
    if s.executed < s.queue.queue[0].descNum {
      step := Advance;
    } else {
      step := Step.Service;
      ServiceTakesHead(s.queue, s.executed);
      ServiceIsRunnable(s);
    }
  }

  lemma ServiceIsRunnable(s: State)
    requires Runnable(s) && RunsHead(s)
    ensures Runnable(AfterServiceStep(s))
  {
    ServiceTakesHead(s.queue, s.executed);
    var t := AfterServiceStep(s);
    forall j | 0 <= j < |t.jobs|
      ensures t.jobs[j].owner < |t.landed| && t.queue.queue[j].descNum == |t.jobs[j].plan.blocks|
    {
      assert t.jobs[j] == s.jobs[j + 1] && t.queue.queue[j] == s.queue.queue[j + 1];
    }
  }

  /** At the end of the run, of no more steps than this, the submitter has come this far. */
  ghost predicate Leads(team: seq<Party>, s: State, steps: seq<Step>, i: nat, sub: Progress, most: int) {
    && IsRun(team, s, steps) && |steps| <= most
    && i < |Final(team, s, steps).subs| && Final(team, s, steps).subs[i] == sub
  }

  lemma StepLeads(team: seq<Party>, s: State, step: Step, rest: seq<Step>, i: nat, sub: Progress, most: int)
    requires Enabled(team, s, step) && Leads(team, Next(team, s, step), rest, i, sub, most - 1)
    ensures Leads(team, s, [step] + rest, i, sub, most)
  {
    assert ([step] + rest)[1..] == rest;
  }

  /** Where a submitter comes to when its transfer has been completed. */
  function Onward(team: seq<Party>, s: State, i: nat): Progress
    requires i < |team| && i < |s.subs|
  {
    GoesOn(team[i], s.subs[i].done + ChunkLength(team[i], s.subs[i].done))
  }

  lemma CompletedWakes(team: seq<Party>, s: State, i: nat, verdicts: seq<Verdict>, t: Transfer,
                       sub: Progress, most: int)
    requires i < |team| == |s.subs| && s.subs[i].phase == Waiting(t)
    requires s.queue.verdicts == verdicts + [Verdict(t, Completed)]
    requires sub == Onward(team, s, i) && most > 0
    ensures Leads(team, s, [Wake(i)], i, sub, most)
  {
    StateAfter(verdicts, Verdict(t, Completed), t);
    StepLeads(team, s, Wake(i), [], i, sub, most);
  }

  lemma {:induction false} ServedWithin(team: seq<Party>, s: State, i: nat, j: nat, sub: Progress, most: int)
    returns (steps: seq<Step>)
    requires Runnable(s) && i < |team| == |s.subs|
    requires j < |s.queue.queue| && s.subs[i].phase == Waiting(s.queue.queue[j])
    requires sub == Onward(team, s, i) && most == StepsTo(s, j) + 1
    ensures Leads(team, s, steps, i, sub, most)
    decreases most
  {
    var step := WorkGoesOn(team, s, j);
    var next := Next(team, s, step);
    var rest := [Wake(i)];
    if step.Advance? || j > 0 {
      rest := ServedWithin(team, next, i, if step.Advance? then j else j - 1, sub, most - 1);
    } else {
      CompletedWakes(team, next, i, s.queue.verdicts, s.queue.queue[0], sub, most - 1);
    }
    StepLeads(team, s, step, rest, i, sub, most);
    steps := [step] + rest;
  }

  /** Nobody waits in vain: from every state that a run comes to, the device and
      the service work alone bring a queued transfer to its end within the
      descriptors and service calls up to it, and its submitter then goes on. */
  lemma WaiterIsServed(team: seq<Party>, toDevice: bool, m: Spaces, steps: seq<Step>, i: nat, j: nat)
    returns (more: seq<Step>)
    requires GoodTeam(team, toDevice) && IsRun(team, Initial(team, m), steps) && i < |team|
    requires var s := Final(team, Initial(team, m), steps);
             && j < |s.queue.queue| && i < |s.subs| && s.subs[i].phase == Waiting(s.queue.queue[j])
    ensures var s := Final(team, Initial(team, m), steps);
            Leads(team, s, more, i, Onward(team, s, i), Prefix(s.queue.queue, j + 1) - s.executed + j + 2)
  {
    var s := Final(team, Initial(team, m), steps);
    assert Runnable(s) && |s.subs| == |team| by {
      InitiallyGood(team, toDevice, m);
      EveryRunIsGood(team, toDevice, m, Initial(team, m), steps);
      GoodIsRunnable(team, toDevice, m, s);
    }
    more := ServedWithin(team, s, i, j, Onward(team, s, i), StepsTo(s, j) + 1);
  }
}
