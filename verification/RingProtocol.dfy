/**
 The cyclic receive path in credit mode, as a state machine over its atomic
 steps: the device fills blocks for which it has credits, the service routine
 scans the results one by one, and a reader pops results, copies blocks out and
 gives the credits back. All three run concurrently.
 */
module RingProtocol {
  import opened Words
  import opened Ring
  import opened RxEngine

  const INITIAL_CREDITS: nat := 128

  /** One block of received data and the status that the device reports for it. */
  datatype Block = Block(data: seq<byte>, status: U32)

  predicate Eop(b: Block) {
    b.status % 2 == 1
  }

  /** What the device may produce: good results, and no short block but the
      last of a packet. */
  predicate GoodBlock(b: Block) {
    && 1 <= |b.data| <= RX_BUF_BLOCK && b.status / 0x1_0000 == C2H_WB
    && (!Eop(b) ==> |b.data| == RX_BUF_BLOCK)
  }

  predicate GoodStream(stream: seq<Block>) {
    forall i :: 0 <= i < |stream| ==> GoodBlock(stream[i])
  }

  // ---- the specification: packets ------------------------------------------------

  /** The packets that are complete after some blocks, and the one begun. */
  datatype Framing = Framing(packets: seq<seq<byte>>, partial: seq<byte>)

  function Frame(stream: seq<Block>, k: nat): Framing
    requires k <= |stream|
  {
    if k == 0 then Framing([], [])
    else
      var f := Frame(stream, k - 1);
      var partial := f.partial + stream[k - 1].data;
      if Eop(stream[k - 1]) then Framing(f.packets + [partial], []) else Framing(f.packets, partial)
  }

  function Flatten(packets: seq<seq<byte>>): seq<byte> {
    if packets == [] then [] else Flatten(packets[..|packets| - 1]) + packets[|packets| - 1]
  }

  function Payload(stream: seq<Block>, k: nat): seq<byte>
    requires k <= |stream|
  {
    if k == 0 then [] else Payload(stream, k - 1) + stream[k - 1].data
  }

  function Eops(stream: seq<Block>, k: nat): nat
    requires k <= |stream|
  {
    if k == 0 then 0 else Eops(stream, k - 1) + if Eop(stream[k - 1]) then 1 else 0
  }

  /** Framing loses and reorders nothing, and makes one packet per end mark. */
  lemma {:induction false} FramingIsExact(stream: seq<Block>, k: nat)
    requires k <= |stream|
    ensures Flatten(Frame(stream, k).packets) + Frame(stream, k).partial == Payload(stream, k)
    ensures |Frame(stream, k).packets| == Eops(stream, k)
  {
    if k > 0 {
      FramingIsExact(stream, k - 1);
      var f := Frame(stream, k - 1);
      var partial := f.partial + stream[k - 1].data;
      assert (f.packets + [partial])[..|f.packets|] == f.packets;
      assert Flatten(f.packets) + partial == Payload(stream, k);
    }
  }

  lemma {:induction false} FramesGrow(stream: seq<Block>, j: nat, k: nat)
    requires j <= k <= |stream|
    ensures Frame(stream, j).packets <= Frame(stream, k).packets
  {
    if j < k {
      FramesGrow(stream, j, k - 1);
    }
  }

  /** The bytes in blocks a to b - 1. */
  function Bytes(stream: seq<Block>, a: nat, b: nat): nat
    requires b <= |stream|
    decreases b - a
  {
    if a >= b then 0 else |stream[a].data| + Bytes(stream, a + 1, b)
  }

  lemma {:induction false} BytesSnoc(stream: seq<Block>, a: nat, b: nat)
    requires a <= b < |stream|
    ensures Bytes(stream, a, b + 1) == Bytes(stream, a, b) + |stream[b].data|
    decreases b - a
  {
    if a < b {
      BytesSnoc(stream, a + 1, b);
    }
  }

  lemma {:induction false} BytesAtLeast(stream: seq<Block>, a: nat, b: nat)
    requires GoodStream(stream) && a <= b <= |stream|
    ensures Bytes(stream, a, b) >= b - a
    decreases b - a
  {
    if a < b {
      BytesAtLeast(stream, a + 1, b);
    }
  }

  ghost predicate NoEop(stream: seq<Block>, a: nat, b: nat)
    requires b <= |stream|
  {
    forall i :: a <= i < b ==> !Eop(stream[i])
  }

  // ---- the state machine ----------------------------------------------------------

  /** Where the reader is: char_sgdma_read_cyclic waits, complete_cyclic pops
      and copies. `start` is the slot of the first popped block, `copied` counts
      the blocks copied out. */
  datatype Reader =
    | Idle
    | Waiting
    | Popping(start: nat, numCredit: nat, pktLength: nat)
    | Copying(head: nat, numCredit: nat, pktLength: nat, remaining: nat, copied: nat)
    | Faulted

  datatype Delivery = Delivery(data: seq<byte>, returned: nat)

  /** `written`, `scanned`, `popped` and `released` count blocks since the
      engine was opened; only the device's own position influences a step. */
  datatype State = State(
    ring: RingState, buffer: Buffer, credits: nat, written: nat,
    scanned: nat, popped: nat, released: nat,
    reader: Reader, user: seq<byte>, rcLen: nat, deliveries: seq<Delivery>)

  datatype Step =
    | Write      // the device stores the next block and its result
    | Scan       // one round of engine_ring_process
    | StartRead  // char_sgdma_read_cyclic is called
    | Enter      // transfer_monitor_cyclic returns and complete_cyclic begins
    | Pop        // one round of its pop loop
    | EndPop     // the pop loop has caught up with the tail
    | Copy       // one round of copy_cyclic_to_user
    | Release    // credits are given back; the read returns once a packet has ended

  predicate Consistent(s: State) {
    s.ring.Valid() && IsBuffer(s.buffer)
  }

  predicate SomethingUnread(s: State) {
    s.ring.head != s.ring.tail || s.ring.overrun
  }

  predicate Enabled(stream: seq<Block>, s: State, step: Step)
    requires s.ring.Valid()
  {
    match step
    case Write => s.credits > 0 && s.written < |stream|
    case Scan => Present(s.ring.results[s.ring.tail]) && !s.ring.overrun
    case StartRead => s.reader.Idle?
    case Enter => s.reader.Waiting? && SomethingUnread(s) && Present(s.ring.results[s.ring.head])
    case Pop => s.reader.Popping? && SomethingUnread(s)
    case EndPop => s.reader.Popping? && !SomethingUnread(s)
    case Copy => s.reader.Copying? && s.reader.remaining > 0
    case Release => s.reader.Copying? && s.reader.remaining == 0
  }

  function AfterWrite(s: State, b: Block): State
    requires Consistent(s) && 1 <= |b.data| <= RX_BUF_BLOCK
  {
    var slot := Slot(s.written);
    s.(credits := if s.credits > 0 then s.credits - 1 else 0, written := s.written + 1,
       ring := s.ring.(results := s.ring.results[slot := Result(b.status, |b.data|)]),
       buffer := s.buffer[slot := b.data + s.buffer[slot][|b.data|..]])
  }

  function BeginCopy(start: nat, numCredit: nat, pktLength: nat): Reader {
    Copying(start, numCredit, pktLength, pktLength, 0)
  }

  function AfterPopStep(s: State): State
    requires Consistent(s) && s.reader.Popping?
  {
    var r := s.ring.results[s.ring.head];
    var t := s.(ring := AfterPopOne(s.ring, !Faulty(r) && IsEop(r)), popped := s.popped + 1);
    if Faulty(r) then t.(reader := Faulted)
    else
      var n, len := s.reader.numCredit + 1, s.reader.pktLength + r.length;
      t.(reader := if IsEop(r) then BeginCopy(s.reader.start, n, len) else Popping(s.reader.start, n, len))
  }

  function AfterCopy(s: State): State
    requires Consistent(s) && s.reader.Copying? && s.reader.head < RX_BUF_PAGES
  {
    var r := s.reader;
    var n := Least(r.remaining, RX_BUF_BLOCK);
    s.(user := s.user + s.buffer[r.head][..n],
       reader := r.(remaining := r.remaining - n, head := Slot(r.head + 1), copied := r.copied + 1))
  }

  function AfterRelease(s: State): State
    requires s.reader.Copying?
  {
    var r := s.reader;
    var rcLen := s.rcLen + r.pktLength;
    var t := s.(credits := s.credits + (if r.pktLength > 0 then r.numCredit else 0),
                released := s.popped, rcLen := rcLen);
    if s.ring.eopFound then
      t.(ring := s.ring.(overrun := false, eopFound := false),
         reader := Idle, deliveries := s.deliveries + [Delivery(s.user, rcLen)])
    else t.(ring := s.ring.(overrun := false), reader := Waiting)
  }

  function Next(stream: seq<Block>, s: State, step: Step): State
    requires GoodStream(stream) && Consistent(s) && Enabled(stream, s, step)
    requires s.reader.Copying? ==> s.reader.head < RX_BUF_PAGES
  {
    match step
    case Write => AfterWrite(s, stream[s.written])
    case Scan => s.(ring := AfterScanOne(s.ring), scanned := s.scanned + 1)
    case StartRead => s.(reader := Waiting, user := [], rcLen := 0)
    case Enter => s.(reader := Popping(s.ring.head, 0, 0))
    case Pop => AfterPopStep(s)
    case EndPop => s.(reader := BeginCopy(s.reader.start, s.reader.numCredit, s.reader.pktLength))
    case Copy => AfterCopy(s)
    case Release => AfterRelease(s)
  }

  /** cyclic_transfer_setup leaves an empty ring and grants the credits. */
  predicate Initial(s: State) {
    && IsBuffer(s.buffer) && s.ring == EmptyRing()
    && s.credits == INITIAL_CREDITS && s.written == s.scanned == s.popped == s.released == 0
    && s.reader == Idle && s.deliveries == []
  }

  // ---- what every step keeps --------------------------------------------------------

  /** The credits left and the blocks in the four stages always add up to 128. */
  ghost predicate Conserved(stream: seq<Block>, s: State) {
    && s.released <= s.popped <= s.scanned <= s.written <= |stream|
    && s.credits + (s.written - s.scanned) + (s.scanned - s.popped) + (s.popped - s.released) == INITIAL_CREDITS
    && s.ring.Valid() && s.ring.tail == Slot(s.scanned) && s.ring.head == Slot(s.popped) && !s.ring.overrun
  }

  /** The result expected in the slot of block i. */
  function Expected(stream: seq<Block>, written: nat, i: nat): Result
    requires GoodStream(stream)
  {
    if i < written && i < |stream| then Result(stream[i].status, |stream[i].data|) else CLEAR
  }

  /** From the head around the ring, the results of the unread blocks and then nothing. */
  ghost predicate ResultsMatch(stream: seq<Block>, s: State)
    requires GoodStream(stream) && s.ring.Valid()
  {
    forall i: nat :: s.popped <= i < s.popped + 256 ==> s.ring.results[Slot(i)] == Expected(stream, s.written, i)
  }

  /** Blocks are intact until they are released. */
  ghost predicate DataIntact(stream: seq<Block>, s: State)
    requires GoodStream(stream) && s.written <= |stream|
  {
    && IsBuffer(s.buffer)
    && forall i: nat :: s.released <= i < s.written ==> s.buffer[Slot(i)][..|stream[i].data|] == stream[i].data
  }

  /** How far the reader has come, in terms of the framed stream. */
  ghost predicate ReaderAt(stream: seq<Block>, s: State)
    requires Conserved(stream, s)
  {
    var f, r := Frame(stream, s.released), s.reader;
    && (|s.deliveries| == |f.packets|)
    && (forall n :: 0 <= n < |s.deliveries| ==> s.deliveries[n] == Delivery(f.packets[n], |f.packets[n]|))
    && (!r.Idle? ==> s.rcLen == |f.partial|)
    && match r {
         case Idle => s.popped == s.released && f.partial == [] && !s.ring.eopFound
         case Waiting => s.popped == s.released && s.user == f.partial && !s.ring.eopFound
         case Popping(start, n, len) =>
           && start == Slot(s.released) && n == s.popped - s.released && (n == 0 ==> s.popped < s.scanned)
           && len == Bytes(stream, s.released, s.popped)
           && NoEop(stream, s.released, s.popped) && s.user == f.partial && !s.ring.eopFound
         case Copying(head, n, len, remaining, copied) =>
           && n == s.popped - s.released && n > 0 && copied <= n && head == Slot(s.released + copied)
           && len == Bytes(stream, s.released, s.popped)
           && remaining == Bytes(stream, s.released + copied, s.popped)
           && NoEop(stream, s.released, s.popped - 1) && s.ring.eopFound == Eop(stream[s.popped - 1])
           && s.user == Joined(stream, s.released, copied)
         case Faulted => false
       }
  }

  /** The packet begun before block a, and the next k blocks. */
  function Joined(stream: seq<Block>, a: nat, k: nat): seq<byte>
    requires a + k <= |stream|
  {
    if k == 0 then Frame(stream, a).partial else Joined(stream, a, k - 1) + stream[a + k - 1].data
  }

  ghost predicate Good(stream: seq<Block>, s: State)
    requires GoodStream(stream)
  {
    Conserved(stream, s) && ResultsMatch(stream, s) && DataIntact(stream, s) && ReaderAt(stream, s)
  }

  lemma InitiallyGood(stream: seq<Block>, s: State)
    requires GoodStream(stream) && Initial(s)
    ensures Good(stream, s)
  {
  }

  /** The service routine finds a result at the tail exactly while it is behind the device. */
  lemma ScanSeesDevice(stream: seq<Block>, s: State)
    requires GoodStream(stream) && Conserved(stream, s) && ResultsMatch(stream, s)
    ensures Present(s.ring.results[s.ring.tail]) <==> s.scanned < s.written
  {
  }

  /** Two counted positions that far apart are in different slots. */
  lemma HeadIsTail(stream: seq<Block>, s: State)
    requires Conserved(stream, s)
    ensures s.ring.head == s.ring.tail <==> s.popped == s.scanned
  {
    if s.popped < s.scanned {
      SlotsDiffer(s.popped, s.scanned);
    }
  }

  lemma ScanConserves(stream: seq<Block>, s: State)
    requires GoodStream(stream) && Good(stream, s) && Enabled(stream, s, Scan)
    ensures Conserved(stream, Next(stream, s, Scan))
  {
    ScanSeesDevice(stream, s);
    SlotAgain(s.scanned, 1);
    SlotsDiffer(s.popped, s.scanned + 1);
  }

  lemma PopConserves(stream: seq<Block>, s: State)
    requires GoodStream(stream) && Good(stream, s) && Enabled(stream, s, Pop)
    ensures Conserved(stream, Next(stream, s, Pop))
  {
    HeadIsTail(stream, s);
    SlotAgain(s.popped, 1);
  }

  lemma WriteKeepsResults(stream: seq<Block>, s: State)
    requires GoodStream(stream) && Good(stream, s) && Enabled(stream, s, Write)
    ensures ResultsMatch(stream, Next(stream, s, Write))
  {
    var t := Next(stream, s, Write);
    forall i: nat | t.popped <= i < t.popped + 256
      ensures t.ring.results[Slot(i)] == Expected(stream, t.written, i)
    {
      if i < s.written {
        SlotsDiffer(i, s.written);
      } else if s.written < i {
        SlotsDiffer(s.written, i);
      }
    }
  }

  lemma PopKeepsResults(stream: seq<Block>, s: State)
    requires GoodStream(stream) && Good(stream, s) && Enabled(stream, s, Pop)
    ensures ResultsMatch(stream, Next(stream, s, Pop))
  {
    var t := Next(stream, s, Pop);
    forall i: nat | t.popped <= i < t.popped + 256
      ensures t.ring.results[Slot(i)] == Expected(stream, t.written, i)
    {
      if i < s.popped + 256 {
        SlotsDiffer(s.popped, i);
      } else {
        SlotAgain(256, s.popped);
      }
    }
  }

  lemma StepKeepsResults(stream: seq<Block>, s: State, step: Step)
    requires GoodStream(stream) && Good(stream, s) && Enabled(stream, s, step)
    ensures Next(stream, s, step).ring.Valid() && ResultsMatch(stream, Next(stream, s, step))
  {
    match step
    case Write => WriteKeepsResults(stream, s);
    case Pop => PopKeepsResults(stream, s);
    case _ =>
  }

  lemma StepKeepsData(stream: seq<Block>, s: State, step: Step)
    requires GoodStream(stream) && Good(stream, s) && Enabled(stream, s, step)
    ensures Next(stream, s, step).written <= |stream| && DataIntact(stream, Next(stream, s, step))
  {
    var t := Next(stream, s, step);
    if step.Write? {
      forall i: nat | t.released <= i < t.written
        ensures t.buffer[Slot(i)][..|stream[i].data|] == stream[i].data
      {
        if i < s.written {
          SlotsDiffer(i, s.written);
        }
      }
    }
  }

  // ---- what the reader does ------------------------------------------------------------

  lemma PopSeesBlock(stream: seq<Block>, s: State)
    requires GoodStream(stream) && Conserved(stream, s) && ResultsMatch(stream, s) && s.popped < s.scanned
    ensures var r := s.ring.results[s.ring.head];
            r == Result(stream[s.popped].status, |stream[s.popped].data|) && !Faulty(r) && Present(r)
  {
    assert s.ring.results[Slot(s.popped)] == Expected(stream, s.written, s.popped);
  }

  lemma PopKeepsReader(stream: seq<Block>, s: State)
    requires GoodStream(stream) && Conserved(stream, s) && ResultsMatch(stream, s) && Consistent(s)
    requires ReaderAt(stream, s) && Enabled(stream, s, Pop)
    requires Conserved(stream, Next(stream, s, Pop))
    ensures ReaderAt(stream, Next(stream, s, Pop))
  {
    HeadIsTail(stream, s);
    PopSeesBlock(stream, s);
    BytesSnoc(stream, s.released, s.popped);
  }

  /** The last piece is what is left, every other piece a full block. */
  lemma PieceIsBlock(stream: seq<Block>, s: State)
    requires GoodStream(stream) && Conserved(stream, s) && ReaderAt(stream, s) && Enabled(stream, s, Copy)
    ensures var i := s.released + s.reader.copied;
            i < s.popped && Least(s.reader.remaining, RX_BUF_BLOCK) == |stream[i].data|
  {
    var i := s.released + s.reader.copied;
    assert Bytes(stream, i, s.popped) == |stream[i].data| + Bytes(stream, i + 1, s.popped);
    if i < s.popped - 1 {
      assert GoodBlock(stream[i]);
    }
  }

  lemma CopyTakesBlock(stream: seq<Block>, s: State)
    requires GoodStream(stream) && Conserved(stream, s) && DataIntact(stream, s) && ReaderAt(stream, s)
    requires Enabled(stream, s, Copy)
    ensures var i, r := s.released + s.reader.copied, s.reader;
            && i < s.popped
            && AfterCopy(s) == s.(user := s.user + stream[i].data, reader :=
                 Copying(Slot(i + 1), r.numCredit, r.pktLength, r.remaining - |stream[i].data|, r.copied + 1))
  {
    CopyReads(stream, s);
    SlotAgain(s.released + s.reader.copied, 1);
  }

  lemma CopyReads(stream: seq<Block>, s: State)
    requires GoodStream(stream) && Conserved(stream, s) && DataIntact(stream, s) && ReaderAt(stream, s)
    requires Enabled(stream, s, Copy)
    ensures var i, r := s.released + s.reader.copied, s.reader;
            && i < s.popped && r.head == Slot(i) && Least(r.remaining, RX_BUF_BLOCK) == |stream[i].data|
            && s.buffer[r.head][..|stream[i].data|] == stream[i].data
  {
    PieceIsBlock(stream, s);
    var i := s.released + s.reader.copied;
    assert s.buffer[Slot(i)][..|stream[i].data|] == stream[i].data;
  }

  lemma CopyKeepsReader(stream: seq<Block>, s: State, t: State)
    requires GoodStream(stream) && Conserved(stream, s) && ReaderAt(stream, s)
    requires s.reader.Copying? && s.released + s.reader.copied < s.popped
    requires var i, r := s.released + s.reader.copied, s.reader;
             t == s.(user := s.user + stream[i].data, reader :=
               Copying(Slot(i + 1), r.numCredit, r.pktLength, r.remaining - |stream[i].data|, r.copied + 1))
    ensures Conserved(stream, t) && ReaderAt(stream, t)
  {
    var i := s.released + s.reader.copied;
    assert Bytes(stream, i, s.popped) == |stream[i].data| + Bytes(stream, i + 1, s.popped);
    assert Joined(stream, s.released, s.reader.copied + 1) == s.user + stream[i].data;
  }

  lemma {:induction false} JoinedIsFrame(stream: seq<Block>, a: nat, k: nat)
    requires a + k <= |stream| && NoEop(stream, a, a + k)
    ensures Frame(stream, a + k) == Framing(Frame(stream, a).packets, Joined(stream, a, k))
    decreases k
  {
    if k > 0 {
      JoinedIsFrame(stream, a, k - 1);
    } else if a > 0 {
      assert Frame(stream, a) == Framing(Frame(stream, a).packets, Frame(stream, a).partial);
    }
  }

  lemma {:induction false} JoinedLength(stream: seq<Block>, a: nat, k: nat)
    requires a + k <= |stream|
    ensures |Joined(stream, a, k)| == |Frame(stream, a).partial| + Bytes(stream, a, a + k)
    decreases k
  {
    if k > 0 {
      JoinedLength(stream, a, k - 1);
      BytesSnoc(stream, a, a + k - 1);
    }
  }

  /** k blocks of which at most the last ends a packet. */
  lemma JoinedToEop(stream: seq<Block>, a: nat, k: nat)
    requires 0 < k && a + k <= |stream| && NoEop(stream, a, a + k - 1)
    ensures var f, g, joined := Frame(stream, a), Frame(stream, a + k), Joined(stream, a, k);
            && |joined| == |f.partial| + Bytes(stream, a, a + k)
            && g == if Eop(stream[a + k - 1]) then Framing(f.packets + [joined], []) else Framing(f.packets, joined)
  {
    JoinedIsFrame(stream, a, k - 1);
    JoinedLength(stream, a, k);
  }

  /** A copy that is done has delivered every popped block. */
  lemma AllCopied(stream: seq<Block>, s: State)
    requires GoodStream(stream) && Conserved(stream, s) && ReaderAt(stream, s) && Enabled(stream, s, Release)
    ensures var n := s.popped - s.released;
            && n > 0 && s.user == Joined(stream, s.released, n) && s.reader.numCredit == n && s.reader.pktLength > 0
  {
    BytesAtLeast(stream, s.released + s.reader.copied, s.popped);
    BytesAtLeast(stream, s.released, s.popped);
  }

  lemma ReleaseFrames(stream: seq<Block>, s: State)
    requires GoodStream(stream) && Conserved(stream, s) && ReaderAt(stream, s) && Enabled(stream, s, Release)
    ensures s.reader.pktLength > 0 && s.reader.numCredit == s.popped - s.released
    ensures var f, g := Frame(stream, s.released), Frame(stream, s.popped);
            && |s.user| == s.rcLen + s.reader.pktLength
            && if s.ring.eopFound then g == Framing(f.packets + [s.user], []) else g == Framing(f.packets, s.user)
  {
    AllCopied(stream, s);
    JoinedToEop(stream, s.released, s.popped - s.released);
  }

  lemma ReleaseConserves(stream: seq<Block>, s: State)
    requires GoodStream(stream) && Good(stream, s) && Enabled(stream, s, Release)
    ensures Conserved(stream, Next(stream, s, Release)) && ReaderAt(stream, Next(stream, s, Release))
  {
    ReleaseFrames(stream, s);
  }

  lemma StepConserves(stream: seq<Block>, s: State, step: Step)
    requires GoodStream(stream) && Good(stream, s) && Enabled(stream, s, step)
    ensures Conserved(stream, Next(stream, s, step))
  {
    match step
    case Scan => ScanConserves(stream, s);
    case Pop => PopConserves(stream, s);
    case Release => ReleaseConserves(stream, s);
    case _ =>
  }

  lemma OtherStepsKeepReader(stream: seq<Block>, s: State, step: Step)
    requires GoodStream(stream) && Conserved(stream, s) && Consistent(s) && ReaderAt(stream, s)
    requires Enabled(stream, s, step) && !step.Pop? && !step.Copy? && !step.Release?
    requires Conserved(stream, Next(stream, s, step))
    ensures ReaderAt(stream, Next(stream, s, step))
  {
    HeadIsTail(stream, s);
  }

  lemma StepKeepsReader(stream: seq<Block>, s: State, step: Step)
    requires GoodStream(stream) && Good(stream, s) && Enabled(stream, s, step)
    requires Conserved(stream, Next(stream, s, step))
    ensures ReaderAt(stream, Next(stream, s, step))
  {
    match step
    case Pop => PopKeepsReader(stream, s);
    case Copy =>
      CopyTakesBlock(stream, s);
      CopyKeepsReader(stream, s, AfterCopy(s));
    case Release => ReleaseConserves(stream, s);
    case _ => OtherStepsKeepReader(stream, s, step);
  }

  lemma StepKeepsGood(stream: seq<Block>, s: State, step: Step)
    requires GoodStream(stream) && Good(stream, s) && Enabled(stream, s, step)
    ensures Good(stream, Next(stream, s, step))
  {
    StepConserves(stream, s, step);
    StepKeepsResults(stream, s, step);
    StepKeepsData(stream, s, step);
    StepKeepsReader(stream, s, step);
  }

  // ---- every run ---------------------------------------------------------------------------

  ghost predicate CanRun(stream: seq<Block>, s: State) {
    GoodStream(stream) && Consistent(s) && (s.reader.Copying? ==> s.reader.head < RX_BUF_PAGES)
  }

  ghost predicate IsRun(stream: seq<Block>, s: State, steps: seq<Step>)
    decreases |steps|
  {
    CanRun(stream, s) &&
    (steps == [] || (Enabled(stream, s, steps[0]) && IsRun(stream, Next(stream, s, steps[0]), steps[1..])))
  }

  ghost function Final(stream: seq<Block>, s: State, steps: seq<Step>): State
    requires IsRun(stream, s, steps)
    decreases |steps|
  {
    if steps == [] then s else Final(stream, Next(stream, s, steps[0]), steps[1..])
  }

  lemma {:induction false} EveryRunIsGood(stream: seq<Block>, s: State, steps: seq<Step>)
    requires IsRun(stream, s, steps) && Good(stream, s)
    ensures Good(stream, Final(stream, s, steps))
    decreases |steps|
  {
    if steps != [] {
      StepKeepsGood(stream, s, steps[0]);
      EveryRunIsGood(stream, Next(stream, s, steps[0]), steps[1..]);
    }
  }

  /** Credit safety: in every interleaving the credits and the blocks that are
      written, scanned, popped and not yet released add up to 128. So the ring
      never overruns, no result is ever bad, the scan stops exactly where the
      device is, and a block that the device may write is none of those. */
  lemma CreditSafety(stream: seq<Block>, s: State, steps: seq<Step>)
    requires Initial(s) && IsRun(stream, s, steps)
    ensures var t := Final(stream, s, steps);
            && Conserved(stream, t) && t.credits + (t.written - t.released) == 128
            && !t.ring.overrun && !t.reader.Faulted?
            && (Present(t.ring.results[t.ring.tail]) <==> t.scanned < t.written)
            && (t.credits > 0 ==> forall i :: t.released <= i < t.written ==> Slot(i) != Slot(t.written))
  {
    InitiallyGood(stream, s);
    EveryRunIsGood(stream, s, steps);
    var t := Final(stream, s, steps);
    ScanSeesDevice(stream, t);
    forall i | t.released <= i < t.written && t.credits > 0
      ensures Slot(i) != Slot(t.written)
    {
      SlotsDiffer(i, t.written);
    }
  }

  /** Packet framing: in every interleaving the reads return, in order, the
      packets of the stream, byte for byte, each with its own length. */
  lemma PacketFraming(stream: seq<Block>, s: State, steps: seq<Step>)
    requires Initial(s) && IsRun(stream, s, steps)
    ensures var deliveries, packets := Final(stream, s, steps).deliveries, Frame(stream, |stream|).packets;
            && |deliveries| <= |packets|
            && forall n :: 0 <= n < |deliveries| ==> deliveries[n] == Delivery(packets[n], |packets[n]|)
  {
    InitiallyGood(stream, s);
    EveryRunIsGood(stream, s, steps);
    FramesGrow(stream, Final(stream, s, steps).released, |stream|);
  }

  // ---- progress --------------------------------------------------------------------------------

  /** What is left to do for the blocks of the stream and for the current read. */
  function Remaining(stream: seq<Block>, s: State): int {
    var n := |stream|;
    var copied := if s.reader.Copying? then s.released + s.reader.copied else s.released;
    var phase := match s.reader
      case Idle => 0
      case Waiting => 3
      case Popping(_, numCredit, _) => if numCredit == 0 then 2 else 6
      case Copying(_, _, _, _, _) => 4
      case Faulted => 0;
    (n - s.written) + (n - s.scanned) + 5 * (n - s.popped) + (n - copied) + phase
  }

  lemma PopIsProgress(stream: seq<Block>, s: State)
    requires GoodStream(stream) && Good(stream, s) && Enabled(stream, s, Pop)
    ensures Remaining(stream, Next(stream, s, Pop)) < Remaining(stream, s)
  {
    HeadIsTail(stream, s);
    PopSeesBlock(stream, s);
  }

  lemma CopyIsProgress(stream: seq<Block>, s: State)
    requires GoodStream(stream) && Good(stream, s) && Enabled(stream, s, Copy)
    ensures Remaining(stream, Next(stream, s, Copy)) < Remaining(stream, s)
  {
    PieceIsBlock(stream, s);
  }

  lemma ReleaseIsProgress(stream: seq<Block>, s: State)
    requires GoodStream(stream) && Good(stream, s) && Enabled(stream, s, Release)
    ensures Remaining(stream, Next(stream, s, Release)) < Remaining(stream, s)
  {
    BytesAtLeast(stream, s.released + s.reader.copied, s.popped);
  }

  lemma GoodRemaining(stream: seq<Block>, s: State)
    requires Conserved(stream, s) && ReaderAt(stream, s)
    ensures Remaining(stream, s) >= 0
  {
  }

  /** Every step but the start of a read leaves less to do. */
  lemma EveryStepIsProgress(stream: seq<Block>, s: State, step: Step)
    requires GoodStream(stream) && Good(stream, s) && Enabled(stream, s, step) && !step.StartRead?
    ensures 0 <= Remaining(stream, Next(stream, s, step)) < Remaining(stream, s)
  {
    StepKeepsGood(stream, s, step);
    GoodRemaining(stream, Next(stream, s, step));
    match step
    case Pop => PopIsProgress(stream, s);
    case Copy => CopyIsProgress(stream, s);
    case Release => ReleaseIsProgress(stream, s);
    case _ =>
  }

  /** And no read gets stuck before the end of a packet that the device has or
      is about to send: some step is enabled. */
  lemma ReadIsNeverStuck(stream: seq<Block>, s: State, e: nat) returns (step: Step)
    requires GoodStream(stream) && Good(stream, s) && !s.reader.Idle?
    requires s.released <= e < |stream| && Eop(stream[e])
    ensures Enabled(stream, s, step) && !step.StartRead?
  {
    HeadIsTail(stream, s);
    ScanSeesDevice(stream, s);
    match s.reader
    case Waiting =>
      if s.popped < s.scanned {
        PopSeesBlock(stream, s);
        step := Enter;
      } else if s.scanned < s.written {
        step := Scan;
      } else {
        step := Write;
      }
    case Popping(_, _, _) => step := if SomethingUnread(s) then Pop else EndPop;
    case Copying(_, _, _, remaining, _) => step := if remaining > 0 then Copy else Release;
  }

  ghost predicate NoNewRead(steps: seq<Step>) {
    forall step <- steps :: !step.StartRead?
  }

  /** No step is enabled but the start of another read. */
  ghost predicate OnlyNewRead(stream: seq<Block>, s: State)
    requires s.ring.Valid()
  {
    forall step :: Enabled(stream, s, step) ==> step.StartRead?
  }

  /** A run without a new read has no more steps than remain. */
  lemma {:induction false} RunsAreBounded(stream: seq<Block>, s: State, steps: seq<Step>)
    requires IsRun(stream, s, steps) && Good(stream, s) && NoNewRead(steps)
    ensures steps != [] ==> |steps| <= Remaining(stream, s)
    decreases |steps|
  {
    if steps != [] {
      EveryStepIsProgress(stream, s, steps[0]);
      StepKeepsGood(stream, s, steps[0]);
      RunsAreBounded(stream, Next(stream, s, steps[0]), steps[1..]);
    }
  }

  /** What a step other than the start of a read does to a read: it goes on, or
      it ends with one delivery. */
  lemma StepInRead(stream: seq<Block>, s: State, step: Step)
    requires GoodStream(stream) && Good(stream, s) && Enabled(stream, s, step) && !step.StartRead?
    ensures var t := Next(stream, s, step);
            if s.reader.Idle? then t.reader.Idle? && t.deliveries == s.deliveries
            else if t.reader.Idle? then |t.deliveries| == |s.deliveries| + 1 && s.deliveries <= t.deliveries
            else t.deliveries == s.deliveries
  {
  }

  lemma {:induction false} RunInRead(stream: seq<Block>, s: State, steps: seq<Step>)
    requires IsRun(stream, s, steps) && Good(stream, s) && NoNewRead(steps)
    ensures var t := Final(stream, s, steps);
            if s.reader.Idle? then t.reader.Idle? && t.deliveries == s.deliveries
            else if t.reader.Idle? then |t.deliveries| == |s.deliveries| + 1
            else t.deliveries == s.deliveries
    decreases |steps|
  {
    if steps != [] {
      StepInRead(stream, s, steps[0]);
      StepKeepsGood(stream, s, steps[0]);
      RunInRead(stream, Next(stream, s, steps[0]), steps[1..]);
    }
  }

  lemma {:induction false} EopsGrow(stream: seq<Block>, j: nat, k: nat)
    requires j <= k <= |stream|
    ensures Eops(stream, j) <= Eops(stream, k)
  {
    if j < k {
      EopsGrow(stream, j, k - 1);
    }
  }

  /** While nothing has been delivered, an end of packet that was ahead is ahead still. */
  lemma EndIsAhead(stream: seq<Block>, s: State, t: State, e: nat)
    requires GoodStream(stream) && Good(stream, s) && Good(stream, t) && t.deliveries == s.deliveries
    requires s.released <= e < |stream| && Eop(stream[e])
    ensures t.released <= e
  {
    FramingIsExact(stream, s.released);
    FramingIsExact(stream, t.released);
    if e < t.released {
      EopsGrow(stream, s.released, e);
      EopsGrow(stream, e + 1, t.released);
    }
  }

  /** Reads complete: a run from within a read goes on for no more steps than
      remain, and when it can go no further, if the packet being read ends in
      the stream, the read has returned that packet and its length. */
  lemma ReadCompletes(stream: seq<Block>, s: State, steps: seq<Step>, e: nat)
    requires IsRun(stream, s, steps) && Good(stream, s) && NoNewRead(steps) && !s.reader.Idle?
    requires s.released <= e < |stream| && Eop(stream[e])
    ensures steps != [] ==> |steps| <= Remaining(stream, s)
    ensures Final(stream, s, steps).ring.Valid()
    ensures OnlyNewRead(stream, Final(stream, s, steps)) ==>
              var t, n, packets := Final(stream, s, steps), |s.deliveries|, Frame(stream, |stream|).packets;
              && t.reader.Idle? && |t.deliveries| == n + 1 && n < |packets|
              && t.deliveries[n] == Delivery(packets[n], |packets[n]|)
  {
    var t := Final(stream, s, steps);
    RunsAreBounded(stream, s, steps);
    EveryRunIsGood(stream, s, steps);
    RunInRead(stream, s, steps);
    FramesGrow(stream, t.released, |stream|);
    if OnlyNewRead(stream, t) && !t.reader.Idle? {
      EndIsAhead(stream, s, t, e);
      var step := ReadIsNeverStuck(stream, t, e);
      assert false;
    }
  }

  lemma StepThen(stream: seq<Block>, s: State, step: Step, rest: seq<Step>)
    requires CanRun(stream, s) && Enabled(stream, s, step) && IsRun(stream, Next(stream, s, step), rest)
    ensures IsRun(stream, s, [step] + rest)
    ensures Final(stream, s, [step] + rest) == Final(stream, Next(stream, s, step), rest)
  {
    assert ([step] + rest)[1..] == rest;
  }

  lemma {:induction false} RunThen(stream: seq<Block>, s: State, steps: seq<Step>, more: seq<Step>)
    requires IsRun(stream, s, steps) && IsRun(stream, Final(stream, s, steps), more)
    ensures IsRun(stream, s, steps + more)
    ensures Final(stream, s, steps + more) == Final(stream, Final(stream, s, steps), more)
    decreases |steps|
  {
    if steps == [] {
      assert steps + more == more;
    } else {
      RunThen(stream, Next(stream, s, steps[0]), steps[1..], more);
      assert (steps + more)[1..] == steps[1..] + more;
    }
  }

  /** A read whose packet ends in the stream can be brought to its end. */
  lemma {:induction false} FinishRead(stream: seq<Block>, s: State, e: nat) returns (steps: seq<Step>)
    requires GoodStream(stream) && Good(stream, s) && !s.reader.Idle?
    requires s.released <= e < |stream| && Eop(stream[e])
    ensures IsRun(stream, s, steps) && Final(stream, s, steps).reader.Idle?
    ensures |Final(stream, s, steps).deliveries| == |s.deliveries| + 1
    decreases Remaining(stream, s)
  {
    var step := ReadIsNeverStuck(stream, s, e);
    var t := Next(stream, s, step);
    EveryStepIsProgress(stream, s, step);
    StepKeepsGood(stream, s, step);
    StepInRead(stream, s, step);
    var rest := [];
    if !t.reader.Idle? {
      EndIsAhead(stream, s, t, e);
      rest := FinishRead(stream, t, e);
    }
    StepThen(stream, s, step, rest);
    steps := [step] + rest;
  }

  lemma {:induction false} EopAhead(stream: seq<Block>, j: nat, k: nat) returns (e: nat)
    requires j <= k <= |stream| && Eops(stream, j) < Eops(stream, k)
    ensures j <= e < k && Eop(stream[e])
  {
    e := k - 1;
    if !Eop(stream[e]) {
      e := EopAhead(stream, j, k - 1);
    }
  }

  /** The next packet of the stream can be read. */
  lemma ReadOne(stream: seq<Block>, s: State) returns (steps: seq<Step>)
    requires GoodStream(stream) && Good(stream, s) && s.reader.Idle?
    requires |s.deliveries| < |Frame(stream, |stream|).packets|
    ensures IsRun(stream, s, steps) && Final(stream, s, steps).reader.Idle?
    ensures |Final(stream, s, steps).deliveries| == |s.deliveries| + 1
  {
    FramingIsExact(stream, s.released);
    FramingIsExact(stream, |stream|);
    var e := EopAhead(stream, s.released, |stream|);
    StepKeepsGood(stream, s, StartRead);
    var rest := FinishRead(stream, Next(stream, s, StartRead), e);
    StepThen(stream, s, StartRead, rest);
    steps := [StartRead] + rest;
  }

  lemma {:induction false} ReadOn(stream: seq<Block>, s: State) returns (steps: seq<Step>)
    requires GoodStream(stream) && Good(stream, s) && s.reader.Idle?
    requires |s.deliveries| <= |Frame(stream, |stream|).packets|
    ensures IsRun(stream, s, steps) && |Final(stream, s, steps).deliveries| == |Frame(stream, |stream|).packets|
    decreases |Frame(stream, |stream|).packets| - |s.deliveries|
  {
    steps := [];
    if |s.deliveries| < |Frame(stream, |stream|).packets| {
      var first := ReadOne(stream, s);
      EveryRunIsGood(stream, s, first);
      var rest := ReadOn(stream, Final(stream, s, first));
      RunThen(stream, s, first, rest);
      steps := first + rest;
    }
  }

  /** Every stream can be read to the end: from the beginning there is a run that
      delivers all of its packets. */
  lemma EveryPacketCanBeRead(stream: seq<Block>, s: State) returns (steps: seq<Step>)
    requires GoodStream(stream) && Initial(s)
    ensures IsRun(stream, s, steps)
    ensures var deliveries, packets := Final(stream, s, steps).deliveries, Frame(stream, |stream|).packets;
            && |deliveries| == |packets|
            && forall n :: 0 <= n < |packets| ==> deliveries[n] == Delivery(packets[n], |packets[n]|)
  {
    InitiallyGood(stream, s);
    steps := ReadOn(stream, s);
    PacketFraming(stream, s, steps);
  }

  // ---- the steps are the rounds of the methods ---------------------------------------------------

  /** Pop steps that nothing comes between do what the pop loop of
      complete_cyclic, started on ring s0, promises. */
  lemma PopStepsFollowLoop(stream: seq<Block>, s0: RingState, n: nat, s: State)
    requires GoodStream(stream) && Consistent(s) && s0.Valid() && s.reader.Popping?
    requires PopLoop(s0, n, s.ring, s.reader.numCredit, s.reader.pktLength)
    ensures Enabled(stream, s, EndPop) ==> PopDone(s0, s.ring, false, s.reader.numCredit, s.reader.pktLength)
    ensures Enabled(stream, s, Pop) ==>
              var t := AfterPopStep(s);
              match t.reader
              case Faulted => PopDone(s0, t.ring, true, s.reader.numCredit, s.reader.pktLength)
              case Copying(_, numCredit, len, _, _) => PopDone(s0, t.ring, false, numCredit, len)
              case Popping(_, numCredit, len) => PopLoop(s0, n + 1, t.ring, numCredit, len)
              case _ => false
  {
    if SomethingUnread(s) {
      PopRound(s0, n, s.ring, s.reader.numCredit, s.reader.pktLength);
    } else {
      PopEnds(s0, n, s.ring, s.reader.numCredit, s.reader.pktLength);
    }
  }

  /** The copy steps that are left deliver what copy_cyclic_to_user promises. */
  function CopyAll(s: State): State
    requires Consistent(s) && s.reader.Copying? && s.reader.head < RX_BUF_PAGES
    decreases if s.reader.Copying? then s.reader.remaining else 0
  {
    if s.reader.remaining == 0 then s else CopyAll(AfterCopy(s))
  }

  lemma {:induction false} CopyStepsFollowLoop(s: State)
    requires Consistent(s) && s.reader.Copying? && s.reader.head < RX_BUF_PAGES
    ensures CopyAll(s).user == s.user + CopyBytes(s.buffer, s.reader.head, s.reader.remaining)
    ensures CopyAll(s).ring == s.ring && CopyAll(s).credits == s.credits
    decreases s.reader.remaining
  {
    if s.reader.remaining > 0 {
      CopyStepsFollowLoop(AfterCopy(s));
      CopyBytesSlot(s.buffer, s.reader.head + 1, s.reader.remaining - Least(s.reader.remaining, RX_BUF_BLOCK));
    }
  }
}
