/**
 The hand-off between the interrupt handler and the per-engine work items (MSI
 and legacy mode), as a state machine over their atomic steps. The handler
 masks the engines that fired and schedules their work; each work item unmasks
 its own engine once it has serviced it. The machine is stated twice, over sets
 of engines and over the mask words, which refine them.
 */
module Interrupts {
  import opened Words

  const MAX_ENGINES: nat := 8

  /** The eight engine bits of an interrupt mask register. */
  type Mask = bv8

  /** engine_create: the engine's bit is 1 shifted by the engines made before it. */
  function Bit(e: nat): Mask {
    if e == 0 then 1 else Bit(e - 1) << 1
  }

  lemma BitTable()
    ensures Bit(0) == 0x01 && Bit(1) == 0x02 && Bit(2) == 0x04 && Bit(3) == 0x08
    ensures Bit(4) == 0x10 && Bit(5) == 0x20 && Bit(6) == 0x40 && Bit(7) == 0x80
  {
    assert Bit(2) == 0x04;
    assert Bit(4) == 0x10;
    assert Bit(6) == 0x40;
  }

  /** A power of two has nothing in common with any of the others below 2^8. */
  lemma DistinctPowers(b: Mask, c: Mask)
    requires b in {0x01, 0x02, 0x04, 0x08, 0x10, 0x20, 0x40, 0x80}
    requires c in {0x01, 0x02, 0x04, 0x08, 0x10, 0x20, 0x40, 0x80}
    ensures b & b != 0 && (b != c ==> b & c == 0)
  {
  }

  /** The bits of two engines have nothing in common. */
  lemma BitsAreDisjoint(i: nat, j: nat)
    requires i < MAX_ENGINES && j < MAX_ENGINES
    ensures Bit(i) & Bit(i) != 0
    ensures i != j ==> Bit(i) != Bit(j) && Bit(i) & Bit(j) == 0
  {
    BitTable();
    DistinctPowers(Bit(i), Bit(j));
  }

  predicate Has(word: Mask, bit: Mask) {
    word & bit != 0
  }

  /** The engines whose bit is set in a mask word. */
  function Selected(word: Mask): set<nat> {
    set e: nat | e < MAX_ENGINES && Has(word, Bit(e))
  }

  lemma DisableBits(enabled: Mask, ch: Mask, bit: Mask)
    requires bit in {0x01, 0x02, 0x04, 0x08, 0x10, 0x20, 0x40, 0x80}
    ensures Has(enabled & !ch, bit) <==> Has(enabled, bit) && !Has(ch, bit)
  {
  }

  lemma AndOverOr(a: Mask, b: Mask, c: Mask)
    ensures (a | b) & c == (a & c) | (b & c)
  {
  }

  lemma OrIsZero(a: Mask, b: Mask)
    ensures a | b == 0 <==> a == 0 && b == 0
  {
  }

  /** Writing a word to the disable register masks the engines it selects. */
  lemma DisableMeans(enabled: Mask, ch: Mask)
    ensures Selected(enabled & !ch) == Selected(enabled) - Selected(ch)
  {
    BitTable();
    forall e: nat | e < MAX_ENGINES
      ensures Has(enabled & !ch, Bit(e)) <==> Has(enabled, Bit(e)) && !Has(ch, Bit(e))
    {
      DisableBits(enabled, ch, Bit(e));
    }
  }

  lemma EnableBit(enabled: Mask, b: Mask, other: Mask)
    ensures Has(enabled | b, other) <==> Has(enabled, other) || Has(b, other)
  {
    AndOverOr(enabled, b, other);
    var x, y := enabled & other, b & other;
    OrIsZero(x, y);
  }

  lemma EnableOne(enabled: Mask, e: nat, i: nat)
    requires e < MAX_ENGINES && i < MAX_ENGINES
    ensures Has(enabled | Bit(e), Bit(i)) <==> i == e || Has(enabled, Bit(i))
  {
    var b, other := Bit(e), Bit(i);
    EnableBit(enabled, b, other);
    SelectsOnly(e, i);
  }

  lemma SelectsOnly(e: nat, i: nat)
    requires e < MAX_ENGINES && i < MAX_ENGINES
    ensures Has(Bit(e), Bit(i)) <==> i == e
  {
    BitsAreDisjoint(e, i);
  }

  lemma EnableMember(enabled: Mask, e: nat, i: nat)
    requires e < MAX_ENGINES
    ensures i in Selected(enabled | Bit(e)) <==> i == e || i in Selected(enabled)
  {
    if i < MAX_ENGINES {
      EnableOne(enabled, e, i);
    }
  }

  /** Writing an engine's bit to the enable register unmasks that engine and no other. */
  lemma EnableMeans(enabled: Mask, e: nat)
    requires e < MAX_ENGINES
    ensures Selected(enabled | Bit(e)) == Selected(enabled) + {e}
  {
    forall i: nat
      ensures i in Selected(enabled | Bit(e)) <==> i == e || i in Selected(enabled)
    {
      EnableMember(enabled, e, i);
    }
  }

  datatype Phase = Off | Servicing | Leaving

  /** A work item: is it queued, and how far has its running instance come? */
  datatype Work = Work(pending: bool, phase: Phase)

  /** The handler: it has read the request register, or it has masked what it
      read and is about to look at slot `next` of the device's engine table. */
  datatype Handler<T> = NotRunning | HasRead(ch: T) | Scheduling(ch: T, next: nat)

  /** The engine table of the device: which engine each channel and direction has. */
  type Layout = seq<Option<nat>>

  /** Four channels in two directions; each engine has one slot. */
  ghost predicate ValidLayout(layout: Layout, slotOf: seq<nat>) {
    && |layout| == 8 && |slotOf| <= MAX_ENGINES
    && (forall e :: 0 <= e < |slotOf| ==> slotOf[e] < 8 && layout[slotOf[e]] == Some(e))
    && (forall k :: 0 <= k < 8 && layout[k].Some? ==> layout[k].value < |slotOf| && slotOf[layout[k].value] == k)
  }

  /** Engines are selected by mask words or by the sets that these stand for. */
  datatype State<T> = State(enabled: T, handler: Handler<T>, works: seq<Work>)

  predicate Masked(s: State<set<nat>>, e: nat) {
    e !in s.enabled
  }

  datatype Step<T> =
    | Interrupt(ch: T)      // the handler starts and reads the channel request register
    | MaskFired             // it writes what it read to the disable register
    | Visit                 // it looks at the next engine slot and may schedule work
    | Return
    | Begin(e: nat)         // a work item is taken off its queue
    | Unmask(e: nat)        // having serviced the engine, it writes its bit to the enable register
    | Finish(e: nat)

  predicate Enabled<T>(layout: Layout, s: State<T>, step: Step<T>) {
    match step
    case Interrupt(_) => s.handler.NotRunning?
    case MaskFired => s.handler.HasRead?
    case Visit => s.handler.Scheduling? && s.handler.next < |layout|
    case Return => s.handler.Scheduling? && s.handler.next >= |layout|
    case Begin(e) => e < |s.works| && s.works[e].pending && s.works[e].phase.Off?
    case Unmask(e) => e < |s.works| && s.works[e].phase.Servicing?
    case Finish(e) => e < |s.works| && s.works[e].phase.Leaving?
  }

  function Next(layout: Layout, s: State<set<nat>>, step: Step<set<nat>>): State<set<nat>>
    requires Enabled(layout, s, step)
  {
    match step
    case Interrupt(ch) => s.(handler := HasRead(ch))
    case MaskFired => s.(enabled := s.enabled - s.handler.ch, handler := Scheduling(s.handler.ch, 0))
    case Visit =>
      var slot := layout[s.handler.next];
      var moved := s.(handler := Scheduling(s.handler.ch, s.handler.next + 1));
      if slot.Some? && slot.value < |s.works| && slot.value in s.handler.ch
      then moved.(works := s.works[slot.value := s.works[slot.value].(pending := true)])
      else moved
    case Return => s.(handler := NotRunning)
    case Begin(e) => s.(works := s.works[e := Work(false, Servicing)])
    case Unmask(e) => s.(enabled := s.enabled + {e}, works := s.works[e := s.works[e].(phase := Leaving)])
    case Finish(e) => s.(works := s.works[e := s.works[e].(phase := Off)])
  }

  function Initial(engines: nat): State<set<nat>> {
    State(Selected(0xff), NotRunning, seq(engines, _ => Work(false, Off)))
  }

  ghost predicate IsRun(layout: Layout, s: State<set<nat>>, steps: seq<Step<set<nat>>>)
    decreases |steps|
  {
    steps == [] || (Enabled(layout, s, steps[0]) && IsRun(layout, Next(layout, s, steps[0]), steps[1..]))
  }

  ghost function Final(layout: Layout, s: State<set<nat>>, steps: seq<Step<set<nat>>>): State<set<nat>>
    requires IsRun(layout, s, steps)
    decreases |steps|
  {
    if steps == [] then s else Final(layout, Next(layout, s, steps[0]), steps[1..])
  }

  /** What a step does to one engine. Only the mask write masks it, if it fired,
      and only its own work item unmasks it; only the visit to its slot queues
      its work, if it fired, and only its own work item takes it off the queue,
      which runs once for each time that it is taken off. */
  lemma StepOnEngine(layout: Layout, s: State<set<nat>>, step: Step<set<nat>>, e: nat)
    requires Enabled(layout, s, step) && e < |s.works|
    ensures var t := Next(layout, s, step);
            && |t.works| == |s.works|
            && (Masked(t, e) <==> (step.MaskFired? && e in s.handler.ch) || (Masked(s, e) && step != Unmask(e)))
            && (t.works[e].pending <==>
                  || (step.Visit? && layout[s.handler.next] == Some(e) && e in s.handler.ch)
                  || (s.works[e].pending && step != Begin(e)))
            && t.works[e].phase == (if step == Begin(e) then Servicing else if step == Unmask(e) then Leaving
                                    else if step == Finish(e) then Off else s.works[e].phase)
            && (step == Begin(e) ==> s.works[e] == Work(true, Off))
            && (step == Unmask(e) ==> s.works[e].phase.Servicing?)
            && (step == Finish(e) ==> s.works[e].phase.Leaving?)
  {
  }

  /** What a step does to the handler: it schedules for what it has read and
      masked, slot by slot. */
  lemma StepOnHandler(layout: Layout, s: State<set<nat>>, step: Step<set<nat>>)
    requires Enabled(layout, s, step)
    ensures var h := Next(layout, s, step).handler;
            && (step.Interrupt? ==> h == HasRead(step.ch)) && (step.Return? ==> h == NotRunning)
            && (step.MaskFired? ==> h == Scheduling(s.handler.ch, 0))
            && (step.Visit? ==> h == Scheduling(s.handler.ch, s.handler.next + 1))
            && (step.Begin? || step.Unmask? || step.Finish? ==> h == s.handler)
  {
  }

  /** A masked engine stays masked until its own work item unmasks it. */
  lemma {:induction false} StaysMasked(layout: Layout, s: State<set<nat>>, steps: seq<Step<set<nat>>>, e: nat)
    requires IsRun(layout, s, steps) && e < |s.works| && Masked(s, e) && Unmask(e) !in steps
    ensures Masked(Final(layout, s, steps), e)
    decreases |steps|
  {
    if steps != [] {
      StepOnEngine(layout, s, steps[0], e);
      StaysMasked(layout, Next(layout, s, steps[0]), steps[1..], e);
    }
  }

  /** Once the handler has written what it read to the disable register, each
      engine that fired is masked until its own work item unmasks it. */
  lemma FiredStaysMasked(layout: Layout, s: State<set<nat>>, steps: seq<Step<set<nat>>>, e: nat)
    requires s.handler.HasRead? && e in s.handler.ch && e < |s.works|
    requires IsRun(layout, s, [MaskFired] + steps) && Unmask(e) !in steps
    ensures Masked(Final(layout, s, [MaskFired] + steps), e)
  {
    assert ([MaskFired] + steps)[1..] == steps;
    StepOnEngine(layout, s, MaskFired, e);
    StaysMasked(layout, Next(layout, s, MaskFired), steps, e);
  }

  /** Someone will unmask engine e: its work is queued, or running and not yet
      past the unmasking, or the handler is about to queue it. */
  predicate WillUnmask(s: State<set<nat>>, e: nat, slot: nat)
    requires e < |s.works|
  {
    || s.works[e].pending
    || s.works[e].phase.Servicing?
    || (s.handler.Scheduling? && e in s.handler.ch && s.handler.next <= slot)
  }

  ghost predicate HandedOff(s: State<set<nat>>, slotOf: seq<nat>) {
    && |s.works| == |slotOf|
    && forall e :: 0 <= e < |slotOf| && Masked(s, e) ==> WillUnmask(s, e, slotOf[e])
  }

  lemma StepKeepsHandOff(layout: Layout, slotOf: seq<nat>, s: State<set<nat>>, step: Step<set<nat>>)
    requires ValidLayout(layout, slotOf) && HandedOff(s, slotOf) && Enabled(layout, s, step)
    ensures HandedOff(Next(layout, s, step), slotOf)
  {
  }

  /** In every interleaving of the handler, the work items and the device, a
      masked engine has someone who is going to unmask it. */
  lemma {:induction false} EveryRunHandsOff(layout: Layout, slotOf: seq<nat>, s: State<set<nat>>,
                                            steps: seq<Step<set<nat>>>)
    requires ValidLayout(layout, slotOf) && HandedOff(s, slotOf) && IsRun(layout, s, steps)
    ensures HandedOff(Final(layout, s, steps), slotOf)
    decreases |steps|
  {
    if steps != [] {
      StepKeepsHandOff(layout, slotOf, s, steps[0]);
      EveryRunHandsOff(layout, slotOf, Next(layout, s, steps[0]), steps[1..]);
    }
  }

  /** So when the handler has returned, the work of each engine that fired is
      queued or servicing it, unless it has unmasked the engine already. */
  lemma FiredIsScheduled(layout: Layout, slotOf: seq<nat>, s: State<set<nat>>, steps: seq<Step<set<nat>>>, e: nat)
    requires ValidLayout(layout, slotOf) && HandedOff(s, slotOf) && e < |slotOf|
    requires s.handler.HasRead? && e in s.handler.ch
    requires IsRun(layout, s, [MaskFired] + steps) && Unmask(e) !in steps
    ensures var t := Final(layout, s, [MaskFired] + steps);
            && |t.works| == |slotOf|
            && (t.handler.NotRunning? ==> t.works[e].pending || t.works[e].phase.Servicing?)
  {
    FiredStaysMasked(layout, s, steps, e);
    EveryRunHandsOff(layout, slotOf, s, [MaskFired] + steps);
    var t := Final(layout, s, [MaskFired] + steps);
    assert WillUnmask(t, e, slotOf[e]);
  }

  lemma InitiallyHandedOff(slotOf: seq<nat>)
    requires |slotOf| <= MAX_ENGINES
    ensures HandedOff(Initial(|slotOf|), slotOf)
  {
    BitTable();
  }

  /** From the state that probing leaves, with every channel interrupt enabled. */
  lemma InterruptHandOff(layout: Layout, slotOf: seq<nat>, steps: seq<Step<set<nat>>>, e: nat)
    requires ValidLayout(layout, slotOf) && IsRun(layout, Initial(|slotOf|), steps) && e < |slotOf|
    ensures var end := Final(layout, Initial(|slotOf|), steps);
            |end.works| == |slotOf| && (Masked(end, e) ==> WillUnmask(end, e, slotOf[e]))
  {
    InitiallyHandedOff(slotOf);
    EveryRunHandsOff(layout, slotOf, Initial(|slotOf|), steps);
  }

  /** The steps left to the handler and to the work item of engine e before
      engine e can be unmasked. */
  function StepsLeft(s: State<set<nat>>, e: nat): nat
    requires e < |s.works|
  {
    var handler := match s.handler
      case NotRunning => 0
      case HasRead(_) => 0
      case Scheduling(_, next) => if next < 8 then 8 - next else 0;
    var work := match s.works[e].phase
      case Off => 2
      case Servicing => 1
      case Leaving => 3;
    4 * handler + work
  }

  /** No engine stays masked for lack of a step: while one is masked, a step of
      the handler or of that engine's work item is enabled that brings its
      unmasking nearer, and the last of them unmasks it. */
  lemma MaskedEngineCanProceed(layout: Layout, slotOf: seq<nat>, s: State<set<nat>>, e: nat)
    returns (step: Step<set<nat>>)
    requires ValidLayout(layout, slotOf) && HandedOff(s, slotOf) && e < |slotOf| && Masked(s, e)
    ensures Enabled(layout, s, step) && !step.Interrupt?
    ensures var s' := Next(layout, s, step);
            !Masked(s', e) || StepsLeft(s', e) < StepsLeft(s, e)
  {
    var w := s.works[e];
    if w.phase.Servicing? {
      step := Unmask(e);
    } else if w.phase.Leaving? {
      step := Finish(e);
    } else if w.pending {
      step := Begin(e);
    } else {
      step := Visit;
    }
  }

  /** While an engine is masked, a run of no more steps than are left, of the
      handler and of its work item alone, unmasks it. */
  lemma {:induction false} MaskedEngineIsUnmasked(layout: Layout, slotOf: seq<nat>, s: State<set<nat>>, e: nat)
    returns (steps: seq<Step<set<nat>>>)
    requires ValidLayout(layout, slotOf) && HandedOff(s, slotOf) && e < |slotOf|
    ensures IsRun(layout, s, steps) && !Masked(Final(layout, s, steps), e)
    ensures |steps| <= StepsLeft(s, e) <= 35
    decreases StepsLeft(s, e)
  {
    if !Masked(s, e) {
      return [];
    }
    var step := MaskedEngineCanProceed(layout, slotOf, s, e);
    var next := Next(layout, s, step);
    StepKeepsHandOff(layout, slotOf, s, step);
    var rest := [];
    if Masked(next, e) {
      rest := MaskedEngineIsUnmasked(layout, slotOf, next, e);
    }
    steps := [step] + rest;
    assert steps[1..] == rest;
  }

  // ---- the mask words ---------------------------------------------------------------

  /** One step as the code does it: it writes words to the disable and enable
      registers and tests an engine's bit in what it has read. */
  function NextWord(layout: Layout, w: State<Mask>, step: Step<Mask>): State<Mask>
    requires Enabled(layout, w, step)
  {
    match step
    case Interrupt(ch) => w.(handler := HasRead(ch))
    case MaskFired => w.(enabled := w.enabled & !w.handler.ch, handler := Scheduling(w.handler.ch, 0))
    case Visit =>
      var slot := layout[w.handler.next];
      var moved := w.(handler := Scheduling(w.handler.ch, w.handler.next + 1));
      if slot.Some? && slot.value < |w.works| && Has(w.handler.ch, Bit(slot.value))
      then moved.(works := w.works[slot.value := w.works[slot.value].(pending := true)])
      else moved
    case Return => w.(handler := NotRunning)
    case Begin(e) => w.(works := w.works[e := Work(false, Servicing)])
    case Unmask(e) => w.(enabled := w.enabled | Bit(e), works := w.works[e := w.works[e].(phase := Leaving)])
    case Finish(e) => w.(works := w.works[e := w.works[e].(phase := Off)])
  }

  ghost predicate IsWordRun(layout: Layout, w: State<Mask>, steps: seq<Step<Mask>>)
    decreases |steps|
  {
    steps == [] || (Enabled(layout, w, steps[0]) && IsWordRun(layout, NextWord(layout, w, steps[0]), steps[1..]))
  }

  ghost function FinalWord(layout: Layout, w: State<Mask>, steps: seq<Step<Mask>>): State<Mask>
    requires IsWordRun(layout, w, steps)
    decreases |steps|
  {
    if steps == [] then w else FinalWord(layout, NextWord(layout, w, steps[0]), steps[1..])
  }

  /** probe: every channel interrupt is enabled. */
  function InitialWord(engines: nat): State<Mask> {
    State(0xff, NotRunning, seq(engines, _ => Work(false, Off)))
  }

  function MeaningOfHandler(h: Handler<Mask>): Handler<set<nat>> {
    match h
    case NotRunning => NotRunning
    case HasRead(ch) => HasRead(Selected(ch))
    case Scheduling(ch, next) => Scheduling(Selected(ch), next)
  }

  /** The state that a state of words stands for. */
  function Meaning(w: State<Mask>): State<set<nat>> {
    State(Selected(w.enabled), MeaningOfHandler(w.handler), w.works)
  }

  function MeaningOfStep(step: Step<Mask>): Step<set<nat>> {
    match step
    case Interrupt(ch) => Interrupt(Selected(ch))
    case MaskFired => MaskFired
    case Visit => Visit
    case Return => Return
    case Begin(e) => Begin(e)
    case Unmask(e) => Unmask(e)
    case Finish(e) => Finish(e)
  }

  /** A step on the words is that step on the sets that they stand for. */
  lemma WordStepRefines(layout: Layout, w: State<Mask>, step: Step<Mask>)
    requires |w.works| <= MAX_ENGINES
    ensures Enabled(layout, w, step) <==> Enabled(layout, Meaning(w), MeaningOfStep(step))
    ensures Enabled(layout, w, step) ==>
              Meaning(NextWord(layout, w, step)) == Next(layout, Meaning(w), MeaningOfStep(step))
  {
    if Enabled(layout, w, step) {
      match step
      case MaskFired => MaskFiredRefines(layout, w);
      case Unmask(e) => UnmaskRefines(layout, w, e);
      case Visit => VisitRefines(layout, w);
      case _ =>
    }
  }

  lemma MaskFiredRefines(layout: Layout, w: State<Mask>)
    requires w.handler.HasRead?
    ensures Meaning(NextWord(layout, w, MaskFired)) == Next(layout, Meaning(w), MaskFired)
  {
    DisableMeans(w.enabled, w.handler.ch);
  }

  lemma UnmaskRefines(layout: Layout, w: State<Mask>, e: nat)
    requires e < |w.works| <= MAX_ENGINES && w.works[e].phase.Servicing?
    ensures Meaning(NextWord(layout, w, Unmask(e))) == Next(layout, Meaning(w), Unmask(e))
  {
    EnableMeans(w.enabled, e);
  }

  lemma VisitRefines(layout: Layout, w: State<Mask>)
    requires |w.works| <= MAX_ENGINES && w.handler.Scheduling? && w.handler.next < |layout|
    ensures Meaning(NextWord(layout, w, Visit)) == Next(layout, Meaning(w), Visit)
  {
    var slot := layout[w.handler.next];
    if slot.Some? && slot.value < |w.works| {
      assert slot.value in Selected(w.handler.ch) <==> Has(w.handler.ch, Bit(slot.value));
    }
  }

  /** The same on the words: what a step does to an engine's bits and its work. */
  lemma WordStepOnEngine(layout: Layout, w: State<Mask>, step: Step<Mask>, e: nat)
    requires Enabled(layout, w, step) && e < |w.works| <= MAX_ENGINES
    ensures var t := NextWord(layout, w, step);
            && |t.works| == |w.works|
            && (!Has(t.enabled, Bit(e)) <==>
                  || (step.MaskFired? && Has(w.handler.ch, Bit(e)))
                  || (!Has(w.enabled, Bit(e)) && step != Unmask(e)))
            && (t.works[e].pending <==>
                  || (step.Visit? && layout[w.handler.next] == Some(e) && Has(w.handler.ch, Bit(e)))
                  || (w.works[e].pending && step != Begin(e)))
  {
    WordStepRefines(layout, w, step);
    StepOnEngine(layout, Meaning(w), MeaningOfStep(step), e);
    SelectedBit(w.enabled, e);
    SelectedBit(NextWord(layout, w, step).enabled, e);
    if w.handler.HasRead? || w.handler.Scheduling? {
      SelectedBit(w.handler.ch, e);
    }
  }

  lemma SelectedBit(word: Mask, e: nat)
    requires e < MAX_ENGINES
    ensures e in Selected(word) <==> Has(word, Bit(e))
  {
  }

  lemma {:induction false} BitStaysClear(layout: Layout, w: State<Mask>, steps: seq<Step<Mask>>, e: nat)
    requires IsWordRun(layout, w, steps) && e < |w.works| <= MAX_ENGINES
    requires !Has(w.enabled, Bit(e)) && Unmask(e) !in steps
    ensures !Has(FinalWord(layout, w, steps).enabled, Bit(e))
    decreases |steps|
  {
    if steps != [] {
      WordStepOnEngine(layout, w, steps[0], e);
      BitStaysClear(layout, NextWord(layout, w, steps[0]), steps[1..], e);
    }
  }

  /** An engine whose bit the handler has read has its bit in the mask register
      cleared by the next write, until its own work item sets it again. */
  lemma FiredBitStaysClear(layout: Layout, w: State<Mask>, steps: seq<Step<Mask>>, e: nat)
    requires w.handler.HasRead? && Has(w.handler.ch, Bit(e)) && e < |w.works| <= MAX_ENGINES
    requires IsWordRun(layout, w, [MaskFired] + steps) && Unmask(e) !in steps
    ensures !Has(FinalWord(layout, w, [MaskFired] + steps).enabled, Bit(e))
  {
    assert ([MaskFired] + steps)[1..] == steps;
    WordStepOnEngine(layout, w, MaskFired, e);
    BitStaysClear(layout, NextWord(layout, w, MaskFired), steps, e);
  }

  lemma WordStepThen(layout: Layout, w: State<Mask>, step: Step<Mask>, rest: seq<Step<Mask>>)
    requires Enabled(layout, w, step) && IsWordRun(layout, NextWord(layout, w, step), rest)
    ensures IsWordRun(layout, w, [step] + rest)
    ensures FinalWord(layout, w, [step] + rest) == FinalWord(layout, NextWord(layout, w, step), rest)
  {
    assert ([step] + rest)[1..] == rest;
  }

  /** What the handler leaves when it goes through the slots from `next` on. */
  ghost predicate Scheduled(w: State<Mask>, t: State<Mask>, slotOf: seq<nat>, ch: Mask, next: nat) {
    && t.handler == NotRunning && t.enabled == w.enabled && |t.works| == |w.works| == |slotOf|
    && forall e :: 0 <= e < |slotOf| ==>
         && t.works[e].phase == w.works[e].phase
         && (t.works[e].pending <==> w.works[e].pending || (Has(ch, Bit(e)) && next <= slotOf[e]))
  }

  lemma {:induction false} VisitAll(layout: Layout, slotOf: seq<nat>, w: State<Mask>) returns (steps: seq<Step<Mask>>)
    requires ValidLayout(layout, slotOf) && |w.works| == |slotOf|
    requires w.handler.Scheduling? && w.handler.next <= 8
    ensures IsWordRun(layout, w, steps)
    ensures Scheduled(w, FinalWord(layout, w, steps), slotOf, w.handler.ch, w.handler.next)
    decreases 8 - w.handler.next
  {
    if w.handler.next == 8 {
      WordStepThen(layout, w, Return, []);
      steps := [Return];
      return;
    }
    var rest := VisitAll(layout, slotOf, NextWord(layout, w, Visit));
    WordStepThen(layout, w, Visit, rest);
    steps := [Visit] + rest;
  }

  /** One pass of the handler, uninterrupted: for any word that it reads, it masks
      the engines that this selects and queues the work of those, and no other. */
  lemma HandlerPass(layout: Layout, slotOf: seq<nat>, w: State<Mask>, ch: Mask) returns (steps: seq<Step<Mask>>)
    requires ValidLayout(layout, slotOf) && |w.works| == |slotOf| && w.handler.NotRunning?
    ensures steps != [] && steps[0] == Interrupt(ch) && IsWordRun(layout, w, steps)
    ensures var t := FinalWord(layout, w, steps);
            && t.handler.NotRunning? && |t.works| == |slotOf|
            && forall e :: 0 <= e < |slotOf| ==>
                 && (Has(t.enabled, Bit(e)) <==> Has(w.enabled, Bit(e)) && !Has(ch, Bit(e)))
                 && (t.works[e].pending <==> w.works[e].pending || Has(ch, Bit(e)))
                 && t.works[e].phase == w.works[e].phase
  {
    var read := NextWord(layout, w, Interrupt(ch));
    var masked := NextWord(layout, read, MaskFired);
    var rest := VisitAll(layout, slotOf, masked);
    WordStepThen(layout, read, MaskFired, rest);
    WordStepThen(layout, w, Interrupt(ch), [MaskFired] + rest);
    steps := [Interrupt(ch)] + ([MaskFired] + rest);
    forall e | 0 <= e < |slotOf|
      ensures Has(masked.enabled, Bit(e)) <==> Has(w.enabled, Bit(e)) && !Has(ch, Bit(e))
    {
      WordStepOnEngine(layout, w, Interrupt(ch), e);
      WordStepOnEngine(layout, read, MaskFired, e);
    }
  }

  /** One pass of a work item: it sets its engine's bit and is off the queue. */
  lemma WorkPass(layout: Layout, w: State<Mask>, e: nat)
    requires e < |w.works| <= MAX_ENGINES && w.works[e].pending && w.works[e].phase.Off?
    ensures IsWordRun(layout, w, [Begin(e), Unmask(e), Finish(e)])
    ensures var t := FinalWord(layout, w, [Begin(e), Unmask(e), Finish(e)]);
            && Has(t.enabled, Bit(e)) && t.works == w.works[e := Work(false, Off)] && t.handler == w.handler
  {
    var begun := NextWord(layout, w, Begin(e));
    var unmasked := NextWord(layout, begun, Unmask(e));
    WordStepOnEngine(layout, begun, Unmask(e), e);
    WordStepThen(layout, unmasked, Finish(e), []);
    WordStepThen(layout, begun, Unmask(e), [Finish(e)]);
    WordStepThen(layout, w, Begin(e), [Unmask(e)] + [Finish(e)]);
    var steps: seq<Step<Mask>> := [Begin(e), Unmask(e), Finish(e)];
    assert steps == [Begin(e)] + ([Unmask(e)] + [Finish(e)]);
  }

  ghost predicate WordHandedOff(w: State<Mask>, slotOf: seq<nat>) {
    HandedOff(Meaning(w), slotOf)
  }

  lemma WordStepKeepsHandOff(layout: Layout, slotOf: seq<nat>, w: State<Mask>, step: Step<Mask>)
    requires ValidLayout(layout, slotOf) && WordHandedOff(w, slotOf) && Enabled(layout, w, step)
    ensures WordHandedOff(NextWord(layout, w, step), slotOf)
  {
    WordStepRefines(layout, w, step);
    StepKeepsHandOff(layout, slotOf, Meaning(w), MeaningOfStep(step));
  }

  lemma {:induction false} EveryWordRunHandsOff(layout: Layout, slotOf: seq<nat>, w: State<Mask>,
                                                steps: seq<Step<Mask>>)
    requires ValidLayout(layout, slotOf) && WordHandedOff(w, slotOf) && IsWordRun(layout, w, steps)
    ensures WordHandedOff(FinalWord(layout, w, steps), slotOf)
    decreases |steps|
  {
    if steps != [] {
      WordStepKeepsHandOff(layout, slotOf, w, steps[0]);
      EveryWordRunHandsOff(layout, slotOf, NextWord(layout, w, steps[0]), steps[1..]);
    }
  }

  /** What the hand-off says of the words: the handler has read the engine's bit
      and not yet come to its slot, if its work is neither queued nor servicing. */
  predicate WillSetBit(w: State<Mask>, e: nat, slot: nat)
    requires e < |w.works|
  {
    || w.works[e].pending || w.works[e].phase.Servicing?
    || (w.handler.Scheduling? && Has(w.handler.ch, Bit(e)) && w.handler.next <= slot)
  }

  lemma HandOffOnWords(w: State<Mask>, slotOf: seq<nat>, e: nat)
    requires WordHandedOff(w, slotOf) && e < |slotOf| <= MAX_ENGINES
    ensures !Has(w.enabled, Bit(e)) ==> WillSetBit(w, e, slotOf[e])
  {
    if !Has(w.enabled, Bit(e)) {
      assert Masked(Meaning(w), e);
      assert WillUnmask(Meaning(w), e, slotOf[e]);
    }
  }

  /** In every interleaving from probing on, an engine whose bit in the mask
      register is clear has its work queued or not yet past the unmasking, or
      the handler has read its bit and not yet come to its slot. */
  lemma WordHandOff(layout: Layout, slotOf: seq<nat>, steps: seq<Step<Mask>>, e: nat)
    requires ValidLayout(layout, slotOf) && IsWordRun(layout, InitialWord(|slotOf|), steps) && e < |slotOf|
    ensures var w := FinalWord(layout, InitialWord(|slotOf|), steps);
            |w.works| == |slotOf| && (!Has(w.enabled, Bit(e)) ==> WillSetBit(w, e, slotOf[e]))
  {
    InitiallyHandedOff(slotOf);
    assert Meaning(InitialWord(|slotOf|)) == Initial(|slotOf|);
    EveryWordRunHandsOff(layout, slotOf, InitialWord(|slotOf|), steps);
    HandOffOnWords(FinalWord(layout, InitialWord(|slotOf|), steps), slotOf, e);
  }

  /** A step that reads no register, on the words. */
  function OnWords(step: Step<set<nat>>): (word: Step<Mask>)
    requires !step.Interrupt?
    ensures MeaningOfStep(word) == step
  {
    match step
    case MaskFired => MaskFired
    case Visit => Visit
    case Return => Return
    case Begin(e) => Begin(e)
    case Unmask(e) => Unmask(e)
    case Finish(e) => Finish(e)
  }

  /** From where such a run leaves off, no more than 35 steps of the handler and
      of the engine's own work item set its bit in the mask register again. */
  lemma {:induction false} MaskedBitIsSet(layout: Layout, slotOf: seq<nat>, w: State<Mask>, e: nat)
    returns (steps: seq<Step<Mask>>)
    requires ValidLayout(layout, slotOf) && WordHandedOff(w, slotOf) && e < |slotOf|
    ensures IsWordRun(layout, w, steps) && Has(FinalWord(layout, w, steps).enabled, Bit(e))
    ensures |steps| <= StepsLeft(Meaning(w), e) <= 35
    decreases StepsLeft(Meaning(w), e)
  {
    if Has(w.enabled, Bit(e)) {
      return [];
    }
    var step := MaskedEngineCanProceed(layout, slotOf, Meaning(w), e);
    var word := OnWords(step);
    WordStepRefines(layout, w, word);
    WordStepKeepsHandOff(layout, slotOf, w, word);
    var next, rest := NextWord(layout, w, word), [];
    if !Has(next.enabled, Bit(e)) {
      rest := MaskedBitIsSet(layout, slotOf, next, e);
    }
    steps := [word] + rest;
    assert steps[1..] == rest;
  }
}
