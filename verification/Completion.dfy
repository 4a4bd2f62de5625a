/** A copy whose channels have all been triggered can always be completed: from every state
    it can be in, the engine's own steps and the interrupts lead to the full count. */
module Completion {
  import opened Bits
  import opened Descriptor
  import opened Coherence
  import opened Transfer

  /** The steps of the DMA engine, its interrupts included. */
  predicate IsEngineStep(s: Step) {
    s.Fetch? || s.Move? || s.Finish? || s.Interrupt?
  }

  ghost predicate EngineRun(steps: seq<Step>) {
    forall s | s in steps :: IsEngineStep(s)
  }

  /** The engine can take the count to `target`. */
  ghost predicate CanReach(c: Chip, h: Hw, target: nat) {
    exists steps :: EngineRun(steps) && Run(c, h, steps).count >= target
  }

  /** What a triggered channel does next. */
  function NextStep(e: Engine, ch: nat): Step {
    match e
    case Moving(d, k) => if k < Elements(d) then Move(ch) else Finish(ch)
    case Finished(_) => Interrupt(ch)
    case _ => Fetch(ch)
  }

  /** How many steps a triggered channel is from having been counted. */
  function Left(e: Engine, job: seq<Link>): nat
    requires |job| == 1
  {
    match e
    case Moving(d, k) => if k < Elements(d) then Elements(d) - k + 2 else 2
    case Finished(_) => 1
    case Done => 0
    case _ => Elements(job[0].d) + 3
  }

  /** A triggered channel of a copy with callbacks, in the middle of its slice. */
  ghost predicate OnItsWay(y: Copy, h: Hw, ch: nat, job: seq<Link>)
    requires ch < |h.chans|
  {
    y.irq && Phase(h.chans[ch]) == 2 && SliceOk(y, h, ch, job)
  }

  /** Channel `ch` has gone on by one step, and no other channel has moved. */
  ghost predicate GoesOn(h: Hw, h': Hw, ch: nat, job: seq<Link>)
    requires ch < |h.chans| && |job| == 1
  {
    && |h'.chans| == |h.chans| && h'.chans == h.chans[ch := h'.chans[ch]]
    && Phase(h'.chans[ch]) == 2 && Left(h'.chans[ch], job) < Left(h.chans[ch], job)
  }

  lemma ArmedStep(c: Chip, p: Plan, h: Hw, ch: nat, job: seq<Link>)
    requires ch < |h.chans| && h.chans[ch] == Armed && |job| == 1 && JobReady(c, p, h, ch, job)
    ensures GoesOn(h, Do(c, h, Fetch(ch)), ch, job)
  {
    assert LinkReady(c, p, h, job[0]);
    hide Copies, Op, Elements, Entry, WordAt, DescAt, Steady, InTarget;
  }

  lemma MovingStep(c: Chip, h: Hw, ch: nat, job: seq<Link>)
    requires ch < |h.chans| && h.chans[ch].Moving? && |job| == 1 && h.chans[ch].k <= Elements(h.chans[ch].d)
    requires Copies(h.chans[ch].d) && Op(h.chans[ch].d) == 1
    ensures GoesOn(h, Do(c, h, NextStep(h.chans[ch], ch)), ch, job)
  {
    hide Copies, Op, Elements, Entry, WordAt, DescAt, ElementAt, Moved;
  }

  lemma FinishedStep(c: Chip, h: Hw, ch: nat, job: seq<Link>)
    requires ch < |h.chans| && h.chans[ch] == Finished(true) && |job| == 1
    ensures GoesOn(h, Do(c, h, Interrupt(ch)), ch, job)
  {}

  lemma OneStep(c: Chip, p: Plan, h: Hw, ch: nat, job: seq<Link>, y: Copy)
    requires ch < |h.chans| && OnItsWay(y, h, ch, job) && EngineOk(c, p, h, ch, job)
    requires h.chans[ch] != Done && |job| == 1
    ensures GoesOn(h, Do(c, h, NextStep(h.chans[ch], ch)), ch, job)
  {
    var e := h.chans[ch];
    if e == Armed || e.Moving? { SliceDescOp(y, ch, job[0].d); }
    hide GoesOn, Op, Arrived, JobReady, Do;
    if e == Armed {
      ArmedStep(c, p, h, ch, job);
    } else if e.Moving? {
      MovingStep(c, h, ch, job);
    } else {
      FinishedStep(c, h, ch, job);
    }
  }

  // ------------------------------------------------------------------ one channel

  /** The run so far: engine steps from `h0` that keep the invariant, and channels below `n`
      done, the others of the copy on their way. */
  ghost predicate SoFar(c: Chip, p: Plan, h0: Hw, jobs: seq<seq<Link>>, steps: seq<Step>, n: nat) {
    && p.copy.Some? && p.copy.value.used <= |jobs| && EngineRun(steps)
    && var h, y := Run(c, h0, steps), p.copy.value;
       && Inv(c, p, h, jobs, y.used) && |h.chans| == |jobs|
       && forall ch | 0 <= ch < y.used :: |jobs[ch]| == 1 && y.irq && Phase(h.chans[ch]) == 2 && (ch < n ==> h.chans[ch] == Done)
  }

  lemma StillOnItsWay(c: Chip, p: Plan, h: Hw, jobs: seq<seq<Link>>, n: nat)
    requires p.copy.Some? && Inv(c, p, h, jobs, p.copy.value.used) && n < p.copy.value.used <= |jobs| == |h.chans|
    requires p.copy.value.irq && Phase(h.chans[n]) == 2
    ensures OnItsWay(p.copy.value, h, n, jobs[n]) && EngineOk(c, p, h, n, jobs[n])
  {
    hide CopyOk, SliceOk, EngineOk, CopyLine;
  }

  lemma EngineStepNext(e: Engine, ch: nat)
    ensures IsEngineStep(NextStep(e, ch))
  {}

  lemma RunMore(c: Chip, h0: Hw, steps: seq<Step>, s: Step)
    ensures Run(c, h0, steps + [s]) == Do(c, Run(c, h0, steps), s)
  {
    assert (steps + [s])[..|steps|] == steps;
    hide Do;
  }

  lemma SoFarNext(c: Chip, p: Plan, h0: Hw, jobs: seq<seq<Link>>, steps: seq<Step>, s: Step, h: Hw, h': Hw, n: nat)
    requires SoFar(c, p, h0, jobs, steps, n) && n < p.copy.value.used && IsEngineStep(s)
    requires h == Run(c, h0, steps) && h' == Run(c, h0, steps + [s])
    requires Inv(c, p, h', jobs, p.copy.value.used) && n < |h.chans| && GoesOn(h, h', n, jobs[n])
    ensures SoFar(c, p, h0, jobs, steps + [s], n)
  {
    hide Run, Inv, Left, IsEngineStep, Phase;
  }

  lemma SoFarMore(c: Chip, p: Plan, h0: Hw, jobs: seq<seq<Link>>, steps: seq<Step>, n: nat)
    requires SoFar(c, p, h0, jobs, steps, n) && n < p.copy.value.used && Run(c, h0, steps).chans[n] != Done
    ensures var h := Run(c, h0, steps);
      var s := NextStep(h.chans[n], n);
      SoFar(c, p, h0, jobs, steps + [s], n) && GoesOn(h, Run(c, h0, steps + [s]), n, jobs[n])
  {
    var h, y := Run(c, h0, steps), p.copy.value;
    var s := NextStep(h.chans[n], n);
    var h' := Do(c, h, s);
    RunMore(c, h0, steps, s);
    EngineStepNext(h.chans[n], n);
    assert |jobs[n]| == 1 && n < |h.chans| && |h.chans| == |jobs| && Phase(h.chans[n]) == 2 && y.irq;
    assert Inv(c, p, h, jobs, y.used);
    hide SoFar, Run, Inv, OnItsWay, EngineOk, Do, NextStep, GoesOn;
    StillOnItsWay(c, p, h, jobs, n);
    OneStep(c, p, h, n, jobs[n], y);
    EnvStepInv(c, p, h, jobs, y.used, s);
    SoFarNext(c, p, h0, jobs, steps, s, h, h', n);
  }

  lemma {:induction false} FinishOne(c: Chip, p: Plan, h0: Hw, jobs: seq<seq<Link>>, steps: seq<Step>, n: nat)
      returns (steps': seq<Step>)
    requires SoFar(c, p, h0, jobs, steps, n) && n < p.copy.value.used
    ensures SoFar(c, p, h0, jobs, steps', n + 1)
    decreases Left(Run(c, h0, steps).chans[n], jobs[n])
  {
    var e := Run(c, h0, steps).chans[n];
    if e == Done {
      steps' := steps;
    } else {
      SoFarMore(c, p, h0, jobs, steps, n);
      hide SoFar, Run, Left, NextStep;
      steps' := FinishOne(c, p, h0, jobs, steps + [NextStep(e, n)], n);
    }
  }

  lemma {:induction false} FinishFrom(c: Chip, p: Plan, h0: Hw, jobs: seq<seq<Link>>, steps: seq<Step>, n: nat)
      returns (steps': seq<Step>)
    requires SoFar(c, p, h0, jobs, steps, n) && n <= p.copy.value.used
    ensures SoFar(c, p, h0, jobs, steps', p.copy.value.used)
    decreases p.copy.value.used - n
  {
    if n == p.copy.value.used {
      steps' := steps;
    } else {
      steps' := FinishOne(c, p, h0, jobs, steps, n);
      steps' := FinishFrom(c, p, h0, jobs, steps', n + 1);
    }
  }

  lemma {:induction false} DoneCounted(es: seq<Engine>)
    requires forall i | 0 <= i < |es| :: es[i] == Done
    ensures DoneCount(es) == |es|
  {
    if es != [] { DoneCounted(es[..|es| - 1]); }
  }

  /** Wherever a copy with callbacks is once all its channels have been triggered, the engine
      can complete it, and then every callback has been counted. */
  lemma CanComplete(c: Chip, p: Plan, h: Hw, jobs: seq<seq<Link>>, begun: nat)
    requires Inv(c, p, h, jobs, begun) && p.copy.Some? && begun == p.copy.value.used && p.copy.value.irq
    requires begun <= |h.chans| == |jobs| && forall ch | 0 <= ch < begun :: Phase(h.chans[ch]) == 2 && |jobs[ch]| == 1
    ensures CanReach(c, h, begun + p.copy.value.extra)
  {
    assert Run(c, h, []) == h;
    assert SoFar(c, p, h, jobs, [], 0) by { hide Inv; }
    var steps := FinishFrom(c, p, h, jobs, [], 0);
    var h' := Run(c, h, steps);
    AllCounted(c, p, h', jobs, begun);
  }

  lemma AllCounted(c: Chip, p: Plan, h: Hw, jobs: seq<seq<Link>>, begun: nat)
    requires Inv(c, p, h, jobs, begun) && p.copy.Some? && begun <= |h.chans|
    requires forall ch | 0 <= ch < begun :: h.chans[ch] == Done
    ensures h.count == begun + p.copy.value.extra
  {
    DoneCounted(h.chans[..begun]);
    hide EnginesOk, CopyOk, CopyLine, IsDirty, SliceOk, DoneCount;
  }

  // ------------------------------------------------------------------ chains

  /** Raw memory after the first `k` elements of a descriptor have been moved, each from and
      to its place before the end addresses. */
  function MovedUpTo(raw: u32 -> byte, d: Desc, k: nat): u32 -> byte {
    if k == 0 then raw
    else
      var left := 4 * (Elements(d) - k);
      Moved(MovedUpTo(raw, d, k - 1), Wrap(d.sar - left), Wrap(d.dar - left))
  }

  /** ... and after the first `j` descriptors of a chain. */
  function ChainMoved(raw: u32 -> byte, job: seq<Link>, j: nat): u32 -> byte
    requires j <= |job|
  {
    if j == 0 then raw else MovedUpTo(ChainMoved(raw, job, j - 1), job[j - 1].d, Elements(job[j - 1].d))
  }

  /** A chain of copies: the last descriptor ends it, the others go on. */
  ghost predicate CopyChain(job: seq<Link>) {
    && job != [] && (forall j | 0 <= j < |job| :: Copies(job[j].d))
    && (forall j | 0 <= j < |job| :: Op(job[j].d) == if j == |job| - 1 then 1 else 2)
  }

  /** Channel `ch` has come to element `k` of descriptor `j` of its chain, and no other moved. */
  ghost predicate AtElement(h0: Hw, h: Hw, ch: nat, job: seq<Link>, j: nat, k: nat) {
    && ch < |h0.chans| && j < |job| && k <= Elements(job[j].d)
    && h.chans == h0.chans[ch := Moving(job[j].d, k)]
    && h.raw == MovedUpTo(ChainMoved(h0.raw, job, j), job[j].d, k)
  }

  /** The channel has finished, having moved every element of every descriptor in order. */
  ghost predicate AtEnd(h0: Hw, h: Hw, ch: nat, job: seq<Link>) {
    && job != [] && ch < |h0.chans| && h.raw == ChainMoved(h0.raw, job, |job|)
    && h.chans == h0.chans[ch := Finished(Field(job[|job| - 1].d.ctrl, 29, 1) == 1)]
  }

  lemma ElementMoved(c: Chip, h: Hw, ch: nat)
    requires ch < |h.chans| && h.chans[ch].Moving? && Copies(h.chans[ch].d) && h.chans[ch].k < Elements(h.chans[ch].d)
    ensures var d, k := h.chans[ch].d, h.chans[ch].k;
      var left := 4 * (Elements(d) - (k + 1));
      var h' := Do(c, h, Move(ch));
      h'.chans == h.chans[ch := Moving(d, k + 1)] && h'.raw == Moved(h.raw, Wrap(d.sar - left), Wrap(d.dar - left))
  {
    hide Copies, Elements, Moved;
  }

  lemma OneMoreMoved(raw: u32 -> byte, d: Desc, k: nat)
    requires k < Elements(d)
    ensures var left := 4 * (Elements(d) - (k + 1));
      MovedUpTo(raw, d, k + 1) == Moved(MovedUpTo(raw, d, k), Wrap(d.sar - left), Wrap(d.dar - left))
  {
    hide Elements, Moved, Wrap;
  }

  lemma NextElement(c: Chip, h0: Hw, h: Hw, ch: nat, job: seq<Link>, j: nat, k: nat)
    requires AtElement(h0, h, ch, job, j, k) && CopyChain(job) && k < Elements(job[j].d)
    ensures AtElement(h0, Do(c, h, Move(ch)), ch, job, j, k + 1)
  {
    OneMoreMoved(ChainMoved(h0.raw, job, j), job[j].d, k);
    hide Do, Elements, Copies, Moved, Op, ChainMoved, MovedUpTo, Wrap;
    ElementMoved(c, h, ch);
  }

  lemma DescriptorEnds(c: Chip, p: Plan, h: Hw, ch: nat, job: seq<Link>, j: nat)
    requires ch < |h.chans| && j < |job| && h.chans[ch] == Moving(job[j].d, Elements(job[j].d))
    requires CopyChain(job) && JobReady(c, p, h, ch, job)
    ensures var h' := Do(c, h, Finish(ch));
      && h'.raw == h.raw
      && h'.chans == h.chans[ch := if j == |job| - 1 then Finished(Field(job[j].d.ctrl, 29, 1) == 1)
                                   else Moving(job[j + 1].d, 0)]
  {
    hide Copies, Elements, DescAt, WordAt, Op, Steady, InTarget, Entry, Field, Do;
    if j < |job| - 1 { assert LinkReady(c, p, h, job[j + 1]); }
    Finishes(c, h, ch);
  }

  /** What the end of a descriptor does to its channel. */
  lemma Finishes(c: Chip, h: Hw, ch: nat)
    requires ch < |h.chans| && h.chans[ch].Moving? && h.chans[ch].k == Elements(h.chans[ch].d)
    ensures var d, h' := h.chans[ch].d, Do(c, h, Finish(ch));
      && h'.raw == h.raw
      && (Op(d) == 1 ==> h'.chans == h.chans[ch := Finished(Field(d.ctrl, 29, 1) == 1)])
      && (Op(d) == 2 ==> h'.chans == h.chans[ch := Moving(DescAt(h.raw, d.llp), 0)])
  {
    hide Copies, Elements, DescAt, WordAt, Op, Entry, Field;
  }

  lemma NextDescriptor(raw: u32 -> byte, job: seq<Link>, j: nat, k: nat)
    requires j < |job| && k == Elements(job[j].d)
    ensures ChainMoved(raw, job, j + 1) == MovedUpTo(ChainMoved(raw, job, j), job[j].d, k)
    ensures j + 1 < |job| ==> MovedUpTo(ChainMoved(raw, job, j + 1), job[j + 1].d, 0) == ChainMoved(raw, job, j + 1)
  {
    hide Elements;
  }

  lemma NextFromHere(h0: Hw, h: Hw, h': Hw, ch: nat, job: seq<Link>, j: nat, k: nat)
    requires AtElement(h0, h, ch, job, j, k) && k == Elements(job[j].d) && j + 1 < |job| && h'.raw == h.raw
    requires h'.chans == h.chans[ch := Moving(job[j + 1].d, 0)]
    ensures AtElement(h0, h', ch, job, j + 1, 0)
  {
    NextDescriptor(h0.raw, job, j, k);
    hide Elements, ChainMoved, MovedUpTo;
  }

  lemma EndFromHere(h0: Hw, h: Hw, h': Hw, ch: nat, job: seq<Link>, j: nat, k: nat)
    requires AtElement(h0, h, ch, job, j, k) && k == Elements(job[j].d) && j + 1 == |job| && h'.raw == h.raw
    requires h'.chans == h.chans[ch := Finished(Field(job[j].d.ctrl, 29, 1) == 1)]
    ensures AtEnd(h0, h', ch, job)
  {
    NextDescriptor(h0.raw, job, j, k);
    hide Elements, ChainMoved, MovedUpTo, Field;
  }

  lemma EndOfDescriptor(c: Chip, p: Plan, h0: Hw, h: Hw, ch: nat, job: seq<Link>, j: nat, k: nat)
    requires AtElement(h0, h, ch, job, j, k) && CopyChain(job) && JobReady(c, p, h, ch, job) && k == Elements(job[j].d)
    ensures j + 1 < |job| ==> AtElement(h0, Do(c, h, Finish(ch)), ch, job, j + 1, 0)
    ensures j + 1 == |job| ==> AtEnd(h0, Do(c, h, Finish(ch)), ch, job)
  {
    assert ch < |h.chans| && h.chans[ch] == Moving(job[j].d, Elements(job[j].d));
    hide AtElement, AtEnd, Do, JobReady, Elements, CopyChain, Field;
    DescriptorEnds(c, p, h, ch, job, j);
    if j + 1 < |job| {
      NextFromHere(h0, h, Do(c, h, Finish(ch)), ch, job, j, k);
    } else {
      EndFromHere(h0, h, Do(c, h, Finish(ch)), ch, job, j, k);
    }
  }

  lemma StillReady(c: Chip, p: Plan, h0: Hw, h: Hw, jobs: seq<seq<Link>>, begun: nat, ch: nat, j: nat, k: nat)
    requires Inv(c, p, h, jobs, begun) && ch < |jobs| && AtElement(h0, h, ch, jobs[ch], j, k)
    ensures JobReady(c, p, h, ch, jobs[ch]) && j < |jobs[ch]| && k <= Elements(jobs[ch][j].d)
  {
    hide JobReady, Elements, ChainMoved, MovedUpTo;
    assert EngineOk(c, p, h, ch, jobs[ch]);
  }

  lemma RunsOn(steps: seq<Step>, s: Step)
    requires EngineRun(steps) && IsEngineStep(s)
    ensures EngineRun(steps + [s])
  {}

  lemma Advance(c: Chip, p: Plan, h0: Hw, jobs: seq<seq<Link>>, begun: nat, steps: seq<Step>, h: Hw, s: Step)
    requires h == Run(c, h0, steps) && EngineRun(steps) && Inv(c, p, h, jobs, begun) && IsEngineStep(s)
    ensures Run(c, h0, steps + [s]) == Do(c, h, s) && EngineRun(steps + [s]) && Inv(c, p, Do(c, h, s), jobs, begun)
  {
    hide Run, Inv, EngineRun, Do, Keeps;
    RunMore(c, h0, steps, s);
    RunsOn(steps, s);
    EnvStepInv(c, p, h, jobs, begun, s);
  }

  lemma {:induction false} ChainFrom(c: Chip, p: Plan, h0: Hw, jobs: seq<seq<Link>>, begun: nat, ch: nat, job: seq<Link>,
                                     steps: seq<Step>, h: Hw, j: nat, k: nat) returns (steps': seq<Step>)
    requires h == Run(c, h0, steps) && EngineRun(steps) && Inv(c, p, h, jobs, begun)
    requires ch < |jobs| && job == jobs[ch] && CopyChain(job) && j < |job| && AtElement(h0, h, ch, job, j, k)
    ensures EngineRun(steps') && AtEnd(h0, Run(c, h0, steps'), ch, job)
    decreases |job| - j, Elements(job[j].d) - k
  {
    hide AtElement, AtEnd, Elements, Run, Inv, JobReady, CopyChain, Do, EngineRun;
    StillReady(c, p, h0, h, jobs, begun, ch, j, k);
    if k < Elements(job[j].d) {
      Advance(c, p, h0, jobs, begun, steps, h, Move(ch));
      NextElement(c, h0, h, ch, job, j, k);
      steps' := ChainFrom(c, p, h0, jobs, begun, ch, job, steps + [Move(ch)], Do(c, h, Move(ch)), j, k + 1);
    } else {
      Advance(c, p, h0, jobs, begun, steps, h, Finish(ch));
      EndOfDescriptor(c, p, h0, h, ch, job, j, k);
      steps' := steps + [Finish(ch)];
      if j + 1 < |job| {
        steps' := ChainFrom(c, p, h0, jobs, begun, ch, job, steps', Do(c, h, Finish(ch)), j + 1, 0);
      }
    }
  }

  /** A triggered channel can run its chain of copies to the end: every descriptor in the
      order of the links, each from its first element to its last, and then it reports as its
      last descriptor says. */
  lemma ChainRuns(c: Chip, p: Plan, h: Hw, jobs: seq<seq<Link>>, begun: nat, ch: nat)
    requires Inv(c, p, h, jobs, begun) && ch < |h.chans| == |jobs| && h.chans[ch] == Armed && CopyChain(jobs[ch])
    ensures exists steps :: EngineRun(steps) && AtEnd(h, Run(c, h, steps), ch, jobs[ch])
  {
    assert |jobs[ch]| > 0;
    hide Do, Inv, CopyChain, AtElement, AtEnd, Run, EngineRun;
    var h1 := Do(c, h, Fetch(ch));
    RunNone(c, h);
    Advance(c, p, h, jobs, begun, [], h, Fetch(ch));
    assert [] + [Fetch(ch)] == [Fetch(ch)];
    FirstFetched(c, p, h, jobs, begun, ch);
    var steps := ChainFrom(c, p, h, jobs, begun, ch, jobs[ch], [Fetch(ch)], h1, 0, 0);
  }

  lemma RunNone(c: Chip, h: Hw)
    ensures Run(c, h, []) == h && EngineRun([])
  {}

  lemma FirstFetched(c: Chip, p: Plan, h: Hw, jobs: seq<seq<Link>>, begun: nat, ch: nat)
    requires Inv(c, p, h, jobs, begun) && ch < |h.chans| == |jobs| && h.chans[ch] == Armed && CopyChain(jobs[ch])
    ensures AtElement(h, Do(c, h, Fetch(ch)), ch, jobs[ch], 0, 0)
  {
    var job := jobs[ch];
    hide Copies, Op, Elements, DescAt, WordAt, Entry, Steady, InTarget;
    hide Do;
    assert JobReady(c, p, h, ch, job) by { assert EngineOk(c, p, h, ch, job); }
    assert LinkReady(c, p, h, job[0]);
    assert ChainMoved(h.raw, job, 0) == h.raw && MovedUpTo(h.raw, job[0].d, 0) == h.raw;
    hide Inv, EngineOk, CopyChain, ChainMoved, MovedUpTo;
    Fetches(c, h, ch);
  }

  lemma Fetches(c: Chip, h: Hw, ch: nat)
    requires ch < |h.chans| && h.chans[ch] == Armed
    ensures Do(c, h, Fetch(ch)) == h.(chans := h.chans[ch := Moving(DescAt(h.raw, WordAt(h.raw, Entry(c, ch))), 0)])
  {
    hide DescAt, WordAt, Entry, Elements, Copies, Op;
  }
}
