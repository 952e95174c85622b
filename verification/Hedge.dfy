/** The hedge executor as a step system: one coordinator, the attempt goroutines it starts, and the result channel. */
module Hedging {
  import opened Prelude

  /** A result sent by attempt index; final when the policy lets it cancel the other attempts. */
  datatype Outcome = Outcome(index: nat, final: bool)

  datatype Answer = ParentCanceled | Result(outcome: Outcome)

  /** Where the coordinator is: about to start execution execIdx, waiting in awaitResult with or without a timer,
      deciding what to do with what awaitResult returned, or returned. */
  datatype Coordinator = Launch | Wait(timed: bool) | Decide(result: Option<Outcome>) | Done(answer: Answer)

  /** received holds every result taken off the channel, in order; the code keeps their number and the last. */
  datatype State = State(
    pc: Coordinator, execIdx: nat, started: nat, running: set<nat>, channel: seq<Outcome>, received: seq<Outcome>)

  const INIT := State(Launch, 0, 0, {}, [], [])

  datatype Step =
    | Start(allowed: bool, delayed: bool)   // budget permitting, start an attempt; a delay below zero means no timer
    | Finish(index: nat, final: bool)       // an attempt sends its result
    | Receive                               // the coordinator takes a result off the channel
    | TimerFires
    | AllCompleted                          // the untimed wait ends: every started attempt has been received
    | Check(canceled: bool)                 // the parent's cancellation is looked at

  function Last(s: State): Option<Outcome> {
    if s.received == [] then None else Some(s.received[|s.received| - 1])
  }

  /** The channel has room for maxHedges + 1 results; a send waits for room. */
  predicate Enabled(maxHedges: nat, s: State, step: Step) {
    match step
    case Start(allowed, _) => s.pc.Launch? && (s.execIdx == 0 ==> allowed)
    case Finish(i, _) => i in s.running && |s.channel| < maxHedges + 1
    case Receive => s.pc.Wait? && s.channel != [] && (s.pc.timed || |s.received| < s.started)
    case TimerFires => s.pc == Wait(true)
    case AllCompleted => s.pc == Wait(false) && |s.received| == s.started
    case Check(_) => s.pc.Decide?
  }

  function Next(maxHedges: nat, s: State, step: Step): State
    requires Enabled(maxHedges, s, step)
  {
    match step
    case Start(allowed, delayed) =>
      var s' := s.(pc := Wait(allowed && s.execIdx < maxHedges && delayed));
      if allowed then s'.(started := s.started + 1, running := s.running + {s.execIdx}) else s'
    case Finish(i, final) =>
      s.(running := s.running - {i}, channel := s.channel + [Outcome(i, final)])
    case Receive =>
      var o := s.channel[0];
      var s' := s.(channel := s.channel[1..], received := s.received + [o]);
      if o.final then s'.(pc := Decide(Some(o))) else s'
    case TimerFires => s.(pc := Decide(None))
    case AllCompleted => s.(pc := Decide(Last(s)))
    case Check(canceled) =>
      if canceled then s.(pc := Done(ParentCanceled))
      else
        match s.pc.result
        case Some(o) => s.(pc := Done(Result(o)))
        case None => s.(pc := Launch, execIdx := s.execIdx + 1)
  }

  // ---------------------------------------------------------------- the invariant

  /** Every started attempt is running, or its one result is in the channel or received. */
  ghost predicate Accounted(s: State) {
    && |s.running| + |s.channel| + |s.received| == s.started
    && (forall i :: i in s.running ==> i < s.started)
    && (forall k :: 0 <= k < |s.channel| ==> s.channel[k].index < s.started && s.channel[k].index !in s.running)
    && (forall k :: 0 <= k < |s.received| ==> s.received[k].index < s.started && s.received[k].index !in s.running)
  }

  /** The attempts started so far, by where the coordinator is. */
  ghost predicate Progress(maxHedges: nat, s: State) {
    match s.pc
    case Launch => s.started == s.execIdx <= maxHedges
    case Wait(true) => s.started == s.execIdx + 1 <= maxHedges
    case Wait(false) => 1 <= s.started <= maxHedges + 1 && s.execIdx <= maxHedges && s.started <= s.execIdx + 1
    case Decide(None) => s.started == s.execIdx + 1 <= maxHedges
    case Decide(Some(_)) => 1 <= s.started <= maxHedges + 1 && s.execIdx <= maxHedges && s.started <= s.execIdx + 1
    case Done(_) => 1 <= s.started <= maxHedges + 1 && s.execIdx <= maxHedges
  }

  /** A final result, or the last of all results when none is final. */
  ghost predicate RightAnswer(s: State, o: Outcome) {
    && o in s.received
    && (o.final ||
        (|s.received| == s.started && o == s.received[|s.received| - 1] && forall k :: 0 <= k < |s.received| ==> !s.received[k].final))
  }

  ghost predicate NoneFinal(s: State) {
    forall k :: 0 <= k < |s.received| ==> !s.received[k].final
  }

  ghost predicate Answering(s: State) {
    match s.pc
    case Launch => NoneFinal(s)
    case Wait(_) => NoneFinal(s)
    case Decide(None) => NoneFinal(s)
    case Decide(Some(o)) => RightAnswer(s, o)
    case Done(ParentCanceled) => true
    case Done(Result(o)) => RightAnswer(s, o)
  }

  ghost predicate Inv(maxHedges: nat, s: State) {
    Accounted(s) && Progress(maxHedges, s) && Answering(s)
  }

  lemma {:induction false} StartAccounted(s: State, started: nat)
    requires Accounted(s) && started == s.started
    ensures Accounted(s.(started := started + 1, running := s.running + {started}))
  {
    assert started !in s.running;
  }

  lemma {:induction false} FinishAccounted(s: State, i: nat, final: bool)
    requires Accounted(s) && i in s.running
    ensures Accounted(s.(running := s.running - {i}, channel := s.channel + [Outcome(i, final)]))
  {
  }

  lemma {:induction false} ReceiveAccounted(s: State)
    requires Accounted(s) && s.channel != []
    ensures Accounted(s.(channel := s.channel[1..], received := s.received + [s.channel[0]]))
  {
  }

  lemma {:induction false} PcAccounted(s: State, pc: Coordinator, execIdx: nat)
    ensures Accounted(s.(pc := pc, execIdx := execIdx)) == Accounted(s)
  {
  }

  lemma {:induction false} StepKeepsAccounted(maxHedges: nat, s: State, step: Step)
    requires Inv(maxHedges, s) && Enabled(maxHedges, s, step)
    ensures Accounted(Next(maxHedges, s, step))
  {
    hide Answering, Accounted;
    var s' := Next(maxHedges, s, step);
    PcAccounted(s, s'.pc, s'.execIdx);
    var moved := s.(pc := s'.pc, execIdx := s'.execIdx);
    match step
    case Start(allowed, _) => if allowed { StartAccounted(moved, s.execIdx); }
    case Finish(i, final) => FinishAccounted(moved, i, final);
    case Receive => ReceiveAccounted(moved);
    case TimerFires =>
    case AllCompleted =>
    case Check(_) =>
  }

  lemma {:induction false} StepKeepsAnswering(maxHedges: nat, s: State, step: Step)
    requires Inv(maxHedges, s) && Enabled(maxHedges, s, step)
    ensures Answering(Next(maxHedges, s, step)) && Progress(maxHedges, Next(maxHedges, s, step))
  {
    var s' := Next(maxHedges, s, step);
    if step.Receive? {
      assert s'.received[|s.received|] == s.channel[0];
    }
  }

  lemma {:induction false} StepKeepsInv(maxHedges: nat, s: State, step: Step)
    requires Inv(maxHedges, s) && Enabled(maxHedges, s, step)
    ensures Inv(maxHedges, Next(maxHedges, s, step))
  {
    hide Answering, Accounted, Progress, Next, Enabled;
    StepKeepsAccounted(maxHedges, s, step);
    StepKeepsAnswering(maxHedges, s, step);
  }

  // ---------------------------------------------------------------- termination

  /** Strictly less after every step, whoever takes it. */
  function Measure(maxHedges: nat, s: State): int {
    var rank := match s.pc case Launch => 5 case Wait(_) => 2 case Decide(_) => 1 case Done(_) => 0;
    6 * (maxHedges + 1 - s.execIdx) + rank + 2 * |s.running| + |s.channel|
  }

  lemma {:induction false} MeasureDecreases(maxHedges: nat, s: State, step: Step)
    requires Inv(maxHedges, s) && Enabled(maxHedges, s, step)
    ensures 0 <= Measure(maxHedges, Next(maxHedges, s, step)) < Measure(maxHedges, s)
  {
    hide Answering, Accounted;
    if step.Start? && step.allowed {
      assert |s.running + {s.execIdx}| <= |s.running| + 1;
    }
    if step.Finish? {
      assert |s.running| == |s.running - {step.index}| + 1;
    }
  }

  // ---------------------------------------------------------------- whole runs

  predicate Runs(maxHedges: nat, s: State, steps: seq<Step>)
    decreases |steps|
  {
    steps == [] || (Enabled(maxHedges, s, steps[0]) && Runs(maxHedges, Next(maxHedges, s, steps[0]), steps[1..]))
  }

  function Run(maxHedges: nat, s: State, steps: seq<Step>): State
    requires Runs(maxHedges, s, steps)
    decreases |steps|
  {
    if steps == [] then s else Run(maxHedges, Next(maxHedges, s, steps[0]), steps[1..])
  }

  lemma {:induction false} RunKeepsInv(maxHedges: nat, s: State, steps: seq<Step>)
    requires Inv(maxHedges, s) && Runs(maxHedges, s, steps)
    ensures Inv(maxHedges, Run(maxHedges, s, steps))
    ensures |steps| <= Measure(maxHedges, s) - Measure(maxHedges, Run(maxHedges, s, steps))
    decreases |steps|
  {
    if steps != [] {
      hide Inv, Next, Enabled, Measure;
      StepKeepsInv(maxHedges, s, steps[0]);
      MeasureDecreases(maxHedges, s, steps[0]);
      RunKeepsInv(maxHedges, Next(maxHedges, s, steps[0]), steps[1..]);
    }
  }

  /** In every interleaving: at most maxHedges + 1 attempts start, no attempt that has finished ever waits to send its
      result, and the answer, unless the parent was canceled, is final, or else the last one received after every
      started attempt completed with none final. */
  lemma {:induction false} EveryRun(maxHedges: nat, steps: seq<Step>)
    requires Runs(maxHedges, INIT, steps)
    ensures var s := Run(maxHedges, INIT, steps);
            && s.started <= maxHedges + 1
            && (forall i :: i in s.running ==> |s.channel| < maxHedges + 1)
            && (s.pc.Done? && Check(true) !in steps ==> s.pc.answer.Result?)
            && (s.pc.Done? && s.pc.answer.Result? ==> RightAnswer(s, s.pc.answer.outcome))
  {
    RunKeepsInv(maxHedges, INIT, steps);
    CanceledOnlyByParent(maxHedges, INIT, steps);
    var s := Run(maxHedges, INIT, steps);
    forall i | i in s.running ensures |s.channel| < maxHedges + 1 {
      assert |s.running| >= 1;
    }
  }

  /** Only a cancellation of the parent keeps a result from being the answer. */
  lemma {:induction false} CanceledOnlyByParent(maxHedges: nat, s: State, steps: seq<Step>)
    requires Runs(maxHedges, s, steps) && s.pc != Done(ParentCanceled)
    ensures Run(maxHedges, s, steps).pc == Done(ParentCanceled) ==> Check(true) in steps
    decreases |steps|
  {
    if steps != [] && steps[0] != Check(true) {
      CanceledOnlyByParent(maxHedges, Next(maxHedges, s, steps[0]), steps[1..]);
    }
  }

  /** No run takes more than 6 * (maxHedges + 1) + 5 steps. */
  lemma {:induction false} RunsAreBounded(maxHedges: nat, steps: seq<Step>)
    requires Runs(maxHedges, INIT, steps)
    ensures |steps| <= 6 * (maxHedges + 1) + 5
  {
    RunKeepsInv(maxHedges, INIT, steps);
    assert Measure(maxHedges, Run(maxHedges, INIT, steps)) >= 0;
  }

  /** The coordinator is stuck only in its untimed wait for attempts that have not finished; so once every started
      attempt has finished, it has a step of its own until it returns. */
  lemma {:induction false} CoordinatorProgresses(maxHedges: nat, steps: seq<Step>)
    requires Runs(maxHedges, INIT, steps)
    ensures var s := Run(maxHedges, INIT, steps);
            && (!s.pc.Done? && s.running == {} ==>
                  || Enabled(maxHedges, s, Start(true, true)) || Enabled(maxHedges, s, Receive)
                  || Enabled(maxHedges, s, TimerFires) || Enabled(maxHedges, s, AllCompleted)
                  || Enabled(maxHedges, s, Check(false)))
            && (forall i, final :: i in s.running ==> Enabled(maxHedges, s, Finish(i, final)))
  {
    EveryRun(maxHedges, steps);
    RunKeepsInv(maxHedges, INIT, steps);
  }

  // ---------------------------------------------------------------- when hedges start

  lemma {:induction false} RunThen(maxHedges: nat, s: State, steps: seq<Step>, step: Step)
    requires Runs(maxHedges, s, steps) && Enabled(maxHedges, Run(maxHedges, s, steps), step)
    ensures Runs(maxHedges, s, steps + [step])
    ensures Run(maxHedges, s, steps + [step]) == Next(maxHedges, Run(maxHedges, s, steps), step)
    decreases |steps|
  {
    hide Enabled, Next;
    var all := steps + [step];
    if steps == [] {
      assert all[0] == step && all[1..] == [];
      assert Run(maxHedges, Next(maxHedges, s, step), []) == Next(maxHedges, s, step);
    } else {
      assert all[0] == steps[0] && all[1..] == steps[1..] + [step];
      RunThen(maxHedges, Next(maxHedges, s, steps[0]), steps[1..], step);
    }
  }

  lemma {:induction false} RunFront(maxHedges: nat, s: State, steps: seq<Step>, k: nat)
    requires Runs(maxHedges, s, steps) && k <= |steps|
    ensures Runs(maxHedges, s, steps[..k]) && Runs(maxHedges, Run(maxHedges, s, steps[..k]), steps[k..])
    ensures Run(maxHedges, s, steps) == Run(maxHedges, Run(maxHedges, s, steps[..k]), steps[k..])
    decreases |steps|
  {
    hide Enabled, Next;
    if k == 0 {
      assert steps[..0] == [] && steps[0..] == steps;
    } else {
      RunFront(maxHedges, Next(maxHedges, s, steps[0]), steps[1..], k - 1);
      assert steps[..k][0] == steps[0] && steps[..k][1..] == steps[1..][..k - 1] && steps[k..] == steps[1..][k - 1..];
    }
  }

  /** How often the coordinator has come round to start an attempt. */
  function Starts(steps: seq<Step>): nat
    decreases |steps|
  {
    if steps == [] then 0 else (if steps[0].Start? then 1 else 0) + Starts(steps[1..])
  }

  /** A start is the last thing the coordinator decided on; since then attempts finished and results came in. */
  predicate SinceStart(steps: seq<Step>) {
    steps != [] && steps[0].Start? && forall i :: 1 <= i < |steps| ==> steps[i].Finish? || steps[i].Receive?
  }

  /** While it waits, the coordinator's timer is as the start set it, until a final result comes in. */
  lemma {:induction false} WaitsOn(maxHedges: nat, s: State, steps: seq<Step>, timed: bool)
    requires Runs(maxHedges, s, steps) && (forall i :: 0 <= i < |steps| ==> steps[i].Finish? || steps[i].Receive?)
    requires NoneFinal(s) ==> s.pc == Wait(timed)
    requires !NoneFinal(s) ==> s.pc.Decide?
    ensures var r := Run(maxHedges, s, steps); if NoneFinal(r) then r.pc == Wait(timed) else r.pc.Decide?
    decreases |steps|
  {
    if steps != [] {
      assert steps[0].Finish? || steps[0].Receive?;
      var s1 := Next(maxHedges, s, steps[0]);
      if steps[0].Receive? {
        ReceiveOne(maxHedges, s);
      }
      WaitsOn(maxHedges, s1, steps[1..], timed);
    }
  }

  lemma {:induction false} ReceiveOne(maxHedges: nat, s: State)
    requires Enabled(maxHedges, s, Receive)
    ensures NoneFinal(Next(maxHedges, s, Receive)) <==> NoneFinal(s) && !s.channel[0].final
  {
    var s1 := Next(maxHedges, s, Receive);
    assert s1.received[|s.received|] == s.channel[0];
    assert forall k :: 0 <= k < |s.received| ==> s1.received[k] == s.received[k];
  }

  lemma {:induction false} StartsAreRounds(maxHedges: nat, s: State, steps: seq<Step>)
    requires Runs(maxHedges, s, steps)
    ensures var r := Run(maxHedges, s, steps);
            r.execIdx + (if r.pc.Launch? then 0 else 1) == s.execIdx + (if s.pc.Launch? then 0 else 1) + Starts(steps)
    decreases |steps|
  {
    if steps != [] {
      StartsAreRounds(maxHedges, Next(maxHedges, s, steps[0]), steps[1..]);
    }
  }

  /** In every run whose last decision of the coordinator was a start: the hedge timer can fire exactly when that start
      was allowed, had a delay, was not the last one there may be, and nothing final has been received. */
  lemma {:induction false} TimerExactly(maxHedges: nat, before: seq<Step>, since: seq<Step>)
    requires Runs(maxHedges, INIT, before + since) && SinceStart(since)
    ensures var s := Run(maxHedges, INIT, before + since);
            Enabled(maxHedges, s, TimerFires) <==>
            since[0].allowed && since[0].delayed && Starts(before) < maxHedges && NoneFinal(s)
  {
    hide Enabled, Next, Runs, Run, Accounted;
    var k := |before|;
    var steps := before + since;
    assert steps[..k] == before && steps[k..] == since && steps[..k + 1] == before + [since[0]] && steps[k + 1..] == since[1..];
    RunFront(maxHedges, INIT, steps, k);
    RunFront(maxHedges, INIT, steps, k + 1);
    InitInv(maxHedges);
    RunKeepsInv(maxHedges, INIT, before);
    StartsAreRounds(maxHedges, INIT, before);
    StartStep(maxHedges, INIT, before, since[0]);
    var s1 := Run(maxHedges, INIT, before + [since[0]]);
    WaitsOn(maxHedges, s1, since[1..], since[0].allowed && Starts(before) < maxHedges && since[0].delayed);
    TimerNeedsTimer(maxHedges, Run(maxHedges, INIT, steps));
  }

  lemma {:induction false} TimerNeedsTimer(maxHedges: nat, s: State)
    ensures Enabled(maxHedges, s, TimerFires) <==> s.pc == Wait(true)
  {
  }

  /** A start leaves the coordinator waiting, with a timer exactly if another attempt may follow. */
  lemma {:induction false} StartStep(maxHedges: nat, s: State, before: seq<Step>, start: Step)
    requires start.Start? && Runs(maxHedges, s, before + [start]) && Runs(maxHedges, s, before)
    requires Inv(maxHedges, Run(maxHedges, s, before))
    ensures var b, a := Run(maxHedges, s, before), Run(maxHedges, s, before + [start]);
            && b.pc.Launch? && NoneFinal(a)
            && a.pc == Wait(start.allowed && b.execIdx < maxHedges && start.delayed)
            && a.started == b.started + (if start.allowed then 1 else 0)
            && a.running == if start.allowed then b.running + {b.execIdx} else b.running
  {
    hide Accounted;
    RunFront(maxHedges, s, before + [start], |before|);
    assert (before + [start])[..|before|] == before && (before + [start])[|before|..] == [start];
    LastStep(maxHedges, Run(maxHedges, s, before), start);
  }

  lemma {:induction false} LastStep(maxHedges: nat, s: State, step: Step)
    requires Runs(maxHedges, s, [step])
    ensures Enabled(maxHedges, s, step) && Run(maxHedges, s, [step]) == Next(maxHedges, s, step)
  {
    assert Run(maxHedges, Next(maxHedges, s, step), [step][1..]) == Next(maxHedges, s, step);
  }

  /** When the timer fires, an uncanceled parent and an allowed start put one more attempt to run; when the budget denies
      the start, the coordinator waits for the attempts there are. */
  lemma {:induction false} FiredTimerHedges(maxHedges: nat, s: State, delayed: bool)
    requires Inv(maxHedges, s) && Enabled(maxHedges, s, TimerFires)
    ensures Enabled(maxHedges, Next(maxHedges, s, TimerFires), Check(false))
    ensures var s2 := Next(maxHedges, Next(maxHedges, s, TimerFires), Check(false));
            && Enabled(maxHedges, s2, Start(true, delayed))
            && var s3 := Next(maxHedges, s2, Start(true, delayed));
               && s3.started == s.started + 1 && s3.running == s.running + {s.started} && s.started !in s.running
               && s3.pc == Wait(s.started < maxHedges && delayed)
    ensures var s2 := Next(maxHedges, Next(maxHedges, s, TimerFires), Check(false));
            && Enabled(maxHedges, s2, Start(false, delayed))
            && var s3 := Next(maxHedges, s2, Start(false, delayed));
               s3.started == s.started && s3.running == s.running && s3.pc == Wait(false)
  {
  }

  /** One start, and then n times over the timer fires and an attempt is started. */
  function Hedges(n: nat): seq<Step> {
    if n == 0 then [Start(true, true)] else Hedges(n - 1) + [TimerFires] + [Check(false)] + [Start(true, true)]
  }

  lemma {:induction false} HedgesRun(maxHedges: nat, n: nat)
    requires n <= maxHedges
    ensures Runs(maxHedges, INIT, Hedges(n))
    ensures var s := Run(maxHedges, INIT, Hedges(n));
            s.started == n + 1 && s.pc == Wait(n < maxHedges) && |s.running| == n + 1
  {
    if n == 0 {
      assert Runs(maxHedges, INIT, []) && [] + [Start(true, true)] == [Start(true, true)];
      RunThen(maxHedges, INIT, [], Start(true, true));
    } else {
      hide Runs, Run, Inv, Next, Enabled;
      HedgesRun(maxHedges, n - 1);
      InitInv(maxHedges);
      TimerNeedsTimer(maxHedges, Run(maxHedges, INIT, Hedges(n - 1)));
      RunKeepsInv(maxHedges, INIT, Hedges(n - 1));
      var s := Run(maxHedges, INIT, Hedges(n - 1));
      FiredTimerHedges(maxHedges, s, true);
      RunThen(maxHedges, INIT, Hedges(n - 1), TimerFires);
      RunThen(maxHedges, INIT, Hedges(n - 1) + [TimerFires], Check(false));
      RunThen(maxHedges, INIT, Hedges(n - 1) + [TimerFires] + [Check(false)], Start(true, true));
    }
  }

  /** The bound on attempts is reached, and so is every number below it: some run starts exactly n attempts. */
  lemma {:induction false} EveryNumberOfAttempts(maxHedges: nat, n: nat)
    requires 1 <= n <= maxHedges + 1
    ensures exists steps :: Runs(maxHedges, INIT, steps) && Run(maxHedges, INIT, steps).started == n
  {
    HedgesRun(maxHedges, n - 1);
  }

  /** The coordinator waits without a timer, or is past waiting with a result. */
  predicate NoMoreStarts(s: State) {
    s.pc == Wait(false) || (s.pc.Decide? && s.pc.result.Some?) || s.pc.Done?
  }

  lemma {:induction false} NoMoreStartsStays(maxHedges: nat, s: State, steps: seq<Step>)
    requires Inv(maxHedges, s) && NoMoreStarts(s) && Runs(maxHedges, s, steps)
    ensures Run(maxHedges, s, steps).started == s.started
    decreases |steps|
  {
    if steps != [] {
      StepKeepsInv(maxHedges, s, steps[0]);
      NoMoreStartsStays(maxHedges, Next(maxHedges, s, steps[0]), steps[1..]);
    }
  }

  /** After a start that the budget denies, or one with a negative delay, no attempt is started any more. */
  lemma {:induction false} DeniedStartIsLast(maxHedges: nat, before: seq<Step>, start: Step, after: seq<Step>)
    requires start.Start? && (!start.allowed || !start.delayed)
    requires Runs(maxHedges, INIT, before + [start] + after) && Runs(maxHedges, INIT, before + [start])
    ensures Run(maxHedges, INIT, before + [start] + after).started == Run(maxHedges, INIT, before + [start]).started
  {
    hide Enabled, Next, Runs, Run, Inv;
    var steps, k := before + [start] + after, |before| + 1;
    assert steps[..k] == before + [start] && steps[k..] == after;
    assert (before + [start])[..|before|] == before;
    RunFront(maxHedges, INIT, steps, k);
    RunFront(maxHedges, INIT, before + [start], |before|);
    InitInv(maxHedges);
    RunKeepsInv(maxHedges, INIT, before);
    RunKeepsInv(maxHedges, INIT, before + [start]);
    StartStep(maxHedges, INIT, before, start);
    NoMoreStartsStays(maxHedges, Run(maxHedges, INIT, before + [start]), after);
  }

  lemma {:induction false} InitInv(maxHedges: nat)
    ensures Inv(maxHedges, INIT)
  {
  }

  /** A parent found canceled is answered with its cancellation, whatever has been received. */
  lemma {:induction false} CanceledParentAnswers(maxHedges: nat, steps: seq<Step>)
    requires Runs(maxHedges, INIT, steps + [Check(true)])
    ensures Run(maxHedges, INIT, steps + [Check(true)]).pc == Done(ParentCanceled)
  {
    hide Runs, Run;
    var all := steps + [Check(true)];
    RunFront(maxHedges, INIT, all, |steps|);
    assert all[..|steps|] == steps && all[|steps|..] == [Check(true)];
    LastStep(maxHedges, Run(maxHedges, INIT, steps), Check(true));
  }
}
