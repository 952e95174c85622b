/** The adaptive concurrency limit and the semaphore and stabilisation window it works with. */
module AdaptiveLimits {
  import opened Prelude
  import opened Semaphores
  import opened MaxWindows

  /** The limits of the builder; stabilization zero means no stabilisation window. log10 is the platform's logarithm,
      rounding and all; maxLimitFunc replaces the factor when given. */
  datatype Config = Config(
    minLimit: nat, maxLimit: nat, initialLimit: nat,
    maxLimitFactor: real, maxLimitFactorDecay: real, minLimitFactor: real,
    maxLimitFunc: Option<int -> real>, stabilization: nat, log10: int -> real)
  {
    ghost predicate Valid() {
      && 1 <= minLimit <= initialLimit <= maxLimit
      && forall n :: n >= 1 ==> log10(n) >= 0.0
    }
  }

  function MaxReal(a: real, b: real): real {
    if a < b then b else a
  }

  /** Log10Func: one below a hundred, two below a thousand, then the logarithm cut off. */
  function LogStep(cfg: Config, factor: nat, limit: nat): int {
    factor * (if limit < 100 then 1 else if limit < 1000 then 2 else cfg.log10(limit).Floor)
  }

  function ComputeMaxLimit(cfg: Config, inflight: int): real {
    match cfg.maxLimitFunc
    case Some(f) => f(inflight)
    case None =>
      var factor :=
        if cfg.maxLimitFactorDecay > 0.0 && inflight > 0
        then MaxReal(cfg.maxLimitFactor - cfg.maxLimitFactorDecay * cfg.log10(inflight), cfg.minLimitFactor)
        else cfg.maxLimitFactor;
      inflight as real * factor
  }

  datatype Change = Increase | Decrease | Hold

  /** The signals an update thresholds on, as the windows report them. */
  datatype Signals = Signals(gradient: real, throughputCorr: real, throughputCV: real, rttCorr: real)

  function ComputeChange(queueSize: int, alpha: int, beta: int, overloaded: bool, s: Signals): Change {
    if queueSize > beta then Decrease
    else if overloaded && s.throughputCorr < 0.0 then Decrease
    else if overloaded && s.throughputCorr < 0.3 && s.rttCorr > 0.5 then Decrease
    else if overloaded && s.throughputCV < 0.2 && s.rttCorr > 0.5 then Decrease
    else if queueSize < alpha then Increase
    else Hold
  }

  /** The part of the limit that waits, rounded up. */
  function QueueSize(limit: real, gradient: real): int {
    Ceil(limit * (1.0 - gradient))
  }

  function ChangeFor(cfg: Config, limit: real, overloaded: bool, s: Signals): Change
    requires limit >= 0.0
  {
    ComputeChange(QueueSize(limit, s.gradient), LogStep(cfg, 3, limit.Floor), LogStep(cfg, 6, limit.Floor), overloaded, s)
  }

  /** The limit after a change, held to maxLimit for the inflight and then to the absolute limits. */
  function NextLimit(cfg: Config, limit: real, change: Change, maxLimit: real): real
    requires limit >= 0.0
  {
    var step := LogStep(cfg, 1, limit.Floor) as real;
    var moved := match change case Decrease => limit - step case Increase => limit + step case Hold => limit;
    var capped :=
      if moved > maxLimit then (if limit > maxLimit then limit - step else maxLimit)
      else moved;
    if capped > cfg.maxLimit as real then cfg.maxLimit as real
    else if capped < cfg.minLimit as real then cfg.minLimit as real
    else capped
  }

  ghost predicate InLimits(cfg: Config, limit: real) {
    cfg.minLimit as real <= limit <= cfg.maxLimit as real
  }

  /** An update stays within the absolute limits, moves by at most the logarithmic step of the old limit, and rises only
      to maxLimit or below. */
  lemma {:induction false} NextLimitBounds(cfg: Config, limit: real, change: Change, maxLimit: real)
    requires cfg.Valid() && InLimits(cfg, limit)
    ensures var next := NextLimit(cfg, limit, change, maxLimit);
            && InLimits(cfg, next)
            && limit - LogStep(cfg, 1, limit.Floor) as real <= next <= limit + LogStep(cfg, 1, limit.Floor) as real
            && (next > limit ==> next <= maxLimit)
  {
    assert LogStep(cfg, 1, limit.Floor) >= 0;
  }

  function MinReal(a: real, b: real): real {
    if a < b then a else b
  }

  /** The outcome of an update: a decrease, or a limit above maxLimit, lowers it by the step down to the minimum; an
      increase raises it by the step as far as both maxima allow; otherwise it stays. */
  lemma {:induction false} NextLimitExactly(cfg: Config, limit: real, change: Change, maxLimit: real)
    requires cfg.Valid() && InLimits(cfg, limit)
    ensures var step := LogStep(cfg, 1, limit.Floor) as real;
            NextLimit(cfg, limit, change, maxLimit) ==
              if change.Decrease? || limit > maxLimit then MaxReal(limit - step, cfg.minLimit as real)
              else if change.Increase? then MinReal(limit + step, MinReal(maxLimit, cfg.maxLimit as real))
              else limit
  {
    assert LogStep(cfg, 1, limit.Floor) >= 0;
  }

  /** The inflight that maxLimit is computed from: the largest of the window, when there is one. */
  function Stabilised(cfg: Config, deque: seq<Entry>, inflight: int): int
    requires cfg.stabilization > 0 ==> deque != []
  {
    if cfg.stabilization > 0 then deque[0].value else inflight
  }

  class AdaptiveLimiter {
    const cfg: Config
    const semaphore: DynamicSemaphore
    const maxInflightWindow: MaxWindow
    var limit: real

    ghost predicate Valid()
      reads this, semaphore, maxInflightWindow
    {
      && cfg.Valid() && InLimits(cfg, limit)
      && semaphore.size == limit.Floor
      && maxInflightWindow.window == cfg.stabilization
    }

    constructor (cfg: Config)
      requires cfg.Valid()
      ensures Valid() && this.cfg == cfg && fresh(semaphore) && fresh(maxInflightWindow)
      ensures limit == Start(cfg).limit && maxInflightWindow.deque == Start(cfg).deque
      ensures semaphore.Abs() == Start(cfg).system.sem
    {
      this.cfg := cfg;
      semaphore := new DynamicSemaphore(cfg.initialLimit);
      maxInflightWindow := new MaxWindow(cfg.stabilization);
      limit := cfg.initialLimit as real;
    }

    /** overloaded is what IsFull answered; the semaphore's lock is free between that and the resize, so other callers may
        have come and gone. */
    method UpdateLimit(signals: Signals, overloaded: bool, inflight: int, now: int)
      requires Valid()
      modifies this, semaphore, maxInflightWindow
      ensures Valid()
      ensures maxInflightWindow.deque == if cfg.stabilization > 0
                                         then Added(old(maxInflightWindow.deque), cfg.stabilization, Entry(inflight, now))
                                         else old(maxInflightWindow.deque)
      ensures limit == NextLimit(cfg, old(limit), ChangeFor(cfg, old(limit), overloaded, signals),
                                 ComputeMaxLimit(cfg, Stabilised(cfg, maxInflightWindow.deque, inflight)))
      ensures semaphore.Abs() == Resized(old(semaphore.Abs()), limit.Floor)
    {
      hide NextLimit, ChangeFor, ComputeMaxLimit, Added, WokenUpTo;
      var change := ChangeFor(cfg, limit, overloaded, signals);
      var maxInflight := inflight;
      if maxInflightWindow.Configured() {
        maxInflight := maxInflightWindow.Add(inflight, now);
      }
      var maxLimit := ComputeMaxLimit(cfg, maxInflight);
      var newLimit := NextLimit(cfg, limit, change, maxLimit);
      NextLimitBounds(cfg, limit, change, maxLimit);
      semaphore.SetSize(newLimit.Floor);
      limit := newLimit;
    }

    method Reset()
      requires Valid()
      modifies this, semaphore, maxInflightWindow
      ensures Valid() && limit == cfg.initialLimit as real
      ensures semaphore.Abs() == Resized(old(semaphore.Abs()), cfg.initialLimit)
      ensures maxInflightWindow.deque == if cfg.stabilization > 0 then [] else old(maxInflightWindow.deque)
    {
      hide WokenUpTo;
      semaphore.SetSize(cfg.initialLimit);
      limit := cfg.initialLimit as real;
      maxInflightWindow.Reset();
    }
  }

  // ---------------------------------------------------------------- the limiter over whole runs

  datatype State = State(limit: real, deque: seq<Entry>, system: System)

  /** A call of the semaphore other than a resize, an update of the limit on whatever IsFull answered before it, or a
      reset. */
  datatype Action = Permit(op: Op) | Update(signals: Signals, overloaded: bool, inflight: int, now: int) | ResetLimit

  function Start(cfg: Config): State {
    State(cfg.initialLimit as real, [], Init(cfg.initialLimit))
  }

  ghost predicate Possible(s: State, a: Action) {
    a.Permit? ==> !a.op.SetSize? && Enabled(s.system, a.op)
  }

  function Act(cfg: Config, s: State, a: Action): State
    requires s.limit >= 0.0
    requires Possible(s, a)
  {
    match a
    case Permit(op) => s.(system := Step(s.system, op))
    case Update(signals, overloaded, inflight, now) =>
      var deque := if cfg.stabilization > 0 then Added(s.deque, cfg.stabilization, Entry(inflight, now)) else s.deque;
      var change := ChangeFor(cfg, s.limit, overloaded, signals);
      var limit := NextLimit(cfg, s.limit, change, ComputeMaxLimit(cfg, Stabilised(cfg, deque, inflight)));
      State(limit, deque, Step(s.system, SetSize(limit.Floor)))
    case ResetLimit =>
      State(cfg.initialLimit as real, if cfg.stabilization > 0 then [] else s.deque, Step(s.system, SetSize(cfg.initialLimit)))
  }

  ghost predicate Inv(cfg: Config, s: State) {
    && InLimits(cfg, s.limit) && s.system.sem.size == s.limit.Floor
    && s.system.peak <= cfg.maxLimit && Semaphores.Inv(s.system)
  }

  lemma {:induction false} ActKeepsInv(cfg: Config, s: State, a: Action)
    requires cfg.Valid() && Inv(cfg, s) && Possible(s, a)
    ensures Inv(cfg, Act(cfg, s, a))
  {
    hide Semaphores.Inv, Step, NextLimit, ChangeFor, ComputeMaxLimit, Added;
    match a
    case Permit(op) =>
      StepKeepsInv(s.system, op);
      SameSize(s.system, op);
    case Update(signals, overloaded, inflight, now) =>
      var s' := Act(cfg, s, a);
      var change := ChangeFor(cfg, s.limit, overloaded, signals);
      NextLimitBounds(cfg, s.limit, change, ComputeMaxLimit(cfg, Stabilised(cfg, s'.deque, inflight)));
      StepKeepsInv(s.system, SetSize(s'.limit.Floor));
      ResizeSets(s.system, s'.limit.Floor);
    case ResetLimit =>
      StepKeepsInv(s.system, SetSize(cfg.initialLimit));
      ResizeSets(s.system, cfg.initialLimit);
  }

  lemma {:induction false} ResizeSets(s: System, n: int)
    ensures Step(s, SetSize(n)).sem.size == n && Step(s, SetSize(n)).peak == Max(s.peak, n)
  {
  }

  ghost predicate Runs(cfg: Config, s: State, actions: seq<Action>)
    decreases |actions|
  {
    actions == [] || (s.limit >= 0.0 && Possible(s, actions[0]) && Runs(cfg, Act(cfg, s, actions[0]), actions[1..]))
  }

  function Run(cfg: Config, s: State, actions: seq<Action>): State
    requires Runs(cfg, s, actions)
    decreases |actions|
  {
    if actions == [] then s else Run(cfg, Act(cfg, s, actions[0]), actions[1..])
  }

  lemma {:induction false} RunKeepsInv(cfg: Config, s: State, actions: seq<Action>)
    requires cfg.Valid() && Inv(cfg, s) && Runs(cfg, s, actions)
    ensures Inv(cfg, Run(cfg, s, actions))
    decreases |actions|
  {
    if actions != [] {
      hide Inv, Act;
      ActKeepsInv(cfg, s, actions[0]);
      RunKeepsInv(cfg, Act(cfg, s, actions[0]), actions[1..]);
    }
  }

  /** In every run the limit stays between the configured minimum and maximum, the semaphore's size is the limit cut off,
      and the permits in use never exceed the configured maximum. */
  lemma {:induction false} EveryRun(cfg: Config, actions: seq<Action>)
    requires cfg.Valid() && Runs(cfg, Start(cfg), actions)
    ensures var s := Run(cfg, Start(cfg), actions);
            && cfg.minLimit as real <= s.limit <= cfg.maxLimit as real
            && s.system.sem.size == s.limit.Floor
            && s.system.sem.used <= cfg.maxLimit
  {
    InitInv(cfg.initialLimit);
    RunKeepsInv(cfg, Start(cfg), actions);
  }

  // ---------------------------------------------------------------- the stabilisation window over whole runs

  /** The inflights added to the stabilisation window since the last reset, when there were those of history before. */
  function Inflights(history: seq<Entry>, actions: seq<Action>): seq<Entry>
    decreases |actions|
  {
    if actions == [] then history
    else
      var history' :=
        match actions[0]
        case Permit(_) => history
        case Update(_, _, inflight, now) => history + [Entry(inflight, now)]
        case ResetLimit => [];
      Inflights(history', actions[1..])
  }

  /** In every run the stabilisation window is the one of the inflights since the last reset. */
  lemma {:induction false} RunDeque(cfg: Config, s: State, history: seq<Entry>, actions: seq<Action>)
    requires Runs(cfg, s, actions)
    requires s.deque == if cfg.stabilization > 0 then DequeOf(history, cfg.stabilization) else []
    ensures Run(cfg, s, actions).deque
         == if cfg.stabilization > 0 then DequeOf(Inflights(history, actions), cfg.stabilization) else []
    decreases |actions|
  {
    if actions != [] {
      hide Added, Step, NextLimit, ChangeFor, ComputeMaxLimit;
      var history' :=
        match actions[0]
        case Permit(_) => history
        case Update(_, _, inflight, now) => history + [Entry(inflight, now)]
        case ResetLimit => [];
      if actions[0].Update? {
        DequeOfAppend(history, Entry(actions[0].inflight, actions[0].now), cfg.stabilization);
      }
      RunDeque(cfg, Act(cfg, s, actions[0]), history', actions[1..]);
    }
  }

  /** An update can follow any run. */
  lemma {:induction false} UpdateIsPossible(cfg: Config, s: State, actions: seq<Action>, a: Action)
    requires Runs(cfg, s, actions) && Run(cfg, s, actions).limit >= 0.0 && a.Update?
    ensures Runs(cfg, s, actions + [a]) && Run(cfg, s, actions + [a]) == Act(cfg, Run(cfg, s, actions), a)
    decreases |actions|
  {
    hide Act;
    var all := actions + [a];
    if actions == [] {
      assert all[0] == a && all[1..] == [];
      assert Run(cfg, Act(cfg, s, a), []) == Act(cfg, s, a);
    } else {
      assert all[0] == actions[0] && all[1..] == actions[1..] + [a];
      UpdateIsPossible(cfg, Act(cfg, s, actions[0]), actions[1..], a);
    }
  }

  /** The limit has moved by at most the logarithmic step of the old one. */
  predicate WithinStep(cfg: Config, before: real, after: real) {
    before >= 0.0 &&
    before - LogStep(cfg, 1, before.Floor) as real <= after <= before + LogStep(cfg, 1, before.Floor) as real
  }

  /** One update: within the step of the old limit, and a rise no further than the maximum for what the window answers. */
  lemma {:induction false} UpdateIsBounded(cfg: Config, s: State, a: Action)
    requires cfg.Valid() && InLimits(cfg, s.limit) && a.Update?
    ensures var s' := Act(cfg, s, a);
            && WithinStep(cfg, s.limit, s'.limit)
            && (s'.limit > s.limit ==> s'.limit <= ComputeMaxLimit(cfg, Stabilised(cfg, s'.deque, a.inflight)))
  {
    hide NextLimit, ChangeFor, ComputeMaxLimit, Added, Step;
    var s' := Act(cfg, s, a);
    var change := ChangeFor(cfg, s.limit, a.overloaded, a.signals);
    NextLimitBounds(cfg, s.limit, change, ComputeMaxLimit(cfg, Stabilised(cfg, s'.deque, a.inflight)));
  }

  /** In every run that ends with an update, the limit moves by at most the logarithmic step of the old limit, and a rise
      ends at or below the maximum computed from the stabilised inflight: the largest one reported since the last reset
      within the stabilisation window, whenever the times reported allow the window to tell, or without a window the
      inflight of the update itself. */
  lemma {:induction false} RiseIsBounded(cfg: Config, actions: seq<Action>, a: Action)
    requires cfg.Valid() && a.Update? && Runs(cfg, Start(cfg), actions)
    ensures Runs(cfg, Start(cfg), actions + [a])
    ensures var s, s' := Run(cfg, Start(cfg), actions), Run(cfg, Start(cfg), actions + [a]);
            var history := Inflights([], actions) + [Entry(a.inflight, a.now)];
            && WithinStep(cfg, s.limit, s'.limit)
            && (s'.limit > s.limit && cfg.stabilization == 0 ==> s'.limit <= ComputeMaxLimit(cfg, a.inflight))
            && (s'.limit > s.limit && cfg.stabilization > 0 && InOrder(TimesOf(history), cfg.stabilization) ==>
                  exists m :: IsMaximum(m, history, a.now - cfg.stabilization) && s'.limit <= ComputeMaxLimit(cfg, m))
  {
    hide ComputeMaxLimit, Act, InOrder, WithinStep, Run, Runs, IsMaximum, DequeOf, TimesOf, Inflights;
    var s, e := Run(cfg, Start(cfg), actions), Entry(a.inflight, a.now);
    var history := Inflights([], actions) + [e];
    InitInv(cfg.initialLimit);
    RunKeepsInv(cfg, Start(cfg), actions);
    InvInLimits(cfg, s);
    UpdateIsPossible(cfg, Start(cfg), actions, a);
    UpdateIsBounded(cfg, s, a);
    StartDeque(cfg);
    RunDeque(cfg, Start(cfg), [], actions);
    if cfg.stabilization > 0 {
      ActDeque(cfg, s, Inflights([], actions), a);
      if InOrder(TimesOf(history), cfg.stabilization) {
        OrderedReturnsMaximum(history, cfg.stabilization);
        assert IsMaximum(DequeOf(history, cfg.stabilization)[0].value, history, a.now - cfg.stabilization);
      }
    }
  }

  lemma {:induction false} StartDeque(cfg: Config)
    ensures Start(cfg).deque == if cfg.stabilization > 0 then DequeOf([], cfg.stabilization) else []
  {
  }

  lemma {:induction false} ActDeque(cfg: Config, s: State, history: seq<Entry>, a: Action)
    requires s.limit >= 0.0 && a.Update? && cfg.stabilization > 0 && s.deque == DequeOf(history, cfg.stabilization)
    ensures Act(cfg, s, a).deque == DequeOf(history + [Entry(a.inflight, a.now)], cfg.stabilization)
  {
    hide NextLimit, ChangeFor, ComputeMaxLimit, Added, Step;
    DequeOfAppend(history, Entry(a.inflight, a.now), cfg.stabilization);
  }

  // ---------------------------------------------------------------- the direction of an update

  /** step is the step for a limit: one below a hundred, two below a thousand, then the logarithm less its fraction. */
  ghost predicate IsStep(cfg: Config, limit: nat, step: int) {
    if limit < 100 then step == 1
    else if limit < 1000 then step == 2
    else step as real <= cfg.log10(limit) < step as real + 1.0
  }

  /** queue is the part of the limit that waits, rounded up, when requests take 1 / gradient of their usual time. */
  predicate IsQueue(limit: real, gradient: real, queue: int) {
    queue as real - 1.0 < limit * (1.0 - gradient) <= queue as real
  }

  /** The semaphore was full, and throughput falls as inflight rises, or hardly rises while response times do, or hardly
      varies while they do. */
  predicate Congested(a: Action)
    requires a.Update?
  {
    && a.overloaded
    && (|| a.signals.throughputCorr < 0.0
        || (a.signals.rttCorr > 0.5 && (a.signals.throughputCorr < 0.3 || a.signals.throughputCV < 0.2)))
  }

  lemma {:induction false} StepIs(cfg: Config, limit: nat, step: int, factor: nat)
    requires IsStep(cfg, limit, step)
    ensures LogStep(cfg, factor, limit) == factor * step
  {
  }

  lemma {:induction false} QueueIs(limit: real, gradient: real, queue: int)
    requires IsQueue(limit, gradient, queue)
    ensures QueueSize(limit, gradient) == queue
  {
    var x := limit * (1.0 - gradient);
    assert (-x).Floor as real <= -x < (-x).Floor as real + 1.0;
  }

  /** The change for an update, in terms of the queue and the step. */
  lemma {:induction false} ChangeIs(cfg: Config, limit: real, a: Action, step: int, queue: int)
    requires limit >= 0.0 && a.Update? && IsStep(cfg, limit.Floor, step) && IsQueue(limit, a.signals.gradient, queue)
    ensures ChangeFor(cfg, limit, a.overloaded, a.signals)
         == if queue > 6 * step || Congested(a) then Decrease else if queue < 3 * step then Increase else Hold
  {
    hide LogStep, IsStep, IsQueue, QueueSize;
    StepIs(cfg, limit.Floor, step, 3);
    StepIs(cfg, limit.Floor, step, 6);
    QueueIs(limit, a.signals.gradient, queue);
  }

  /** Where an update takes the limit from s, when maxLimit is the maximum computed from the stabilised inflight. */
  function Updated(cfg: Config, limit: real, a: Action, step: int, queue: int, maxLimit: real): real
    requires a.Update?
  {
    if queue > 6 * step || Congested(a) || limit > maxLimit then MaxReal(limit - step as real, cfg.minLimit as real)
    else if queue < 3 * step then MinReal(limit + step as real, MinReal(maxLimit, cfg.maxLimit as real))
    else limit
  }

  lemma {:induction false} UpdateIs(cfg: Config, s: State, a: Action, step: int, queue: int)
    requires cfg.Valid() && InLimits(cfg, s.limit) && a.Update?
    requires IsStep(cfg, s.limit.Floor, step) && IsQueue(s.limit, a.signals.gradient, queue)
    ensures var s' := Act(cfg, s, a);
            s'.limit == Updated(cfg, s.limit, a, step, queue, ComputeMaxLimit(cfg, Stabilised(cfg, s'.deque, a.inflight)))
  {
    hide NextLimit, ChangeFor, ComputeMaxLimit, Added, Step, LogStep, IsStep, IsQueue, Congested;
    ChangeIs(cfg, s.limit, a, step, queue);
    StepIs(cfg, s.limit.Floor, step, 1);
    var s' := Act(cfg, s, a);
    NextLimitExactly(cfg, s.limit, ChangeFor(cfg, s.limit, a.overloaded, a.signals),
                     ComputeMaxLimit(cfg, Stabilised(cfg, s'.deque, a.inflight)));
  }

  /** In every run that ends with an update: a queue above six steps, congestion, or a limit above the computed maximum
      lowers the limit by the step, down to the minimum; otherwise a queue below three steps raises it by the step, as far
      as both maxima allow; otherwise it stays. So it falls only for one of those reasons, and rises only with a queue
      below three steps, no congestion and room below the computed maximum. */
  lemma {:induction false} UpdateDirection(cfg: Config, actions: seq<Action>, a: Action, step: int, queue: int)
    requires cfg.Valid() && a.Update? && Runs(cfg, Start(cfg), actions)
    requires var s := Run(cfg, Start(cfg), actions);
             s.limit >= 0.0 && IsStep(cfg, s.limit.Floor, step) && IsQueue(s.limit, a.signals.gradient, queue)
    ensures Runs(cfg, Start(cfg), actions + [a])
    ensures var s, s' := Run(cfg, Start(cfg), actions), Run(cfg, Start(cfg), actions + [a]);
            (cfg.stabilization > 0 ==> s'.deque != []) &&
            var maxLimit := ComputeMaxLimit(cfg, Stabilised(cfg, s'.deque, a.inflight));
            && s'.limit == Updated(cfg, s.limit, a, step, queue, maxLimit)
            && (s'.limit < s.limit ==> queue > 6 * step || Congested(a) || s.limit > maxLimit)
            && (s'.limit > s.limit ==> queue < 3 * step && !Congested(a) && s.limit < maxLimit)
  {
    var s := Run(cfg, Start(cfg), actions);
    hide Run, Runs, Act, ComputeMaxLimit, IsStep, IsQueue, Congested, Inv, Updated;
    InitInv(cfg.initialLimit);
    StartInv(cfg);
    RunKeepsInv(cfg, Start(cfg), actions);
    InvInLimits(cfg, s);
    UpdateIsPossible(cfg, Start(cfg), actions, a);
    UpdateIs(cfg, s, a, step, queue);
    StepNotNegative(cfg, s.limit.Floor, step);
    DequeFilled(cfg, s, a);
    UpdatedOnly(cfg, s.limit, a, step, queue, ComputeMaxLimit(cfg, Stabilised(cfg, Act(cfg, s, a).deque, a.inflight)));
  }

  lemma {:induction false} UpdatedOnly(cfg: Config, limit: real, a: Action, step: int, queue: int, maxLimit: real)
    requires a.Update? && step >= 0 && InLimits(cfg, limit)
    ensures var next := Updated(cfg, limit, a, step, queue, maxLimit);
            && (next < limit ==> queue > 6 * step || Congested(a) || limit > maxLimit)
            && (next > limit ==> queue < 3 * step && !Congested(a) && limit < maxLimit)
  {
    hide Congested;
  }

  lemma {:induction false} StartInv(cfg: Config)
    requires cfg.Valid() && Semaphores.Inv(Init(cfg.initialLimit))
    ensures Inv(cfg, Start(cfg))
  {
  }

  lemma {:induction false} InvInLimits(cfg: Config, s: State)
    requires cfg.Valid() && Inv(cfg, s)
    ensures InLimits(cfg, s.limit) && s.limit >= 1.0
  {
  }

  lemma {:induction false} StepNotNegative(cfg: Config, limit: nat, step: int)
    requires cfg.Valid() && IsStep(cfg, limit, step)
    ensures step >= 0
  {
  }

  lemma {:induction false} DequeFilled(cfg: Config, s: State, a: Action)
    requires s.limit >= 0.0 && a.Update?
    ensures cfg.stabilization > 0 ==> Act(cfg, s, a).deque != []
  {
  }

  /** The slower the responses, the lower the limit: of two updates that differ in the gradient only, the one with the
      smaller gradient leaves no higher limit. */
  lemma {:induction false} LimitFollowsGradient(cfg: Config, s: State, a: Action, gradient: real)
    requires cfg.Valid() && InLimits(cfg, s.limit) && a.Update? && gradient <= a.signals.gradient
    ensures Act(cfg, s, a.(signals := a.signals.(gradient := gradient))).limit <= Act(cfg, s, a).limit
  {
    hide NextLimit, ChangeFor, ComputeMaxLimit, Added, Step;
    var a' := a.(signals := a.signals.(gradient := gradient));
    ChangeOrder(cfg, s.limit, a, gradient);
    NextLimitOrder(cfg, s.limit, ChangeFor(cfg, s.limit, a'.overloaded, a'.signals),
                   ChangeFor(cfg, s.limit, a.overloaded, a.signals),
                   ComputeMaxLimit(cfg, Stabilised(cfg, Act(cfg, s, a).deque, a.inflight)));
  }

  /** c is no more of a rise than c'. */
  predicate NoHigher(c: Change, c': Change) {
    c.Decrease? || c'.Increase? || c == c'
  }

  lemma {:induction false} ChangeOrder(cfg: Config, limit: real, a: Action, gradient: real)
    requires cfg.Valid() && limit >= 0.0 && a.Update? && gradient <= a.signals.gradient
    ensures NoHigher(ChangeFor(cfg, limit, a.overloaded, a.signals.(gradient := gradient)),
                     ChangeFor(cfg, limit, a.overloaded, a.signals))
  {
    hide LogStep, QueueSize, ComputeChange;
    var q, q' := QueueSize(limit, gradient), QueueSize(limit, a.signals.gradient);
    CeilOrder(limit, gradient, a.signals.gradient);
    LogStepNotNegative(cfg, limit.Floor);
    LongerQueue(q, q', LogStep(cfg, 3, limit.Floor), LogStep(cfg, 6, limit.Floor), a.overloaded,
                a.signals.(gradient := gradient), a.signals);
  }

  lemma {:induction false} LongerQueue(q: int, q': int, alpha: int, beta: int, overloaded: bool, g: Signals, g': Signals)
    requires q >= q' && alpha <= beta && g == g'.(gradient := g.gradient)
    ensures NoHigher(ComputeChange(q, alpha, beta, overloaded, g), ComputeChange(q', alpha, beta, overloaded, g'))
  {
  }

  lemma {:induction false} NextLimitOrder(cfg: Config, limit: real, c: Change, c': Change, maxLimit: real)
    requires cfg.Valid() && InLimits(cfg, limit) && NoHigher(c, c')
    ensures NextLimit(cfg, limit, c, maxLimit) <= NextLimit(cfg, limit, c', maxLimit)
  {
    hide NextLimit, LogStep;
    LogStepNotNegative(cfg, limit.Floor);
    NextLimitExactly(cfg, limit, c, maxLimit);
    NextLimitExactly(cfg, limit, c', maxLimit);
  }

  lemma {:induction false} LogStepNotNegative(cfg: Config, limit: nat)
    requires cfg.Valid()
    ensures LogStep(cfg, 1, limit) >= 0 && LogStep(cfg, 3, limit) <= LogStep(cfg, 6, limit)
  {
  }

  lemma {:induction false} CeilOrder(limit: real, g: real, g': real)
    requires limit >= 0.0 && g <= g'
    ensures QueueSize(limit, g') <= QueueSize(limit, g)
  {
    var x, x' := limit * (1.0 - g), limit * (1.0 - g');
    assert limit * (g' - g) >= 0.0;
    assert x' <= x;
    assert (-x).Floor <= (-x').Floor;
  }

  // ---------------------------------------------------------------- the computed maximum

  /** What one inflight execution allows the limit: the factor, or with a decay the factor less the decay for each order
      of magnitude of inflights, but no less than the floor. */
  ghost predicate IsFactor(cfg: Config, inflight: int, factor: real) {
    if cfg.maxLimitFactorDecay <= 0.0 || inflight <= 0 then factor == cfg.maxLimitFactor
    else
      && factor >= cfg.minLimitFactor && factor >= cfg.maxLimitFactor - cfg.maxLimitFactorDecay * cfg.log10(inflight)
      && (factor == cfg.minLimitFactor || factor == cfg.maxLimitFactor - cfg.maxLimitFactorDecay * cfg.log10(inflight))
  }

  /** The computed maximum is the function given, or the inflight times that factor. */
  lemma {:induction false} MaxLimitExactly(cfg: Config, inflight: int, factor: real)
    requires IsFactor(cfg, inflight, factor)
    ensures ComputeMaxLimit(cfg, inflight)
         == match cfg.maxLimitFunc case Some(f) => f(inflight) case None => inflight as real * factor
  {
  }

  /** With a decay it lies between the floor and the factor, and what each inflight allows never grows with their number. */
  lemma {:induction false} MaxLimitDecays(cfg: Config, n: int, m: int, fn: real, fm: real)
    requires cfg.Valid() && cfg.maxLimitFunc == None && cfg.maxLimitFactorDecay > 0.0
    requires cfg.minLimitFactor <= cfg.maxLimitFactor && 0 < n <= m && cfg.log10(n) <= cfg.log10(m)
    requires IsFactor(cfg, n, fn) && IsFactor(cfg, m, fm)
    ensures cfg.minLimitFactor <= fm <= fn <= cfg.maxLimitFactor
    ensures n as real * cfg.minLimitFactor <= ComputeMaxLimit(cfg, n) <= n as real * cfg.maxLimitFactor
  {
    var d := cfg.maxLimitFactorDecay;
    assert d * cfg.log10(n) >= 0.0;
    assert d * (cfg.log10(m) - cfg.log10(n)) >= 0.0;
    assert d * cfg.log10(n) <= d * cfg.log10(m);
    MaxLimitExactly(cfg, n, fn);
    ScaleOrder(n as real, cfg.minLimitFactor, fn);
    ScaleOrder(n as real, fn, cfg.maxLimitFactor);
  }

  lemma {:induction false} ScaleOrder(k: real, a: real, b: real)
    requires k >= 0.0 && a <= b
    ensures k * a <= k * b
  {
  }

  // ---------------------------------------------------------------- the semaphore between updates

  function Permits(ops: seq<Op>): (r: seq<Action>)
    ensures |r| == |ops|
  {
    seq(|ops|, i requires 0 <= i < |ops| => Permit(ops[i]))
  }

  /** Between updates the limiter's semaphore is the semaphore: any run of its calls is a run of the limiter, with the same
      outcome and the limit untouched. */
  lemma {:induction false} CallsBetweenUpdates(cfg: Config, s: State, ops: seq<Op>)
    requires s.limit >= 0.0 && Semaphores.Runs(s.system, ops) && forall i :: 0 <= i < |ops| ==> !ops[i].SetSize?
    ensures Runs(cfg, s, Permits(ops)) && Run(cfg, s, Permits(ops)) == s.(system := Semaphores.Run(s.system, ops))
    decreases |ops|
  {
    if ops != [] {
      hide Step, Enabled;
      assert !ops[0].SetSize?;
      assert Permits(ops)[0] == Permit(ops[0]) && Permits(ops)[1..] == Permits(ops[1..]);
      CallsBetweenUpdates(cfg, Act(cfg, s, Permit(ops[0])), ops[1..]);
    }
  }
}
