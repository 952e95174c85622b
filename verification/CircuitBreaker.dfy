/** The circuit breaker with count-based windows: closed, open and half-open states and the moves between them. */
module CircuitBreakers {
  import opened Rings
  import opened Division
  import opened Rounding
  import opened CountingStatistics

  /** The thresholds as the builder sets them; zero means not set. */
  datatype Config = Config(
    failureThreshold: nat, failureRateThreshold: real, failureThresholdingCapacity: nat,
    failureExecutionThreshold: nat, successThreshold: nat, successThresholdingCapacity: nat, delay: int)
  {
    function ClosedCapacity(): nat {
      if failureExecutionThreshold != 0 then failureExecutionThreshold else failureThresholdingCapacity
    }

    function HalfOpenCapacity(): nat {
      if successThresholdingCapacity != 0 then successThresholdingCapacity
      else if failureExecutionThreshold != 0 then failureExecutionThreshold
      else failureThresholdingCapacity
    }

    /** A window of no results cannot be written to. */
    predicate Valid() {
      ClosedCapacity() > 0 && HalfOpenCapacity() > 0
    }
  }

  datatype Phase = Closed | Open(startTime: int, delay: int) | HalfOpen(permitted: nat)

  /** window holds the results of the current state, oldest first; an open breaker keeps its predecessor's. */
  datatype Breaker = Breaker(phase: Phase, window: seq<bool>, capacity: nat)

  const NO_DELAY := -1

  // ---------------------------------------------------------------- thresholds

  function Rate(count: nat, total: nat): real {
    if total == 0 then 0.0 else Round(count as real / total as real)
  }

  const WORD := 0x1_0000_0000_0000_0000

  /** Subtraction of unsigned machine words. */
  function Minus(a: nat, b: nat): int {
    if b <= a then a - b else a - b + WORD
  }

  predicate ClosedTrips(cfg: Config, t: Tally) {
    && t.executions >= cfg.failureExecutionThreshold
    && if cfg.failureRateThreshold != 0.0 then Rate(t.failures, t.executions) >= cfg.failureRateThreshold
       else t.failures >= cfg.failureThreshold
  }

  predicate SuccessesExceeded(cfg: Config, t: Tally) {
    if cfg.successThreshold != 0 then t.successes >= cfg.successThreshold
    else if cfg.failureRateThreshold != 0.0 then
      && t.executions >= cfg.failureExecutionThreshold
      && Rate(t.successes, t.executions) > 1.0 - cfg.failureRateThreshold
    else t.successes > Minus(cfg.failureThresholdingCapacity, cfg.failureThreshold)
  }

  predicate FailuresExceeded(cfg: Config, t: Tally) {
    if cfg.successThreshold != 0 then t.failures > Minus(cfg.successThresholdingCapacity, cfg.successThreshold)
    else if cfg.failureRateThreshold != 0.0 then
      && t.executions >= cfg.failureExecutionThreshold
      && Rate(t.failures, t.executions) >= cfg.failureRateThreshold
    else t.failures >= cfg.failureThreshold
  }

  // ---------------------------------------------------------------- moves

  /** Moves do nothing when the breaker is already there. */
  function Opened(cfg: Config, b: Breaker, now: int, computedDelay: int): Breaker {
    if b.phase.Open? then b
    else b.(phase := Open(now, if computedDelay == NO_DELAY then cfg.delay else computedDelay))
  }

  function ClosedAgain(cfg: Config, b: Breaker): Breaker {
    if b.phase.Closed? then b else Breaker(Closed, [], cfg.ClosedCapacity())
  }

  function HalfOpened(cfg: Config, b: Breaker): Breaker {
    if b.phase.HalfOpen? then b else Breaker(HalfOpen(cfg.HalfOpenCapacity()), [], cfg.HalfOpenCapacity())
  }

  /** Whether a permit is granted at time now, and the state it leaves. */
  function Acquired(cfg: Config, b: Breaker, now: int): (bool, Breaker) {
    match b.phase
    case Closed => (true, b)
    case Open(start, delay) =>
      if now - start >= delay
      then
        var h := HalfOpened(cfg, b);
        if h.phase.permitted > 0 then (true, h.(phase := HalfOpen(h.phase.permitted - 1))) else (false, h)
      else (false, b)
    case HalfOpen(permitted) => if permitted > 0 then (true, b.(phase := HalfOpen(permitted - 1))) else (false, b)
  }

  /** A result recorded at time now; computedDelay is what the delay function gives, or NO_DELAY. */
  function Recorded(cfg: Config, b: Breaker, success: bool, now: int, computedDelay: int): Breaker {
    var b' := b.(window := LastN(b.window + [success], b.capacity));
    var t := TallyOf(b'.window);
    match b.phase
    case Closed => if ClosedTrips(cfg, t) then Opened(cfg, b', now, computedDelay) else b'
    case Open(_, _) => b'
    case HalfOpen(permitted) =>
      if SuccessesExceeded(cfg, t) then ClosedAgain(cfg, b')
      else if FailuresExceeded(cfg, t) then Opened(cfg, b', now, computedDelay)
      else b'.(phase := HalfOpen(permitted + 1))
  }

  class CircuitBreaker {
    const cfg: Config
    var phase: Phase
    var stats: CountingStats

    ghost predicate Valid()
      reads this, stats, stats.bits
    {
      cfg.Valid() && stats.Valid()
    }

    ghost function Abs(): Breaker
      requires Valid()
      reads this, stats, stats.bits
    {
      Breaker(phase, stats.Window(), stats.bits.Length)
    }

    ghost function Repr(): set<object>
      reads this
    {
      {this, stats, stats.bits}
    }

    constructor (cfg: Config)
      requires cfg.Valid()
      ensures Valid() && fresh(Repr()) && this.cfg == cfg && Abs() == Breaker(Closed, [], cfg.ClosedCapacity())
    {
      this.cfg := cfg;
      phase := Closed;
      stats := new CountingStats(cfg.ClosedCapacity());
    }

    /** transitionTo(OpenState): the window stays the previous state's. */
    method Open(now: int, computedDelay: int)
      requires Valid()
      modifies this
      ensures Valid() && stats == old(stats) && Abs() == Opened(cfg, old(Abs()), now, computedDelay)
    {
      if !phase.Open? {
        phase := Phase.Open(now, if computedDelay == NO_DELAY then cfg.delay else computedDelay);
      }
    }

    /** transitionTo(ClosedState) */
    method Close()
      requires Valid()
      modifies this
      ensures Valid() && fresh(Repr() - old(Repr())) && Abs() == ClosedAgain(cfg, old(Abs()))
    {
      if !phase.Closed? {
        stats := new CountingStats(cfg.ClosedCapacity());
        phase := Closed;
      }
    }

    /** transitionTo(HalfOpenState) */
    method HalfOpen()
      requires Valid()
      modifies this
      ensures Valid() && fresh(Repr() - old(Repr())) && Abs() == HalfOpened(cfg, old(Abs()))
    {
      if !phase.HalfOpen? {
        stats := new CountingStats(cfg.HalfOpenCapacity());
        phase := Phase.HalfOpen(cfg.HalfOpenCapacity());
      }
    }

    method TryAcquirePermit(now: int) returns (granted: bool)
      requires Valid()
      modifies this
      ensures Valid() && fresh(Repr() - old(Repr()))
      ensures (granted, Abs()) == Acquired(cfg, old(Abs()), now)
    {
      if phase.Closed? {
        return true;
      }
      if phase.Open? {
        if now - phase.startTime < phase.delay {
          return false;
        }
        HalfOpen();
      }
      granted := phase.permitted > 0;
      if granted {
        phase := Phase.HalfOpen(phase.permitted - 1);
      }
    }

    method RecordResult(success: bool, now: int, computedDelay: int)
      requires Valid()
      modifies this, stats, stats.bits
      ensures Valid() && fresh(Repr() - old(Repr()))
      ensures Abs() == Recorded(cfg, old(Abs()), success, now, computedDelay)
    {
      hide TallyOf, LastN, Rate, Content, ClosedTrips, SuccessesExceeded, FailuresExceeded;
      var _ := stats.SetNext(success);
      var t := stats.Counts();
      match phase
      case Closed =>
        if ClosedTrips(cfg, t) {
          Open(now, computedDelay);
        }
      case Open(_, _) =>
      case HalfOpen(permitted) =>
        if SuccessesExceeded(cfg, t) {
          Close();
        } else if FailuresExceeded(cfg, t) {
          Open(now, computedDelay);
        } else {
          phase := Phase.HalfOpen(permitted + 1);
        }
    }

    method Reset()
      requires Valid()
      modifies this, stats, stats.bits
      ensures Valid() && fresh(Repr() - old(Repr()))
      ensures Abs() == ClosedAgain(cfg, old(Abs())).(window := [])
    {
      Close();
      stats.Reset();
    }
  }

  // ---------------------------------------------------------------- half-open decisions

  datatype Decision = Undecided | CloseIt | OpenIt

  /** What the half-open state decides on a tally; closing is looked at first. */
  function Decide(cfg: Config, t: Tally): Decision {
    if SuccessesExceeded(cfg, t) then CloseIt else if FailuresExceeded(cfg, t) then OpenIt else Undecided
  }

  /** A success threshold, or without one a failure threshold, out of as many trials as half-open allows. */
  predicate CountBased(cfg: Config) {
    if cfg.successThreshold != 0 then 1 <= cfg.successThreshold <= cfg.successThresholdingCapacity
    else
      && cfg.failureRateThreshold == 0.0
      && 1 <= cfg.failureThreshold <= cfg.failureThresholdingCapacity == cfg.HalfOpenCapacity()
  }

  /** A failure rate, out of the execution threshold. */
  predicate RateBased(cfg: Config) {
    && cfg.successThreshold == 0 && cfg.failureRateThreshold != 0.0
    && cfg.failureExecutionThreshold == cfg.HalfOpenCapacity() > 0
  }

  /** A tally of at most as many results as half-open allows. */
  predicate Trial(cfg: Config, t: Tally) {
    t.successes + t.failures == t.executions <= cfg.HalfOpenCapacity()
  }

  /** Count-based, the conditions to open and to close never hold together, and one holds once the window is full. */
  lemma {:induction false} CountDecision(cfg: Config, t: Tally)
    requires CountBased(cfg) && Trial(cfg, t)
    ensures !(SuccessesExceeded(cfg, t) && FailuresExceeded(cfg, t))
    ensures t.executions == cfg.HalfOpenCapacity() ==> Decide(cfg, t) != Undecided
  {
  }

  /** Count-based, an early decision is the one the full window reaches, whatever the remaining outcomes. */
  lemma {:induction false} EarlyDecisionStands(cfg: Config, w: seq<bool>, more: seq<bool>)
    requires CountBased(cfg) && |w + more| == cfg.HalfOpenCapacity() && Decide(cfg, TallyOf(w)) != Undecided
    ensures Decide(cfg, TallyOf(w + more)) == Decide(cfg, TallyOf(w))
  {
    CountGrows(w, more, true);
    CountGrows(w, more, false);
    SuccessesAndFailures(w);
    SuccessesAndFailures(w + more);
    CountDecision(cfg, TallyOf(w + more));
  }

  // ---------------------------------------------------------------- rounded rates

  /** 100 * count / total, rounded half up, as an integer. */
  function Percent(count: nat, total: nat): int
    requires total > 0
  {
    (200 * count + total) / (2 * total)
  }

  lemma {:induction false} FloorOfQuotient(a: nat, b: nat, x: real)
    requires b > 0 && x * b as real == a as real
    ensures x.Floor == a / b
  {
    var q, r := a / b, a % b;
    assert a == b * q + r;
    assert x == q as real + r as real / b as real by {
      assert (q as real + r as real / b as real) * b as real == a as real;
    }
    assert 0.0 <= r as real / b as real < 1.0;
  }

  /** The rounded rate is a whole number of hundredths. */
  lemma {:induction false} RateIsPercent(count: nat, total: nat)
    requires total > 0
    ensures Rate(count, total) == Percent(count, total) as real / 100.0
  {
    var v := count as real / total as real;
    var x := v * 100.0 + 0.5;
    assert v * total as real == count as real;
    assert x * (2 * total) as real == (200 * count + total) as real;
    FloorOfQuotient(200 * count + total, 2 * total, x);
  }

  /** Whether count/total lies exactly half way between two hundredths. */
  predicate HalfWay(count: nat, total: nat)
    requires total > 0
  {
    (200 * count + total) % (2 * total) == 0
  }

  /** The two rates add up to one, or to a hundredth more when both are rounded up from half way. */
  lemma {:induction false} PercentsAddUp(f: nat, s: nat)
    requires f + s > 0
    ensures Percent(f, f + s) + Percent(s, f + s) == (if HalfWay(f, f + s) then 101 else 100)
  {
    var n := f + s;
    var q, r := (200 * f + n) / (2 * n), (200 * f + n) % (2 * n);
    assert 200 * f + n == 2 * n * q + r;
    assert 200 * s + n == 2 * n * (101 - q) - r;
    if r == 0 {
      assert Percent(s, n) == 101 - q by { PercentIs(200 * s + n, 2 * n, 101 - q, 0); }
    } else {
      assert 2 * n * (101 - q) - r == 2 * n * (100 - q) + (2 * n - r);
      assert Percent(s, n) == 100 - q by { PercentIs(200 * s + n, 2 * n, 100 - q, 2 * n - r); }
    }
  }

  lemma {:induction false} PercentIs(a: int, b: nat, q: int, r: nat)
    requires b > 0 && a == b * q + r && r < b
    ensures a / b == q
  {
    QuotientUnique(a, b, q);
  }

  /** Rate-based, nothing is decided before the execution threshold and something is once it is reached. The conditions
      to open and to close hold together exactly when the failure rate is half way between two hundredths and the
      threshold lies in the hundredth below the rounded rate; the breaker then closes. */
  lemma {:induction false} RateDecision(cfg: Config, t: Tally)
    requires RateBased(cfg) && Trial(cfg, t)
    ensures (Decide(cfg, t) == Undecided) == (t.executions < cfg.HalfOpenCapacity())
    ensures t.executions == cfg.HalfOpenCapacity() ==>
              ((SuccessesExceeded(cfg, t) && FailuresExceeded(cfg, t)) <==>
               (HalfWay(t.failures, t.executions) &&
                cfg.failureRateThreshold <= Rate(t.failures, t.executions) < cfg.failureRateThreshold + 0.01))
  {
    if t.executions == cfg.HalfOpenCapacity() {
      PercentsAddUp(t.failures, t.successes);
      RateIsPercent(t.failures, t.executions);
      RateIsPercent(t.successes, t.executions);
    }
  }

  /** They do hold together: one failure in two hundred executions against a threshold of one percent. */
  lemma {:induction false} RateConditionsMayClash()
    ensures var cfg := Config(1, 0.01, 1, 200, 0, 0, 0);
            var t := Tally(200, 199, 1);
            RateBased(cfg) && Trial(cfg, t) && SuccessesExceeded(cfg, t) && FailuresExceeded(cfg, t)
  {
    RateIsPercent(1, 200);
    RateIsPercent(199, 200);
  }

  // ---------------------------------------------------------------- half-open episodes

  datatype Op =
    | Acquire(now: int)
    | Record(success: bool, now: int, computedDelay: int)
    | MoveOpen(now: int, computedDelay: int)
    | MoveClosed
    | MoveHalfOpen
    | Reset

  function Step(cfg: Config, b: Breaker, op: Op): Breaker {
    match op
    case Acquire(now) => Acquired(cfg, b, now).1
    case Record(success, now, d) => Recorded(cfg, b, success, now, d)
    case MoveOpen(now, d) => Opened(cfg, b, now, d)
    case MoveClosed => ClosedAgain(cfg, b)
    case MoveHalfOpen => HalfOpened(cfg, b)
    case Reset => ClosedAgain(cfg, b).(window := [])
  }

  function Run(cfg: Config, b: Breaker, ops: seq<Op>): Breaker {
    if ops == [] then b else Step(cfg, Run(cfg, b, ops[..|ops| - 1]), ops[|ops| - 1])
  }

  function FreshHalfOpen(cfg: Config): Breaker {
    Breaker(HalfOpen(cfg.HalfOpenCapacity()), [], cfg.HalfOpenCapacity())
  }

  /** The breaker has stayed half-open throughout ops. */
  predicate InEpisode(cfg: Config, ops: seq<Op>) {
    ops == [] || (InEpisode(cfg, ops[..|ops| - 1]) && Run(cfg, FreshHalfOpen(cfg), ops).phase.HalfOpen?)
  }

  /** The permits granted along ops. */
  function Admitted(cfg: Config, ops: seq<Op>): nat {
    if ops == [] then 0
    else
      var n := |ops| - 1;
      Admitted(cfg, ops[..n]) +
      (if ops[n].Acquire? && Acquired(cfg, Run(cfg, FreshHalfOpen(cfg), ops[..n]), ops[n].now).0 then 1 else 0)
  }

  /** The results recorded along ops, stale ones from earlier states included. */
  function Results(ops: seq<Op>): nat {
    if ops == [] then 0 else Results(ops[..|ops| - 1]) + (if ops[|ops| - 1].Record? then 1 else 0)
  }

  /** Permits are conserved, whatever the configuration: those left and those granted are the capacity and one for each
      result; the window holds the results, or the last capacity of them. */
  lemma {:induction false} EpisodeConserves(cfg: Config, ops: seq<Op>)
    requires InEpisode(cfg, ops)
    ensures var b := Run(cfg, FreshHalfOpen(cfg), ops);
            && b.phase.HalfOpen? && b.capacity == cfg.HalfOpenCapacity()
            && |b.window| == (if Results(ops) <= b.capacity then Results(ops) else b.capacity)
            && b.phase.permitted + Admitted(cfg, ops) == b.capacity + Results(ops)
  {
    hide SuccessesExceeded, FailuresExceeded, TallyOf, Step;
    if ops != [] {
      var n := |ops| - 1;
      EpisodeConserves(cfg, ops[..n]);
      StepConserves(cfg, Run(cfg, FreshHalfOpen(cfg), ops[..n]), ops[n]);
    }
  }

  /** One step that leaves a half-open breaker half-open: a grant costs a permit and a result brings one. */
  lemma {:induction false} StepConserves(cfg: Config, b: Breaker, op: Op)
    requires b.phase.HalfOpen? && |b.window| <= b.capacity && Step(cfg, b, op).phase.HalfOpen?
    ensures var b' := Step(cfg, b, op);
            && b'.capacity == b.capacity
            && |b'.window| == (if op.Record? && |b.window| < b.capacity then |b.window| + 1 else |b.window|)
            && b'.phase.permitted == b.phase.permitted + (if op.Record? then 1 else 0)
               - (if op.Acquire? && Acquired(cfg, b, op.now).0 then 1 else 0)
  {
    hide SuccessesExceeded, FailuresExceeded, TallyOf;
  }

  /** In a configuration that decides on every full window, an episode has recorded fewer than capacity results. */
  lemma {:induction false} EpisodeIsShort(cfg: Config, ops: seq<Op>)
    requires Decisive(cfg) && cfg.HalfOpenCapacity() > 0 && InEpisode(cfg, ops)
    ensures Results(ops) < cfg.HalfOpenCapacity()
  {
    hide SuccessesExceeded, FailuresExceeded, Decisive, TallyOf;
    if ops != [] {
      var n := |ops| - 1;
      EpisodeIsShort(cfg, ops[..n]);
      EpisodeConserves(cfg, ops[..n]);
      var b := Run(cfg, FreshHalfOpen(cfg), ops[..n]);
      if ops[n].Record? && Results(ops) == cfg.HalfOpenCapacity() {
        DecisiveDecides(cfg, LastN(b.window + [ops[n].success], b.capacity));
      }
    }
  }

  /** In any half-open episode the executions admitted exceed the results recorded by at most capacity; where full windows
      decide, no episode admits more than 2 * capacity - 1. */
  lemma {:induction false} EpisodeAdmission(cfg: Config, ops: seq<Op>)
    requires InEpisode(cfg, ops)
    ensures Admitted(cfg, ops) - Results(ops) <= cfg.HalfOpenCapacity()
    ensures Decisive(cfg) && cfg.HalfOpenCapacity() > 0 ==> Admitted(cfg, ops) <= 2 * cfg.HalfOpenCapacity() - 1
  {
    EpisodeConserves(cfg, ops);
    if Decisive(cfg) && cfg.HalfOpenCapacity() > 0 {
      EpisodeIsShort(cfg, ops);
    }
  }

  // ---------------------------------------------------------------- which configurations decide

  /** The thresholds are machine words. */
  predicate Words(cfg: Config) {
    && cfg.failureThreshold < WORD && cfg.failureThresholdingCapacity < WORD && cfg.failureExecutionThreshold < WORD
    && cfg.successThreshold < WORD && cfg.successThresholdingCapacity < WORD
  }

  /** The threshold in use lies within its capacity, and half-open allows as many trials as it is out of. */
  predicate Decisive(cfg: Config) {
    if cfg.successThreshold != 0 then cfg.successThreshold <= cfg.successThresholdingCapacity
    else if cfg.failureRateThreshold != 0.0 then cfg.failureExecutionThreshold <= cfg.HalfOpenCapacity()
    else
      || cfg.failureThreshold == 0
      || cfg.failureThreshold <= cfg.failureThresholdingCapacity <= cfg.HalfOpenCapacity()
  }

  lemma {:induction false} DecisiveDecides(cfg: Config, w: seq<bool>)
    requires Decisive(cfg) && |w| == cfg.HalfOpenCapacity() > 0
    ensures Decide(cfg, TallyOf(w)) != Undecided
  {
    var t := TallyOf(w);
    SuccessesAndFailures(w);
    if cfg.successThreshold == 0 && cfg.failureRateThreshold != 0.0 {
      PercentsAddUp(t.failures, t.successes);
      RateIsPercent(t.failures, t.executions);
      RateIsPercent(t.successes, t.executions);
    }
  }

  /** s successes and then f failures. */
  function Outcome(s: nat, f: nat): (w: seq<bool>)
    ensures |w| == s + f
  {
    seq(s, _ => true) + seq(f, _ => false)
  }

  lemma {:induction false} OutcomeTally(s: nat, f: nat)
    ensures TallyOf(Outcome(s, f)) == Tally(s + f, s, f)
    decreases s + f
  {
    var w := Outcome(s, f);
    if f > 0 {
      OutcomeTally(s, f - 1);
      assert w[..|w| - 1] == Outcome(s, f - 1);
    } else if s > 0 {
      OutcomeTally(s - 1, 0);
      assert w[..|w| - 1] == Outcome(s - 1, 0);
    }
  }

  /** As many failures as leave the failure count short, and else successes; or the other way round for successes. */
  function Stalemate(cfg: Config): (w: seq<bool>)
    ensures |w| == cfg.HalfOpenCapacity()
  {
    var n := cfg.HalfOpenCapacity();
    if cfg.successThreshold != 0 then
      var s := if n < cfg.successThreshold then n else cfg.successThreshold - 1;
      Outcome(s, n - s)
    else
      var f := if n < cfg.failureThreshold || cfg.failureThreshold == 0 then n else cfg.failureThreshold - 1;
      Outcome(n - f, f)
  }

  lemma {:induction false} StalemateUndecided(cfg: Config)
    requires Words(cfg) && !Decisive(cfg)
    ensures Decide(cfg, TallyOf(Stalemate(cfg))) == Undecided
  {
    var n := cfg.HalfOpenCapacity();
    if cfg.successThreshold != 0 {
      var s := if n < cfg.successThreshold then n else cfg.successThreshold - 1;
      OutcomeTally(s, n - s);
    } else {
      var f := if n < cfg.failureThreshold || cfg.failureThreshold == 0 then n else cfg.failureThreshold - 1;
      OutcomeTally(n - f, f);
    }
  }

  /** A full half-open window decides, whatever its results, if and only if the configuration is decisive. */
  lemma {:induction false} FullWindowDecides(cfg: Config)
    requires Words(cfg) && cfg.HalfOpenCapacity() > 0
    ensures Decisive(cfg) <==> forall w :: |w| == cfg.HalfOpenCapacity() ==> Decide(cfg, TallyOf(w)) != Undecided
  {
    hide Decide, TallyOf;
    if Decisive(cfg) {
      forall w | |w| == cfg.HalfOpenCapacity() ensures Decide(cfg, TallyOf(w)) != Undecided {
        DecisiveDecides(cfg, w);
      }
    } else {
      StalemateUndecided(cfg);
    }
  }

  lemma {:induction false} UsualConfigurationsDecide(cfg: Config)
    requires CountBased(cfg) || RateBased(cfg)
    ensures Decisive(cfg)
  {
  }

  /** The builder reaches one that is not: a failure threshold of 3 out of 10 set after a threshold over a period, whose
      execution threshold of 5 stays and limits the trials. Three successes in five decide nothing, and no result of its
      trials ever closes it. */
  lemma {:induction false} IndecisiveConfiguration()
    ensures var cfg := Config(3, 0.0, 10, 5, 0, 0, 0);
            && cfg.HalfOpenCapacity() == 5 && Decide(cfg, Tally(5, 3, 2)) == Undecided && !Decisive(cfg)
            && forall t :: Trial(cfg, t) ==> Decide(cfg, t) != CloseIt
  {
  }

  // ---------------------------------------------------------------- the admission bound is reached

  const TRY := Acquire(0)

  function Tries(n: nat): seq<Op> {
    if n == 0 then [] else Tries(n - 1) + [TRY]
  }

  /** n requests, then for each result a record and another request. */
  function Alternate(n: nat, w: seq<bool>): seq<Op> {
    if w == [] then Tries(n) else Alternate(n, w[..|w| - 1]) + [Record(w[|w| - 1], 0, 0), TRY]
  }

  lemma {:induction false} RunAppend(cfg: Config, b: Breaker, ops: seq<Op>, op: Op)
    ensures Run(cfg, b, ops + [op]) == Step(cfg, Run(cfg, b, ops), op)
  {
    assert (ops + [op])[..|ops|] == ops;
  }

  lemma {:induction false} EpisodeAppend(cfg: Config, ops: seq<Op>, op: Op)
    requires InEpisode(cfg, ops) && Run(cfg, FreshHalfOpen(cfg), ops + [op]).phase.HalfOpen?
    ensures InEpisode(cfg, ops + [op]) && Results(ops + [op]) == Results(ops) + (if op.Record? then 1 else 0)
  {
    assert (ops + [op])[..|ops|] == ops;
  }

  lemma {:induction false} Requests(cfg: Config, n: nat)
    requires n <= cfg.HalfOpenCapacity()
    ensures var ops := Tries(n);
            && InEpisode(cfg, ops) && Results(ops) == 0
            && Run(cfg, FreshHalfOpen(cfg), ops) == FreshHalfOpen(cfg).(phase := HalfOpen(cfg.HalfOpenCapacity() - n))
  {
    hide InEpisode, Run, Results, Step, FreshHalfOpen;
    if n == 0 {
      NothingDone(cfg);
    } else {
      Requests(cfg, n - 1);
      TryTakesPermit(cfg, cfg.HalfOpenCapacity() - n);
      RunAppend(cfg, FreshHalfOpen(cfg), Tries(n - 1), TRY);
      EpisodeAppend(cfg, Tries(n - 1), TRY);
    }
  }

  lemma {:induction false} TryTakesPermit(cfg: Config, left: nat)
    ensures FreshHalfOpen(cfg).phase.HalfOpen?
    ensures Step(cfg, FreshHalfOpen(cfg).(phase := HalfOpen(left + 1)), TRY) == FreshHalfOpen(cfg).(phase := HalfOpen(left))
  {
  }

  lemma {:induction false} NothingDone(cfg: Config)
    ensures InEpisode(cfg, []) && Results([]) == 0
    ensures Run(cfg, FreshHalfOpen(cfg), []) == FreshHalfOpen(cfg).(phase := HalfOpen(cfg.HalfOpenCapacity()))
  {
  }

  /** None of the results so far decided anything. */
  ghost predicate Drawn(cfg: Config, w: seq<bool>) {
    forall k :: 0 <= k <= |w| ==> Decide(cfg, TallyOf(w[..k])) == Undecided
  }

  /** A result that decides nothing returns a permit, and another request takes it. */
  lemma {:induction false} AnotherTurn(cfg: Config, ops: seq<Op>, front: seq<bool>, last: bool)
    requires |front| + 1 < cfg.HalfOpenCapacity() && InEpisode(cfg, ops)
    requires Run(cfg, FreshHalfOpen(cfg), ops) == Breaker(HalfOpen(0), front, cfg.HalfOpenCapacity())
    requires Decide(cfg, TallyOf(front + [last])) == Undecided
    ensures var ops' := ops + [Record(last, 0, 0)] + [TRY];
            && InEpisode(cfg, ops') && Results(ops') == Results(ops) + 1
            && Run(cfg, FreshHalfOpen(cfg), ops') == Breaker(HalfOpen(0), front + [last], cfg.HalfOpenCapacity())
  {
    hide InEpisode, Run, Results, SuccessesExceeded, FailuresExceeded, TallyOf;
    var record := Record(last, 0, 0);
    RunAppend(cfg, FreshHalfOpen(cfg), ops, record);
    EpisodeAppend(cfg, ops, record);
    RunAppend(cfg, FreshHalfOpen(cfg), ops + [record], TRY);
    EpisodeAppend(cfg, ops + [record], TRY);
  }

  lemma {:induction false} AlternateRun(cfg: Config, w: seq<bool>)
    requires |w| < cfg.HalfOpenCapacity() && Drawn(cfg, w)
    ensures var ops := Alternate(cfg.HalfOpenCapacity(), w);
            && InEpisode(cfg, ops) && Results(ops) == |w|
            && Run(cfg, FreshHalfOpen(cfg), ops) == Breaker(HalfOpen(0), w, cfg.HalfOpenCapacity())
  {
    hide InEpisode, Run, Results, Decide, TallyOf;
    var n := cfg.HalfOpenCapacity();
    if w == [] {
      Requests(cfg, n);
    } else {
      var front, last := w[..|w| - 1], w[|w| - 1];
      assert w == front + [last] && w[..|w|] == w;
      forall k | 0 <= k <= |front| ensures Decide(cfg, TallyOf(front[..k])) == Undecided {
        assert front[..k] == w[..k];
      }
      AlternateRun(cfg, front);
      assert Decide(cfg, TallyOf(w[..|w|])) == Undecided;
      var ops := Alternate(n, front);
      AnotherTurn(cfg, ops, front, last);
      assert ops + [Record(last, 0, 0), TRY] == ops + [Record(last, 0, 0)] + [TRY];
    }
  }

  /** The longest drawn result: one short of every threshold. */
  function Longest(cfg: Config): (w: seq<bool>)
    requires (CountBased(cfg) || RateBased(cfg)) && cfg.HalfOpenCapacity() > 0
    ensures |w| == cfg.HalfOpenCapacity() - 1
  {
    var n := cfg.HalfOpenCapacity();
    if cfg.successThreshold != 0 then Outcome(cfg.successThreshold - 1, n - cfg.successThreshold)
    else if cfg.failureRateThreshold != 0.0 then Outcome(n - 1, 0)
    else Outcome(n - cfg.failureThreshold, cfg.failureThreshold - 1)
  }

  lemma {:induction false} LongestUndecided(cfg: Config)
    requires CountBased(cfg) && cfg.HalfOpenCapacity() > 0
    ensures Decide(cfg, TallyOf(Longest(cfg))) == Undecided
  {
    hide TallyOf, Outcome;
    var n := cfg.HalfOpenCapacity();
    if cfg.successThreshold != 0 {
      OutcomeTally(cfg.successThreshold - 1, n - cfg.successThreshold);
    } else {
      OutcomeTally(n - cfg.failureThreshold, cfg.failureThreshold - 1);
    }
  }

  /** With counts, fewer results of either kind decide nothing that more did not. */
  lemma {:induction false} FewerUndecided(cfg: Config, t: Tally, more: Tally)
    requires CountBased(cfg) && t.successes <= more.successes && t.failures <= more.failures
    requires Decide(cfg, more) == Undecided
    ensures Decide(cfg, t) == Undecided
  {
  }

  lemma {:induction false} LongestIsDrawn(cfg: Config)
    requires (CountBased(cfg) || RateBased(cfg)) && cfg.HalfOpenCapacity() > 0
    ensures Drawn(cfg, Longest(cfg))
  {
    hide Decide, Longest, CountBased, RateBased, Successes, Failures;
    var w := Longest(cfg);
    forall k | 0 <= k <= |w| ensures Decide(cfg, TallyOf(w[..k])) == Undecided {
      SuccessesAndFailures(w[..k]);
      if CountBased(cfg) {
        assert w == w[..k] + w[k..];
        ShorterHasFewer(w[..k], w[k..]);
        LongestUndecided(cfg);
        FewerUndecided(cfg, TallyOf(w[..k]), TallyOf(w));
      } else {
        RateDecision(cfg, TallyOf(w[..k]));
      }
    }
  }

  lemma {:induction false} ShorterHasFewer(w: seq<bool>, more: seq<bool>)
    ensures Successes(w) <= Successes(w + more) && Failures(w) <= Failures(w + more)
  {
    CountGrows(w, more, true);
    CountGrows(w, more, false);
  }

  /** The bound is reached: with every count or rate threshold some episode admits 2 * capacity - 1 executions. */
  lemma {:induction false} EpisodeBoundIsReached(cfg: Config)
    requires (CountBased(cfg) || RateBased(cfg)) && cfg.HalfOpenCapacity() > 0
    ensures exists ops :: InEpisode(cfg, ops) && Admitted(cfg, ops) == 2 * cfg.HalfOpenCapacity() - 1
  {
    hide Alternate, Longest, InEpisode, Admitted;
    var ops := Alternate(cfg.HalfOpenCapacity(), Longest(cfg));
    LongestIsDrawn(cfg);
    AlternateRun(cfg, Longest(cfg));
    EpisodeConserves(cfg, ops);
  }

  // ---------------------------------------------------------------- which way a half-open breaker goes

  /** The results recorded along ops. */
  function ResultsOf(ops: seq<Op>): seq<bool> {
    if ops == [] then []
    else ResultsOf(ops[..|ops| - 1]) + (if ops[|ops| - 1].Record? then [ops[|ops| - 1].success] else [])
  }

  /** Results w call for closing: the success threshold is reached; without one, so many successes that too few failures
      can still come; with a failure rate, a full window whose rounded share of successes is above what it leaves. */
  predicate Closing(cfg: Config, w: seq<bool>) {
    if cfg.successThreshold != 0 then Successes(w) >= cfg.successThreshold
    else if cfg.failureRateThreshold != 0.0 then
      |w| == cfg.HalfOpenCapacity() > 0 && Percent(Successes(w), |w|) as real > 100.0 - 100.0 * cfg.failureRateThreshold
    else Successes(w) > cfg.failureThresholdingCapacity - cfg.failureThreshold
  }

  /** Results w call for opening: so many failures that the success threshold is out of reach; without one, the failure
      threshold is reached; with a failure rate, a full window whose rounded share of failures has reached it. */
  predicate Opening(cfg: Config, w: seq<bool>) {
    if cfg.successThreshold != 0 then Failures(w) > cfg.successThresholdingCapacity - cfg.successThreshold
    else if cfg.failureRateThreshold != 0.0 then
      |w| == cfg.HalfOpenCapacity() > 0 && Percent(Failures(w), |w|) as real >= 100.0 * cfg.failureRateThreshold
    else Failures(w) >= cfg.failureThreshold
  }

  predicate Deciding(cfg: Config, w: seq<bool>) {
    Closing(cfg, w) || Opening(cfg, w)
  }

  lemma {:induction false} DecisionCounts(cfg: Config, w: seq<bool>)
    requires (CountBased(cfg) || RateBased(cfg)) && |w| <= cfg.HalfOpenCapacity()
    ensures SuccessesExceeded(cfg, TallyOf(w)) <==> Closing(cfg, w)
    ensures FailuresExceeded(cfg, TallyOf(w)) <==> Opening(cfg, w)
  {
    SuccessesAndFailures(w);
    if RateBased(cfg) && |w| == cfg.HalfOpenCapacity() {
      RateIsPercent(Successes(w), |w|);
      RateIsPercent(Failures(w), |w|);
    }
  }

  /** Requests and results, and no explicit moves. */
  predicate OnlyRequests(ops: seq<Op>) {
    forall i :: 0 <= i < |ops| ==> ops[i].Acquire? || ops[i].Record?
  }

  /** A fresh half-open breaker along ops, up to the operation that takes it out of half-open. */
  function UntilDecided(cfg: Config, ops: seq<Op>): Breaker {
    if ops == [] then FreshHalfOpen(cfg)
    else
      var b := UntilDecided(cfg, ops[..|ops| - 1]);
      if b.phase.HalfOpen? then Step(cfg, b, ops[|ops| - 1]) else b
  }

  /** The k-th operation records the first result after which the results decide. */
  ghost predicate FirstDecision(cfg: Config, ops: seq<Op>, k: nat) {
    && 0 < k <= |ops| && ops[k - 1].Record? && Deciding(cfg, ResultsOf(ops[..k]))
    && forall j :: 0 <= j < k ==> !Deciding(cfg, ResultsOf(ops[..j]))
  }

  ghost predicate NoDecision(cfg: Config, ops: seq<Op>) {
    forall j :: 0 <= j <= |ops| ==> !Deciding(cfg, ResultsOf(ops[..j]))
  }

  /** Where the breaker goes on the k-th operation: closed, with no results, or open from its time for the delay computed
      for it, or the configured one. */
  function DecidedPhase(cfg: Config, ops: seq<Op>, k: nat): Phase
    requires 0 < k <= |ops| && ops[k - 1].Record?
  {
    if Closing(cfg, ResultsOf(ops[..k])) then Closed
    else Open(ops[k - 1].now, DelayFor(cfg, ops[k - 1].computedDelay))
  }

  ghost predicate DecidedBy(cfg: Config, ops: seq<Op>, k: nat, b: Breaker) {
    && FirstDecision(cfg, ops, k) && b.phase == DecidedPhase(cfg, ops, k) && b == Run(cfg, FreshHalfOpen(cfg), ops[..k])
    && (b.phase.Closed? ==> b.window == [] && b.capacity == cfg.ClosedCapacity())
    && (b.phase.Open? ==> Opening(cfg, ResultsOf(ops[..k])))
  }

  lemma {:induction false} PrefixOfFront(ops: seq<Op>, n: nat)
    requires |ops| == n + 1
    ensures forall j :: 0 <= j <= n ==> ops[..n][..j] == ops[..j]
    ensures ops[..n + 1] == ops && (forall i :: 0 <= i < n ==> ops[..n][i] == ops[i])
  {
  }

  /** One step of an undecided breaker. */
  lemma {:induction false} UndecidedStep(cfg: Config, b: Breaker, w: seq<bool>, op: Op)
    requires (CountBased(cfg) || RateBased(cfg)) && (op.Acquire? || op.Record?)
    requires b.phase.HalfOpen? && b.window == w && b.capacity == cfg.HalfOpenCapacity() && |w| < b.capacity
    ensures var b', w' := Step(cfg, b, op), if op.Record? then w + [op.success] else w;
            if op.Acquire? || !Deciding(cfg, w') then b'.phase.HalfOpen? && b'.window == w' && b'.capacity == b.capacity
            else if Closing(cfg, w') then b' == Breaker(Closed, [], cfg.ClosedCapacity())
            else Opening(cfg, w') && b'.phase == Open(op.now, DelayFor(cfg, op.computedDelay))
  {
    hide Closing, Opening, SuccessesExceeded, FailuresExceeded, TallyOf, CountBased, RateBased;
    if op.Record? {
      DecisionCounts(cfg, w + [op.success]);
    }
  }

  lemma {:induction false} UndecidedIsShort(cfg: Config, w: seq<bool>)
    requires (CountBased(cfg) || RateBased(cfg)) && cfg.HalfOpenCapacity() > 0
    requires |w| <= cfg.HalfOpenCapacity() && !Deciding(cfg, w)
    ensures |w| < cfg.HalfOpenCapacity()
  {
    hide Closing, Opening;
    DecisionCounts(cfg, w);
    UsualConfigurationsDecide(cfg);
    if |w| == cfg.HalfOpenCapacity() {
      DecisiveDecides(cfg, w);
    }
  }

  lemma {:induction false} NothingDecides(cfg: Config)
    requires (CountBased(cfg) || RateBased(cfg)) && cfg.HalfOpenCapacity() > 0
    ensures !Deciding(cfg, [])
  {
  }

  /** Over every sequence of requests and results of a fresh half-open breaker with count or rate thresholds: it stays
      half-open exactly while no results so far decide, and on the first result with which they do it closes, empty, if
      they call for closing, and else opens, at the time of that result. */
  lemma {:induction false} HalfOpenOutcome(cfg: Config, ops: seq<Op>)
    requires (CountBased(cfg) || RateBased(cfg)) && cfg.HalfOpenCapacity() > 0 && OnlyRequests(ops)
    ensures var b := UntilDecided(cfg, ops);
            if b.phase.HalfOpen?
            then && NoDecision(cfg, ops) && b == Run(cfg, FreshHalfOpen(cfg), ops)
                 && b.window == ResultsOf(ops) && b.capacity == cfg.HalfOpenCapacity() > |b.window|
            else exists k :: DecidedBy(cfg, ops, k, b)
  {
    hide Deciding, Closing, Opening, CountBased, RateBased, Step;
    if ops == [] {
      NothingDecides(cfg);
    } else {
      var n := |ops| - 1;
      var front, op := ops[..n], ops[n];
      HalfOpenOutcome(cfg, front);
      PrefixOfFront(ops, n);
      var b := UntilDecided(cfg, front);
      if b.phase.HalfOpen? {
        UndecidedStep(cfg, b, ResultsOf(front), op);
        assert ResultsOf(front) + [] == ResultsOf(front);
        assert forall j :: 0 <= j <= n ==> !Deciding(cfg, ResultsOf(front[..j]));
        if op.Acquire? || !Deciding(cfg, ResultsOf(ops)) {
          assert !Deciding(cfg, ResultsOf(front[..n]));
          UndecidedIsShort(cfg, ResultsOf(ops));
        } else {
          assert DecidedBy(cfg, ops, n + 1, UntilDecided(cfg, ops));
        }
      } else {
        var k :| DecidedBy(cfg, front, k, b);
        assert DecidedBy(cfg, ops, k, b);
      }
    }
  }

  lemma {:induction false} OutcomeAfter(w: seq<bool>, s: nat, f: nat)
    ensures Successes(w + Outcome(s, f)) == Successes(w) + s && Failures(w + Outcome(s, f)) == Failures(w) + f
    decreases s + f
  {
    var v := Outcome(s, f);
    if f > 0 {
      OutcomeAfter(w, s, f - 1);
      assert w + v == (w + Outcome(s, f - 1)) + [false];
      CountAppend(w + Outcome(s, f - 1), false, true);
      CountAppend(w + Outcome(s, f - 1), false, false);
    } else if s > 0 {
      OutcomeAfter(w, s - 1, 0);
      assert w + v == (w + Outcome(s - 1, 0)) + [true];
      CountAppend(w + Outcome(s - 1, 0), true, true);
      CountAppend(w + Outcome(s - 1, 0), true, false);
    } else {
      assert w + v == w;
    }
  }

  /** With a success threshold the breaker opens exactly when no further trials could reach it. */
  lemma {:induction false} OpensWhenOutOfReach(cfg: Config, w: seq<bool>)
    requires CountBased(cfg) && cfg.successThreshold != 0 && |w| <= cfg.HalfOpenCapacity()
    ensures Opening(cfg, w) <==>
            forall more :: |w + more| == cfg.HalfOpenCapacity() ==> Successes(w + more) < cfg.successThreshold
  {
    hide Successes, Failures, Outcome;
    SuccessesAndFailures(w);
    forall more | |w + more| == cfg.HalfOpenCapacity()
      ensures Successes(w + more) <= cfg.HalfOpenCapacity() - Failures(w)
    {
      ShorterHasFewer(w, more);
      SuccessesAndFailures(w + more);
    }
    OutcomeAfter(w, cfg.HalfOpenCapacity() - |w|, 0);
    assert |w + Outcome(cfg.HalfOpenCapacity() - |w|, 0)| == cfg.HalfOpenCapacity();
  }

  /** Without one it closes exactly when no further trials could reach the failure threshold. */
  lemma {:induction false} ClosesWhenOutOfReach(cfg: Config, w: seq<bool>)
    requires CountBased(cfg) && cfg.successThreshold == 0 && |w| <= cfg.HalfOpenCapacity()
    ensures Closing(cfg, w) <==>
            forall more :: |w + more| == cfg.HalfOpenCapacity() ==> Failures(w + more) < cfg.failureThreshold
  {
    hide Successes, Failures, Outcome;
    SuccessesAndFailures(w);
    forall more | |w + more| == cfg.HalfOpenCapacity()
      ensures Failures(w + more) <= cfg.HalfOpenCapacity() - Successes(w)
    {
      ShorterHasFewer(w, more);
      SuccessesAndFailures(w + more);
    }
    OutcomeAfter(w, 0, cfg.HalfOpenCapacity() - |w|);
    assert |w + Outcome(0, cfg.HalfOpenCapacity() - |w|)| == cfg.HalfOpenCapacity();
  }

  // ---------------------------------------------------------------- closed and open

  /** The breaker after results are recorded one by one from a fresh closed state. */
  function ClosedRun(cfg: Config, results: seq<(bool, int, int)>): Breaker {
    if results == [] then Breaker(Closed, [], cfg.ClosedCapacity())
    else
      var (success, now, d) := results[|results| - 1];
      Recorded(cfg, ClosedRun(cfg, results[..|results| - 1]), success, now, d)
  }

  function Outcomes(results: seq<(bool, int, int)>): (r: seq<bool>)
    ensures |r| == |results|
  {
    seq(|results|, i requires 0 <= i < |results| => results[i].0)
  }

  /** The last results, after the first k of them, reach the threshold. */
  ghost predicate TripsAt(cfg: Config, results: seq<(bool, int, int)>, k: nat)
    requires k <= |results|
  {
    k > 0 && ClosedTrips(cfg, TallyOf(LastN(Outcomes(results)[..k], cfg.ClosedCapacity())))
  }

  /** How long a breaker stays open: as computed, or as configured when nothing was. */
  function DelayFor(cfg: Config, computedDelay: int): int {
    if computedDelay == NO_DELAY then cfg.delay else computedDelay
  }

  /** The k-th result is the first after which the threshold is reached. */
  ghost predicate FirstTrip(cfg: Config, results: seq<(bool, int, int)>, k: nat)
    requires k <= |results|
  {
    TripsAt(cfg, results, k) && forall j :: 0 <= j < k ==> !TripsAt(cfg, results, j)
  }

  lemma {:induction false} TripsAtPrefix(cfg: Config, results: seq<(bool, int, int)>, n: nat, k: nat)
    requires k <= n <= |results|
    ensures TripsAt(cfg, results[..n], k) == TripsAt(cfg, results, k)
  {
    assert Outcomes(results[..n])[..k] == Outcomes(results)[..k];
  }

  lemma {:induction false} OutcomesAppend(results: seq<(bool, int, int)>, n: nat)
    requires |results| == n + 1
    ensures Outcomes(results) == Outcomes(results[..n]) + [results[n].0]
  {
  }

  lemma {:induction false} RecordedWindow(cfg: Config, results: seq<(bool, int, int)>)
    requires cfg.Valid()
    ensures var b := ClosedRun(cfg, results);
            && b.window == LastN(Outcomes(results), cfg.ClosedCapacity()) && b.capacity == cfg.ClosedCapacity()
            && !b.phase.HalfOpen?
  {
    hide ClosedTrips, SuccessesExceeded, FailuresExceeded, TallyOf, Outcomes;
    if results != [] {
      var n := |results| - 1;
      RecordedWindow(cfg, results[..n]);
      LastNSlides(Outcomes(results[..n]), results[n].0, cfg.ClosedCapacity());
      OutcomesAppend(results, n);
    } else {
      assert |Outcomes(results)| == 0;
    }
  }

  /** From a fresh closed state the window is the last min(n, capacity) results; the breaker stays closed while they have
      not reached the threshold after any result, and opens at the first result after which they have, at its time and
      for the delay computed for it, or the configured one when there is none.
      This is the closed state of count thresholds. The builder sets a failure rate or an execution threshold together
      with a period, and the closed state then counts in time buckets instead; for those configurations the lemma says
      what the same thresholds do over a counted window. */
  lemma {:induction false} OpensAtFirstTrip(cfg: Config, results: seq<(bool, int, int)>)
    requires cfg.Valid()
    ensures var b := ClosedRun(cfg, results);
            && b.window == LastN(Outcomes(results), cfg.ClosedCapacity())
            && (b.phase.Closed? <==> forall k :: 0 <= k <= |results| ==> !TripsAt(cfg, results, k))
            && (!b.phase.Closed? <==>
                (exists k :: 0 < k <= |results| && FirstTrip(cfg, results, k) &&
                             b.phase == Open(results[k - 1].1, DelayFor(cfg, results[k - 1].2))))
  {
    hide ClosedTrips, SuccessesExceeded, FailuresExceeded, TallyOf, LastN, Outcomes;
    RecordedWindow(cfg, results);
    if results != [] {
      var n := |results| - 1;
      var front := results[..n];
      OpensAtFirstTrip(cfg, front);
      RecordedWindow(cfg, front);
      forall k | 0 <= k <= n ensures TripsAt(cfg, results, k) == TripsAt(cfg, front, k) {
        TripsAtPrefix(cfg, results, n, k);
      }
      assert Outcomes(results)[..n + 1] == Outcomes(results);
      var b, b' := ClosedRun(cfg, front), ClosedRun(cfg, results);
      if b.phase.Closed? {
        assert TripsAt(cfg, results, n + 1) == b'.phase.Open?;
        if b'.phase.Open? {
          assert FirstTrip(cfg, results, n + 1);
        }
      } else {
        var k :| 0 < k <= n && FirstTrip(cfg, front, k) && b.phase == Open(front[k - 1].1, DelayFor(cfg, front[k - 1].2));
        assert FirstTrip(cfg, results, k);
      }
    }
  }

  /** With a failure threshold and no rate or execution threshold, reaching it means that many failures in the window. */
  lemma {:induction false} TripMeansFailures(cfg: Config, results: seq<(bool, int, int)>, k: nat)
    requires 1 <= cfg.failureThreshold <= cfg.failureThresholdingCapacity
    requires cfg.failureRateThreshold == 0.0 && cfg.failureExecutionThreshold == 0 && k <= |results|
    ensures TripsAt(cfg, results, k) <==>
            Failures(LastN(Outcomes(results)[..k], cfg.failureThresholdingCapacity)) >= cfg.failureThreshold
  {
    if k == 0 {
      assert LastN(Outcomes(results)[..0], cfg.failureThresholdingCapacity) == [];
    }
  }

  /** With a failure rate, it means enough executions in the window and a rounded share of failures at the rate or above. */
  lemma {:induction false} TripMeansRate(cfg: Config, results: seq<(bool, int, int)>, k: nat)
    requires cfg.failureRateThreshold != 0.0 && cfg.failureExecutionThreshold != 0 && 0 < k <= |results|
    ensures var w := LastN(Outcomes(results)[..k], cfg.failureExecutionThreshold);
            TripsAt(cfg, results, k) <==>
            |w| >= cfg.failureExecutionThreshold && Percent(Failures(w), |w|) as real >= 100.0 * cfg.failureRateThreshold
  {
    hide LastN, Percent, Rate;
    var w := LastN(Outcomes(results)[..k], cfg.failureExecutionThreshold);
    RateIsPercent(Failures(w), |w|);
  }

  /** An operation other than an explicit move elsewhere, at a time before the delay has elapsed. */
  predicate Early(op: Op, b: Breaker)
    requires b.phase.Open?
  {
    op.Record? || op.MoveOpen? || (op.Acquire? && op.now - b.phase.startTime < b.phase.delay)
  }

  /** Once open, the breaker stays open and grants nothing before the delay elapses, unless explicitly moved elsewhere;
      opening it again does not start the delay anew. */
  lemma {:induction false} OpenUntilDelay(cfg: Config, b: Breaker, ops: seq<Op>)
    requires b.phase.Open? && forall i :: 0 <= i < |ops| ==> Early(ops[i], b)
    ensures Run(cfg, b, ops).phase == b.phase
    ensures forall now :: now - b.phase.startTime < b.phase.delay ==> !Acquired(cfg, Run(cfg, b, ops), now).0
  {
    if ops != [] {
      OpenUntilDelay(cfg, b, ops[..|ops| - 1]);
      assert Early(ops[|ops| - 1], b);
    }
  }

  /** The first request after the delay is granted and half-opens the breaker, whatever was recorded meanwhile. */
  lemma {:induction false} FirstRequestHalfOpens(cfg: Config, b: Breaker, ops: seq<Op>, now: int)
    requires cfg.Valid() && b.phase.Open? && forall i :: 0 <= i < |ops| ==> Early(ops[i], b)
    requires now - b.phase.startTime >= b.phase.delay
    ensures Acquired(cfg, Run(cfg, b, ops), now)
         == (true, FreshHalfOpen(cfg).(phase := HalfOpen(cfg.HalfOpenCapacity() - 1)))
  {
    OpenUntilDelay(cfg, b, ops);
  }

  // ---------------------------------------------------------------- explicit moves, and requests while closed

  function FreshClosed(cfg: Config): Breaker {
    Breaker(Closed, [], cfg.ClosedCapacity())
  }

  lemma {:induction false} ClosedCapacityStays(cfg: Config, ops: seq<Op>)
    ensures var b := Run(cfg, FreshClosed(cfg), ops); b.phase.Closed? ==> b.capacity == cfg.ClosedCapacity()
  {
    hide ClosedTrips, SuccessesExceeded, FailuresExceeded, TallyOf;
    if ops != [] {
      ClosedCapacityStays(cfg, ops[..|ops| - 1]);
    }
  }

  /** Whatever a new breaker has been through, a reset makes it new again, and an explicit move takes it where it says:
      half-open and closed with nothing recorded, unless it was there already, and open with its results kept. */
  lemma {:induction false} MovesTakeEffect(cfg: Config, ops: seq<Op>, now: int, computedDelay: int)
    ensures var b := Run(cfg, FreshClosed(cfg), ops);
            && Step(cfg, b, Reset) == FreshClosed(cfg)
            && Step(cfg, b, MoveClosed) == (if b.phase.Closed? then b else FreshClosed(cfg))
            && Step(cfg, b, MoveHalfOpen) == (if b.phase.HalfOpen? then b else FreshHalfOpen(cfg))
            && Step(cfg, b, MoveOpen(now, computedDelay))
               == (if b.phase.Open? then b else b.(phase := Open(now, DelayFor(cfg, computedDelay))))
  {
    hide Run;
    ClosedCapacityStays(cfg, ops);
  }

  /** The results recorded along ops, with their times and delays. */
  function RecordsOf(ops: seq<Op>): seq<(bool, int, int)> {
    if ops == [] then []
    else
      var op := ops[|ops| - 1];
      RecordsOf(ops[..|ops| - 1]) + (if op.Record? then [(op.success, op.now, op.computedDelay)] else [])
  }

  lemma {:induction false} ClosedRunAppend(cfg: Config, results: seq<(bool, int, int)>, r: (bool, int, int))
    ensures ClosedRun(cfg, results + [r]) == Recorded(cfg, ClosedRun(cfg, results), r.0, r.1, r.2)
  {
    assert (results + [r])[..|results|] == results;
  }

  /** While its results keep a new breaker closed, it grants every request, and neither requests nor explicit closes
      change what it counts. */
  lemma {:induction false} ClosedAdmitsEverything(cfg: Config, ops: seq<Op>)
    requires cfg.Valid() && forall i :: 0 <= i < |ops| ==> ops[i].Acquire? || ops[i].Record? || ops[i].MoveClosed?
    requires ClosedRun(cfg, RecordsOf(ops)).phase.Closed?
    ensures var b := Run(cfg, FreshClosed(cfg), ops);
            b == ClosedRun(cfg, RecordsOf(ops)) && forall now :: Acquired(cfg, b, now) == (true, b)
  {
    hide ClosedTrips, SuccessesExceeded, FailuresExceeded, TallyOf, ClosedRun;
    if ops == [] {
      NothingRecorded(cfg);
    } else {
      var front, op := ops[..|ops| - 1], ops[|ops| - 1];
      RecordedWindow(cfg, RecordsOf(front));
      if op.Record? {
        ClosedRunAppend(cfg, RecordsOf(front), (op.success, op.now, op.computedDelay));
      } else {
        assert RecordsOf(front) + [] == RecordsOf(front);
      }
      ClosedAdmitsEverything(cfg, front);
    }
  }

  lemma {:induction false} NothingRecorded(cfg: Config)
    ensures ClosedRun(cfg, []) == FreshClosed(cfg)
  {
  }
}
