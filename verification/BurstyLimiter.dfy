/** The bursty rate limiter: a number of permits per period, which may go into deficit. */
module BurstyLimiter {
  import opened Prelude
  import opened Division
  import opened RateLimits

  /** availablePermits is negative in a deficit. */
  datatype Permits = Permits(available: int, period: nat)

  /** The configuration: permits per period and the length of a period. */
  datatype Config = Config(permits: nat, length: nat) {
    predicate Valid() {
      permits > 0 && length > 0
    }
  }

  /** Credits the periods that have elapsed by time t: all of them to a deficit, else a full period. */
  function Credited(cfg: Config, s: Permits, t: nat): Permits
    requires cfg.Valid()
  {
    var now := t / cfg.length;
    if s.period < now
    then Permits(if s.available < 0 then s.available + (now - s.period) * cfg.permits else cfg.permits, now)
    else s
  }

  /** How many periods ahead a deficit of d permits is covered, as the code counts them. */
  function PeriodsAhead(cfg: Config, d: nat): nat
    requires cfg.Valid() && d > 0
  {
    1 + d / cfg.permits - (if d % cfg.permits == 0 then 1 else 0)
  }

  /** The wait for n permits from the credited state s at time t. */
  function WaitFor(cfg: Config, s: Permits, t: nat, n: nat): int
    requires cfg.Valid()
  {
    if n <= s.available then 0
    else cfg.length * (s.period + PeriodsAhead(cfg, n - s.available)) - t
  }

  function AcquireBursty(cfg: Config, s: Permits, t: nat, n: nat, maxWait: int): (int, Permits)
    requires cfg.Valid()
  {
    var credited := Credited(cfg, s, t);
    var wait := WaitFor(cfg, credited, t, n);
    if n > credited.available && ExceedsMaxWaitTime(wait, maxWait) then (REJECTED, credited)
    else (wait, credited.(available := credited.available - n))
  }

  class BurstyStats {
    const periodPermits: nat
    const period: nat
    var availablePermits: int
    var currentPeriod: nat

    ghost function Abs(): Permits
      reads this
    {
      Permits(availablePermits, currentPeriod)
    }

    ghost function Cfg(): Config {
      Config(periodPermits, period)
    }

    constructor (periodPermits: nat, period: nat)
      ensures Cfg() == Config(periodPermits, period) && Abs() == Permits(periodPermits, 0)
    {
      this.periodPermits, this.period := periodPermits, period;
      availablePermits, currentPeriod := periodPermits, 0;
    }

    method AcquirePermits(currentTime: nat, requestedPermits: nat, maxWaitTime: int) returns (wait: int)
      requires Cfg().Valid()
      modifies this
      ensures (wait, Abs()) == AcquireBursty(Cfg(), old(Abs()), currentTime, requestedPermits, maxWaitTime)
    {
      var newCurrentPeriod := currentTime / period;
      if currentPeriod < newCurrentPeriod {
        var elapsedPermits := (newCurrentPeriod - currentPeriod) * periodPermits;
        currentPeriod := newCurrentPeriod;
        if availablePermits < 0 {
          availablePermits := availablePermits + elapsedPermits;
        } else {
          availablePermits := periodPermits;
        }
      }
      wait := 0;
      if requestedPermits > availablePermits {
        var nextPeriodTime := (currentPeriod + 1) * period;
        var permitDeficit := requestedPermits - availablePermits;
        var additionalPeriods := permitDeficit / periodPermits;
        var additionalUnits := permitDeficit % periodPermits;
        if additionalUnits == 0 {
          additionalPeriods := additionalPeriods - 1;
        }
        var timeToNextPeriod := nextPeriodTime - currentTime;
        wait := timeToNextPeriod + additionalPeriods * period;
        PeriodTimes(period, currentPeriod, additionalPeriods);
        if ExceedsMaxWaitTime(wait, maxWaitTime) {
          return REJECTED;
        }
      }
      availablePermits := availablePermits - requestedPermits;
    }

    method Reset()
      modifies this
      ensures Abs() == Permits(periodPermits, 0)
    {
      availablePermits := periodPermits;
      currentPeriod := 0;
    }
  }

  lemma {:induction false} PeriodTimes(length: nat, period: nat, additional: int)
    ensures (period + 1) * length + additional * length == length * (period + (1 + additional))
  {
  }

  // ---------------------------------------------------------------- the wait ends in the earliest period that covers the request

  /** The permits a credited state has by period p, counting the periods still to come. */
  function CreditBy(cfg: Config, s: Permits, p: int): int {
    s.available + cfg.permits * (p - s.period)
  }

  lemma {:induction false} PeriodsAheadIsLeast(cfg: Config, d: nat)
    requires cfg.Valid() && d > 0
    ensures PeriodsAhead(cfg, d) >= 1
    ensures cfg.permits * (PeriodsAhead(cfg, d) - 1) < d <= cfg.permits * PeriodsAhead(cfg, d)
  {
    Quotient(d, cfg.permits);
    var q := d / cfg.permits;
    if d % cfg.permits == 0 {
      assert cfg.permits * (q - 1) == cfg.permits * q - cfg.permits;
      if q == 0 {
        assert false;
      }
    }
  }

  /** The period in which n permits requested from the credited state s at time t are ready. */
  function ReadyPeriod(cfg: Config, s: Permits, n: nat): nat
    requires cfg.Valid()
  {
    if n <= s.available then s.period else s.period + PeriodsAhead(cfg, n - s.available)
  }

  lemma {:induction false} ReadyPeriodIsEarliest(cfg: Config, s: Permits, n: nat)
    requires cfg.Valid()
    ensures var p := ReadyPeriod(cfg, s, n);
            && s.period <= p && CreditBy(cfg, s, p) >= n
            && forall q :: s.period <= q < p ==> CreditBy(cfg, s, q) < n
  {
    if n > s.available {
      var d := n - s.available;
      PeriodsAheadIsLeast(cfg, d);
      var ahead := PeriodsAhead(cfg, d);
      forall q | s.period <= q < s.period + ahead ensures CreditBy(cfg, s, q) < n {
        MulMonotone(cfg.permits, q - s.period, ahead - 1);
      }
    }
  }

  /** The ready time lies in the ready period; a request that waits is ready when that period begins. */
  lemma {:induction false} ReadyInItsPeriod(cfg: Config, s: Permits, t: nat, n: nat)
    requires cfg.Valid() && s.period == t / cfg.length
    ensures var ready := t + WaitFor(cfg, s, t, n);
            && ready >= t && ready / cfg.length == ReadyPeriod(cfg, s, n)
            && (n > s.available ==> ready == cfg.length * ReadyPeriod(cfg, s, n))
  {
    if n > s.available {
      PeriodsAheadIsLeast(cfg, n - s.available);
      Quotient(t, cfg.length);
      var p := ReadyPeriod(cfg, s, n);
      MulMonotone(cfg.length, s.period + 1, p);
      QuotientOfMultiple(cfg.length, p);
    }
  }

  // ---------------------------------------------------------------- runs

  datatype Grant = Grant(permits: nat, ready: int)

  datatype State = State(permits: Permits, now: nat, grants: seq<Grant>)

  function Init(cfg: Config): State {
    State(Permits(cfg.permits, 0), 0, [])
  }

  function Step(cfg: Config, s: State, c: Call): State
    requires cfg.Valid()
  {
    var (wait, permits) := AcquireBursty(cfg, s.permits, c.t, c.permits, c.maxWait);
    State(permits, c.t, if wait == REJECTED then s.grants else s.grants + [Grant(c.permits, c.t + wait)])
  }

  function Run(cfg: Config, calls: seq<Call>): State
    requires cfg.Valid()
  {
    if calls == [] then Init(cfg) else Step(cfg, Run(cfg, calls[..|calls| - 1]), calls[|calls| - 1])
  }

  /** The clock of a run of calls never goes back. */
  predicate Chronological(calls: seq<Call>) {
    forall i, j :: 0 <= i < j < |calls| ==> calls[i].t <= calls[j].t
  }

  function Granted(grants: seq<Grant>): nat {
    if grants == [] then 0 else Granted(grants[..|grants| - 1]) + grants[|grants| - 1].permits
  }

  /** The permits granted never exceed what the periods so far have credited. */
  ghost predicate WithinCredit(cfg: Config, permits: Permits, granted: nat) {
    permits.available + granted <= cfg.permits * (permits.period + 1)
  }

  /** No grant is ready later than the current deficit is covered. */
  ghost predicate ReadyBy(cfg: Config, permits: Permits, now: nat, ready: int)
    requires cfg.Valid()
  {
    ready <= now || (permits.available < 0 && ready <= cfg.length * ReadyPeriod(cfg, permits, 0))
  }

  /** The permits that all periods up to the one holding time ready have credited. */
  function CreditAt(cfg: Config, ready: int): int
    requires cfg.Valid()
  {
    cfg.permits * (ready / cfg.length + 1)
  }

  ghost predicate Ordered(cfg: Config, grants: seq<Grant>)
    requires cfg.Valid()
  {
    && (forall i, j :: 0 <= i < j < |grants| ==> grants[i].ready <= grants[j].ready)
    && (forall i :: 0 <= i < |grants| ==>
          Granted(grants[..i + 1]) <= CreditAt(cfg, grants[i].ready))
  }

  ghost predicate Inv(cfg: Config, s: State)
    requires cfg.Valid()
  {
    && s.permits.period == s.now / cfg.length
    && WithinCredit(cfg, s.permits, Granted(s.grants))
    && Ordered(cfg, s.grants)
    && (forall i :: 0 <= i < |s.grants| ==> ReadyBy(cfg, s.permits, s.now, s.grants[i].ready))
  }

  /** Crediting elapsed periods keeps the permits within credit. */
  lemma {:induction false} CreditKeepsWithin(cfg: Config, s: Permits, t: nat, granted: nat)
    requires cfg.Valid() && WithinCredit(cfg, s, granted)
    ensures WithinCredit(cfg, Credited(cfg, s, t), granted)
  {
    var now := t / cfg.length;
    if s.period < now {
      Distribute(cfg.permits, s.period + 1, now - s.period);
      MulMonotone(cfg.permits, 1, now - s.period);
      assert (now - s.period) * cfg.permits == cfg.permits * (now - s.period);
    }
  }

  /** Crediting elapsed periods does not move the time a deficit is covered. */
  lemma {:induction false} CreditKeepsReadyBy(cfg: Config, s: Permits, now: nat, t: nat, ready: int)
    requires cfg.Valid() && s.period == now / cfg.length && now <= t && ReadyBy(cfg, s, now, ready)
    ensures ReadyBy(cfg, Credited(cfg, s, t), t, ready)
  {
    var s' := Credited(cfg, s, t);
    var p := t / cfg.length;
    if ready > now && s.period < p {
      var q := ReadyPeriod(cfg, s, 0);
      ReadyPeriodIsEarliest(cfg, s, 0);
      CreditedCreditBy(cfg, s, t, q);
      if s'.available < 0 {
        ReadyPeriodIsEarliest(cfg, s', 0);
        var q' := ReadyPeriod(cfg, s', 0);
        CreditedCreditBy(cfg, s, t, q');
        MulMonotone(cfg.length, q, q');
      } else {
        CreditedCreditBy(cfg, s, t, p);
        Quotient(t, cfg.length);
        MulMonotone(cfg.length, q, p);
      }
    }
  }

  /** From a deficit, the credit by any period is the same before and after the elapsed periods are credited. */
  lemma {:induction false} CreditedCreditBy(cfg: Config, s: Permits, t: nat, q: int)
    requires cfg.Valid() && s.available < 0 && s.period < t / cfg.length
    ensures CreditBy(cfg, Credited(cfg, s, t), q) == CreditBy(cfg, s, q)
  {
    var p := t / cfg.length;
    Distribute(cfg.permits, p - s.period, q - p);
    assert (p - s.period) * cfg.permits == cfg.permits * (p - s.period);
  }

  /** Granting n permits from a credited state: ready no earlier than any grant before, and within credit. */
  lemma {:induction false} GrantKeeps(cfg: Config, s: Permits, t: nat, n: nat, granted: nat, ready: int)
    requires cfg.Valid() && s.period == t / cfg.length
    requires WithinCredit(cfg, s, granted) && ReadyBy(cfg, s, t, ready)
    ensures var s', r := s.(available := s.available - n), t + WaitFor(cfg, s, t, n);
            && WithinCredit(cfg, s', granted + n)
            && granted + n <= CreditAt(cfg, r)
            && ready <= r && ReadyBy(cfg, s', t, r) && ReadyBy(cfg, s', t, ready)
  {
    var s', r := s.(available := s.available - n), t + WaitFor(cfg, s, t, n);
    var p := ReadyPeriod(cfg, s, n);
    ReadyInItsPeriod(cfg, s, t, n);
    ReadyPeriodIsEarliest(cfg, s, n);
    Distribute(cfg.permits, s.period + 1, p - s.period);
    if s.available < 0 {
      var q := ReadyPeriod(cfg, s, 0);
      ReadyPeriodIsEarliest(cfg, s, 0);
      assert CreditBy(cfg, s, p) >= 0;
      assert q <= p;
      MulMonotone(cfg.length, q, p);
    }
  }

  lemma {:induction false} GrantKeepsCredit(cfg: Config, s: Permits, t: nat, n: nat, granted: nat)
    requires cfg.Valid() && s.period == t / cfg.length && WithinCredit(cfg, s, granted)
    ensures var s', r := s.(available := s.available - n), t + WaitFor(cfg, s, t, n);
            WithinCredit(cfg, s', granted + n) && granted + n <= CreditAt(cfg, r) && ReadyBy(cfg, s', t, r)
  {
    GrantKeeps(cfg, s, t, n, granted, t);
  }

  lemma {:induction false} CreditedPeriod(cfg: Config, s: Permits, now: nat, t: nat)
    requires cfg.Valid() && s.period == now / cfg.length && now <= t
    ensures Credited(cfg, s, t).period == t / cfg.length
  {
    QuotientMonotone(now, t, cfg.length);
  }

  lemma {:induction false} StepKeepsInv(cfg: Config, s: State, c: Call)
    requires cfg.Valid() && Inv(cfg, s) && s.now <= c.t
    ensures Inv(cfg, Step(cfg, s, c))
  {
    hide Credited, WaitFor, ReadyBy, WithinCredit, Ordered, CreditAt;
    var permits := Credited(cfg, s.permits, c.t);
    CreditedPeriod(cfg, s.permits, s.now, c.t);
    ReadyInItsPeriod(cfg, permits, c.t, c.permits);
    CreditKeepsWithin(cfg, s.permits, c.t, Granted(s.grants));
    var (wait, _) := AcquireBursty(cfg, s.permits, c.t, c.permits, c.maxWait);
    var s' := Step(cfg, s, c);
    forall i | 0 <= i < |s.grants|
      ensures ReadyBy(cfg, permits, c.t, s.grants[i].ready)
    {
      CreditKeepsReadyBy(cfg, s.permits, s.now, c.t, s.grants[i].ready);
    }
    if wait != REJECTED {
      GrantAppends(cfg, permits, c.t, c.permits, s.grants);
    }
  }

  lemma {:induction false} GrantedAppend(grants: seq<Grant>, g: Grant)
    ensures Granted(grants + [g]) == Granted(grants) + g.permits
  {
    assert (grants + [g])[..|grants|] == grants;
  }

  lemma {:induction false} GrantAppends(cfg: Config, s: Permits, t: nat, n: nat, grants: seq<Grant>)
    requires cfg.Valid() && s.period == t / cfg.length
    requires WithinCredit(cfg, s, Granted(grants)) && Ordered(cfg, grants)
    requires forall i :: 0 <= i < |grants| ==> ReadyBy(cfg, s, t, grants[i].ready)
    ensures var s', g := s.(available := s.available - n), grants + [Grant(n, t + WaitFor(cfg, s, t, n))];
            && WithinCredit(cfg, s', Granted(g)) && Ordered(cfg, g)
            && forall i :: 0 <= i < |g| ==> ReadyBy(cfg, s', t, g[i].ready)
  {
    hide CreditAt, WaitFor, ReadyBy, WithinCredit, Granted;
    var r := t + WaitFor(cfg, s, t, n);
    var g := grants + [Grant(n, r)];
    GrantedAppend(grants, Grant(n, r));
    GrantKeepsCredit(cfg, s, t, n, Granted(grants));
    forall i | 0 <= i < |grants|
      ensures grants[i].ready <= r && ReadyBy(cfg, s.(available := s.available - n), t, grants[i].ready)
    {
      GrantKeeps(cfg, s, t, n, Granted(grants), grants[i].ready);
    }
    forall i | 0 <= i < |g|
      ensures Granted(g[..i + 1]) <= CreditAt(cfg, g[i].ready)
    {
      if i < |grants| {
        assert g[..i + 1] == grants[..i + 1];
      } else {
        assert g[..i + 1] == g;
      }
    }
  }

  lemma {:induction false} EveryRun(cfg: Config, calls: seq<Call>)
    requires cfg.Valid() && Chronological(calls)
    ensures Inv(cfg, Run(cfg, calls))
    ensures calls != [] ==> Run(cfg, calls).now == calls[|calls| - 1].t
  {
    if calls == [] {
      assert 0 / cfg.length == 0;
    } else {
      EveryRun(cfg, calls[..|calls| - 1]);
      StepKeepsInv(cfg, Run(cfg, calls[..|calls| - 1]), calls[|calls| - 1]);
    }
  }

  /** In every run without reset, over a clock that never goes back, ready times never decrease. */
  lemma {:induction false} ReadyTimesNeverDecrease(cfg: Config, calls: seq<Call>, i: nat, j: nat)
    requires cfg.Valid() && Chronological(calls) && i < j < |Run(cfg, calls).grants|
    ensures Run(cfg, calls).grants[i].ready <= Run(cfg, calls).grants[j].ready
  {
    EveryRun(cfg, calls);
  }

  /** The permits of the grants ready before time t. */
  function ReadyBefore(grants: seq<Grant>, t: int): nat {
    if grants == [] then 0
    else
      var g := grants[|grants| - 1];
      ReadyBefore(grants[..|grants| - 1], t) + (if g.ready < t then g.permits else 0)
  }

  lemma {:induction false} ReadyBeforeIsPrefix(cfg: Config, grants: seq<Grant>, t: int, bound: nat)
    requires cfg.Valid() && Ordered(cfg, grants)
    requires forall r {:trigger CreditAt(cfg, r)} :: r < t ==> CreditAt(cfg, r) <= bound
    ensures ReadyBefore(grants, t) <= bound
    ensures (forall i :: 0 <= i < |grants| ==> grants[i].ready < t) ==> ReadyBefore(grants, t) == Granted(grants)
  {
    hide CreditAt;
    if grants != [] {
      var n := |grants| - 1;
      var front := grants[..n];
      forall i | 0 <= i < n ensures Granted(front[..i + 1]) <= CreditAt(cfg, front[i].ready) {
        assert front[..i + 1] == grants[..i + 1];
      }
      ReadyBeforeIsPrefix(cfg, front, t, bound);
      assert grants[..n + 1] == grants;
    }
  }

  lemma {:induction false} CreditWithin(cfg: Config, ready: int, k: nat)
    requires cfg.Valid() && ready < cfg.length * (k + 1)
    ensures CreditAt(cfg, ready) <= cfg.permits * (k + 1)
  {
    ReachesMultiple(ready, cfg.length, k + 1);
    MulMonotone(cfg.permits, ready / cfg.length + 1, k + 1);
  }

  /** In every such run the permits ready before the end of period k total at most permits * (k + 1). */
  lemma {:induction false} CumulativeBound(cfg: Config, calls: seq<Call>, k: nat)
    requires cfg.Valid() && Chronological(calls)
    ensures ReadyBefore(Run(cfg, calls).grants, cfg.length * (k + 1)) <= cfg.permits * (k + 1)
  {
    EveryRun(cfg, calls);
    var t := cfg.length * (k + 1);
    forall r | r < t ensures CreditAt(cfg, r) <= cfg.permits * (k + 1) {
      CreditWithin(cfg, r, k);
    }
    ReadyBeforeIsPrefix(cfg, Run(cfg, calls).grants, t, cfg.permits * (k + 1));
  }

  // ---------------------------------------------------------------- a batch is its single requests

  function SinglesBursty(cfg: Config, s: Permits, t: nat, n: nat): (int, Permits)
    requires cfg.Valid() && n > 0
    decreases n
  {
    if n == 1 then AcquireBursty(cfg, s, t, 1, NO_MAX_WAIT)
    else AcquireBursty(cfg, SinglesBursty(cfg, s, t, n - 1).1, t, 1, NO_MAX_WAIT)
  }

  /** From any state and at any clock reading, one request for n permits waits as long as the last of n single
      requests and leaves the same state. */
  lemma {:induction false} BatchIsSinglesBursty(cfg: Config, s: Permits, t: nat, n: nat)
    requires cfg.Valid() && n > 0
    ensures AcquireBursty(cfg, s, t, n, NO_MAX_WAIT) == SinglesBursty(cfg, s, t, n)
    decreases n
  {
    if n > 1 {
      hide Credited, WaitFor;
      BatchIsSinglesBursty(cfg, s, t, n - 1);
      CreditedStays(cfg, s, t, n - 1);
      NextOfBatch(cfg, Credited(cfg, s, t), t, n);
    }
  }

  lemma {:induction false} CreditedStays(cfg: Config, s: Permits, t: nat, n: nat)
    requires cfg.Valid()
    ensures var s' := Credited(cfg, s, t).(available := Credited(cfg, s, t).available - n); Credited(cfg, s', t) == s'
  {
  }

  /** The last of n permits is waited for as long as all n. */
  lemma {:induction false} NextOfBatch(cfg: Config, s: Permits, t: nat, n: nat)
    requires cfg.Valid() && n > 0
    ensures WaitFor(cfg, s.(available := s.available - (n - 1)), t, 1) == WaitFor(cfg, s, t, n)
  {
  }

  /** The wait ends in the earliest period whose accumulated credit covers the request. */
  lemma {:induction false} WaitEndsInEarliestPeriod(cfg: Config, s: Permits, t: nat, n: nat)
    requires cfg.Valid() && s.period <= t / cfg.length
    ensures var credited := Credited(cfg, s, t);
            var (wait, _) := AcquireBursty(cfg, s, t, n, NO_MAX_WAIT);
            var p := (t + wait) / cfg.length;
            && wait >= 0
            && credited.period <= p && CreditBy(cfg, credited, p) >= n
            && (forall q :: credited.period <= q < p ==> CreditBy(cfg, credited, q) < n)
            && (wait > 0 ==> t + wait == cfg.length * p)
  {
    var credited := Credited(cfg, s, t);
    ReadyInItsPeriod(cfg, credited, t, n);
    ReadyPeriodIsEarliest(cfg, credited, n);
  }

  /** A maximum wait only turns requests away: exactly those that would wait longer, which take no permits though the
      elapsed periods are credited; every other request fares as it would without one. */
  lemma {:induction false} MaxWaitOnlyRejects(cfg: Config, s: Permits, t: nat, n: nat, maxWait: nat)
    requires cfg.Valid() && s.period <= t / cfg.length
    ensures var (wait, after) := AcquireBursty(cfg, s, t, n, NO_MAX_WAIT);
            AcquireBursty(cfg, s, t, n, maxWait) == if wait > maxWait then (REJECTED, Credited(cfg, s, t)) else (wait, after)
  {
    ReadyInItsPeriod(cfg, Credited(cfg, s, t), t, n);
  }

  /** A request is granted at once exactly when the credited permits cover it. */
  lemma {:induction false} NoWaitExactly(cfg: Config, s: Permits, t: nat, n: nat)
    requires cfg.Valid() && s.period <= t / cfg.length
    ensures AcquireBursty(cfg, s, t, n, NO_MAX_WAIT).0 == 0 <==> n <= Credited(cfg, s, t).available
  {
    var credited := Credited(cfg, s, t);
    ReadyInItsPeriod(cfg, credited, t, n);
    if n > credited.available {
      PeriodsAheadIsLeast(cfg, n - credited.available);
      Quotient(t, cfg.length);
      MulMonotone(cfg.length, credited.period + 1, ReadyPeriod(cfg, credited, n));
    }
  }

  /** What a later period grants at once stays within its permits exactly when there was no deficit, or the periods
      that elapsed before this one did not more than repay it. */
  lemma {:induction false} GrantedAtOnceExactly(cfg: Config, s: Permits, t: nat)
    requires cfg.Valid() && s.period < t / cfg.length
    ensures (forall n: nat :: AcquireBursty(cfg, s, t, n, NO_MAX_WAIT).0 == 0 ==> n <= cfg.permits)
            <==> s.available >= 0 || cfg.permits * (t / cfg.length - s.period - 1) <= -s.available
  {
    hide AcquireBursty;
    var granted := Credited(cfg, s, t).available;
    Distribute(cfg.permits, t / cfg.length - s.period - 1, 1);
    forall n: nat ensures AcquireBursty(cfg, s, t, n, NO_MAX_WAIT).0 == 0 <==> n <= granted {
      NoWaitExactly(cfg, s, t, n);
    }
    if granted > cfg.permits {
      assert AcquireBursty(cfg, s, t, granted, NO_MAX_WAIT).0 == 0;
    }
  }

  // ---------------------------------------------------------------- the cap on one period's permits

  /** The permits that become ready in period k. */
  function ReadyInPeriod(cfg: Config, grants: seq<Grant>, k: int): nat
    requires cfg.Valid()
  {
    if grants == [] then 0
    else
      var g := grants[|grants| - 1];
      ReadyInPeriod(cfg, grants[..|grants| - 1], k) + (if g.ready / cfg.length == k then g.permits else 0)
  }

  /** No period makes more than its own permits ready. */
  ghost predicate PeriodCap(cfg: Config, grants: seq<Grant>)
    requires cfg.Valid()
  {
    forall k :: ReadyInPeriod(cfg, grants, k) <= cfg.permits
  }

  lemma {:induction false} ReadyInPeriodAppend(cfg: Config, grants: seq<Grant>, g: Grant, k: int)
    requires cfg.Valid()
    ensures ReadyInPeriod(cfg, grants + [g], k)
         == ReadyInPeriod(cfg, grants, k) + (if g.ready / cfg.length == k then g.permits else 0)
  {
    assert (grants + [g])[..|grants|] == grants;
  }

  /** The call would wait longer than it may. */
  predicate Turned(cfg: Config, s: Permits, c: Call)
    requires cfg.Valid()
  {
    AcquireBursty(cfg, s, c.t, c.permits, c.maxWait).0 == REJECTED
  }

  /** The period in which the permits of the call are ready, unless it is turned away. */
  function PeriodOf(cfg: Config, s: Permits, c: Call): nat
    requires cfg.Valid()
  {
    ReadyPeriod(cfg, Credited(cfg, s, c.t), c.permits)
  }

  /** A call adds its permits to the period it is ready in, and to no other. */
  lemma {:induction false} StepReady(cfg: Config, s: State, c: Call, k: int)
    requires cfg.Valid() && s.permits.period <= c.t / cfg.length
    ensures ReadyInPeriod(cfg, Step(cfg, s, c).grants, k)
         == ReadyInPeriod(cfg, s.grants, k)
            + (if !Turned(cfg, s.permits, c) && PeriodOf(cfg, s.permits, c) == k then c.permits else 0)
  {
    hide ReadyInPeriod, Credited, WaitFor, ReadyPeriod;
    var credited := Credited(cfg, s.permits, c.t);
    assert credited.period == c.t / cfg.length by {
      CreditedPeriodIs(cfg, s.permits, c.t);
    }
    ReadyInItsPeriod(cfg, credited, c.t, c.permits);
    if !Turned(cfg, s.permits, c) {
      ReadyInPeriodAppend(cfg, s.grants, Grant(c.permits, c.t + WaitFor(cfg, credited, c.t, c.permits)), k);
    }
  }

  lemma {:induction false} CreditedPeriodIs(cfg: Config, s: Permits, t: nat)
    requires cfg.Valid() && s.period <= t / cfg.length
    ensures Credited(cfg, s, t).period == t / cfg.length
  {
  }

  /** The call is turned away, or its permits fit in the room left in the period they are ready in. */
  predicate Fits(cfg: Config, s: State, c: Call)
    requires cfg.Valid()
  {
    Turned(cfg, s.permits, c) || c.permits <= cfg.permits - ReadyInPeriod(cfg, s.grants, PeriodOf(cfg, s.permits, c))
  }

  lemma {:induction false} StepKeepsCap(cfg: Config, s: State, c: Call)
    requires cfg.Valid() && s.permits.period <= c.t / cfg.length
    ensures PeriodCap(cfg, Step(cfg, s, c).grants) <==> PeriodCap(cfg, s.grants) && Fits(cfg, s, c)
  {
    hide ReadyInPeriod, Step, Turned, PeriodOf;
    var s' := Step(cfg, s, c);
    forall k
      ensures ReadyInPeriod(cfg, s'.grants, k)
           == ReadyInPeriod(cfg, s.grants, k)
              + (if !Turned(cfg, s.permits, c) && PeriodOf(cfg, s.permits, c) == k then c.permits else 0)
    {
      StepReady(cfg, s, c, k);
    }
    if PeriodCap(cfg, s'.grants) {
      assert ReadyInPeriod(cfg, s'.grants, PeriodOf(cfg, s.permits, c)) <= cfg.permits;
    }
  }

  /** The clock never goes behind the period a run has reached. */
  lemma {:induction false} RunReaches(cfg: Config, calls: seq<Call>, n: nat)
    requires cfg.Valid() && |calls| == n + 1 && Chronological(calls)
    ensures Chronological(calls[..n]) && Run(cfg, calls[..n]).permits.period <= calls[n].t / cfg.length
  {
    EveryRun(cfg, calls[..n]);
    QuotientMonotone(Run(cfg, calls[..n]).now, calls[n].t, cfg.length);
  }

  /** Every call fits when it is made. */
  ghost predicate AllFit(cfg: Config, calls: seq<Call>)
    requires cfg.Valid()
  {
    forall j :: 0 <= j < |calls| ==> Fits(cfg, Run(cfg, calls[..j]), calls[j])
  }

  lemma {:induction false} AllFitFront(cfg: Config, calls: seq<Call>, n: nat)
    requires cfg.Valid() && |calls| == n + 1
    ensures AllFit(cfg, calls) <==> AllFit(cfg, calls[..n]) && Fits(cfg, Run(cfg, calls[..n]), calls[n])
  {
    hide Fits, Run;
    assert forall j :: 0 <= j < n ==> calls[..n][..j] == calls[..j] && calls[..n][j] == calls[j];
    if AllFit(cfg, calls) {
      forall j | 0 <= j < n ensures Fits(cfg, Run(cfg, calls[..n][..j]), calls[..n][j]) {
        assert Fits(cfg, Run(cfg, calls[..j]), calls[j]);
      }
    } else {
      var j :| 0 <= j < |calls| && !Fits(cfg, Run(cfg, calls[..j]), calls[j]);
      assert j < n ==> calls[..n][..j] == calls[..j];
    }
  }

  /** Over every run, with requests of any size: no period exceeds its permits if and only if every call, when it is
      made, is turned away or fits in the room left in the period it is ready in. */
  lemma {:induction false} PeriodCapExactly(cfg: Config, calls: seq<Call>)
    requires cfg.Valid() && Chronological(calls)
    ensures PeriodCap(cfg, Run(cfg, calls).grants) <==> AllFit(cfg, calls)
  {
    if calls != [] {
      hide Fits, PeriodCap, Step, AllFit, Chronological;
      var n := |calls| - 1;
      RunReaches(cfg, calls, n);
      PeriodCapExactly(cfg, calls[..n]);
      StepKeepsCap(cfg, Run(cfg, calls[..n]), calls[n]);
      AllFitFront(cfg, calls, n);
    }
  }

  /** A request that waits for a period no earlier grant is ready in fits if and only if one period's permits cover it. */
  lemma {:induction false} FreshPeriodFits(cfg: Config, s: State, c: Call)
    requires cfg.Valid() && !Turned(cfg, s.permits, c)
    requires forall i :: 0 <= i < |s.grants| ==> s.grants[i].ready / cfg.length != PeriodOf(cfg, s.permits, c)
    ensures Fits(cfg, s, c) <==> c.permits <= cfg.permits
  {
    NoneReady(cfg, s.grants, PeriodOf(cfg, s.permits, c));
  }

  lemma {:induction false} NoneReady(cfg: Config, grants: seq<Grant>, k: int)
    requires cfg.Valid() && forall i :: 0 <= i < |grants| ==> grants[i].ready / cfg.length != k
    ensures ReadyInPeriod(cfg, grants, k) == 0
  {
    if grants != [] {
      NoneReady(cfg, grants[..|grants| - 1], k);
    }
  }

  // ---------------------------------------------------------------- single permits, in terms of the limiter's own state

  predicate Single(calls: seq<Call>) {
    forall i :: 0 <= i < |calls| ==> calls[i].permits == 1
  }

  /** How far above a period's permits the credit stood when the current period was entered, given what it was before. */
  function SurplusAt(cfg: Config, s: Permits, surplus: nat, t: nat): nat
    requires cfg.Valid()
  {
    if s.period < t / cfg.length then Max(0, Credited(cfg, s, t).available - cfg.permits) else surplus
  }

  function Surplus(cfg: Config, calls: seq<Call>): nat
    requires cfg.Valid()
  {
    if calls == [] then 0
    else
      var n := |calls| - 1;
      SurplusAt(cfg, Run(cfg, calls[..n]).permits, Surplus(cfg, calls[..n]), calls[n].t)
  }

  /** The permits ready in period k, from the current one on, as single requests leave them. */
  function Load(cfg: Config, s: Permits, surplus: nat, k: int): int {
    if k == s.period then cfg.permits + surplus - Max(s.available, 0)
    else
      var owed := -s.available - cfg.permits * (k - s.period - 1);
      if owed < 0 then 0 else if owed < cfg.permits then owed else cfg.permits
  }

  /** Entering a later period leaves its load and those after it as they are. */
  lemma {:induction false} CreditKeepsLoad(cfg: Config, s: Permits, surplus: nat, t: nat, k: int)
    requires cfg.Valid() && s.period <= t / cfg.length <= k
    ensures Load(cfg, Credited(cfg, s, t), SurplusAt(cfg, s, surplus, t), k) == Load(cfg, s, surplus, k)
  {
    var p := t / cfg.length;
    if s.period < p {
      var elapsed := p - s.period;
      assert elapsed * cfg.permits == cfg.permits * elapsed;
      Distribute(cfg.permits, elapsed - 1, 1);
      Distribute(cfg.permits, elapsed, k - p - 1);
      MulMonotone(cfg.permits, 0, k - s.period - 1);
      if k > p {
        MulMonotone(cfg.permits, 0, k - p - 1);
      }
    }
  }

  /** One permit from a credited state adds one to the load of the period it is ready in. */
  lemma {:induction false} GrantAddsLoad(cfg: Config, s: Permits, surplus: nat, k: int)
    requires cfg.Valid() && s.period <= k
    ensures Load(cfg, s.(available := s.available - 1), surplus, k)
         == Load(cfg, s, surplus, k) + (if ReadyPeriod(cfg, s, 1) == k then 1 else 0)
  {
    if s.available < 1 {
      var ahead := PeriodsAhead(cfg, 1 - s.available);
      PeriodsAheadIsLeast(cfg, 1 - s.available);
      var d := k - s.period;
      Distribute(cfg.permits, d - 1, 1);
      Distribute(cfg.permits, ahead - 1, 1);
      if d < ahead {
        MulMonotone(cfg.permits, d, ahead - 1);
      } else if d > ahead {
        MulMonotone(cfg.permits, ahead, d - 1);
      }
    } else if k > s.period {
      MulMonotone(cfg.permits, 0, k - s.period - 1);
    }
  }

  ghost predicate Loaded(cfg: Config, s: State, surplus: nat)
    requires cfg.Valid()
  {
    forall k :: s.permits.period <= k ==> ReadyInPeriod(cfg, s.grants, k) == Load(cfg, s.permits, surplus, k)
  }

  lemma {:induction false} StepKeepsLoaded(cfg: Config, s: State, surplus: nat, c: Call)
    requires cfg.Valid() && c.permits == 1 && s.permits.period <= c.t / cfg.length && Loaded(cfg, s, surplus)
    ensures Loaded(cfg, Step(cfg, s, c), SurplusAt(cfg, s.permits, surplus, c.t))
  {
    hide ReadyInPeriod, Credited, WaitFor, ReadyPeriod, Load, SurplusAt;
    var credited, s' := Credited(cfg, s.permits, c.t), Step(cfg, s, c);
    CreditedPeriodIs(cfg, s.permits, c.t);
    forall k | s'.permits.period <= k
      ensures ReadyInPeriod(cfg, s'.grants, k) == Load(cfg, s'.permits, SurplusAt(cfg, s.permits, surplus, c.t), k)
    {
      StepReady(cfg, s, c, k);
      CreditKeepsLoad(cfg, s.permits, surplus, c.t, k);
      GrantAddsLoad(cfg, credited, SurplusAt(cfg, s.permits, surplus, c.t), k);
      ReadyInItsPeriod(cfg, credited, c.t, 1);
    }
  }

  /** Over every run of single requests the permits ready in each period still open follow from the limiter's state. */
  lemma {:induction false} SinglesLoad(cfg: Config, calls: seq<Call>)
    requires cfg.Valid() && Chronological(calls) && Single(calls)
    ensures Loaded(cfg, Run(cfg, calls), Surplus(cfg, calls))
  {
    if calls == [] {
      forall k: int | 0 <= k ensures 0 == Load(cfg, Init(cfg).permits, 0, k) {
        if k > 0 {
          MulMonotone(cfg.permits, 0, k - 1);
        }
      }
    } else {
      hide Loaded, Step, SurplusAt;
      var n := |calls| - 1;
      RunReaches(cfg, calls, n);
      SinglesLoad(cfg, calls[..n]);
      StepKeepsLoaded(cfg, Run(cfg, calls[..n]), Surplus(cfg, calls[..n]), calls[n]);
    }
  }

  /** A request at time t would be granted at once out of the surplus. */
  predicate SpendsSurplus(cfg: Config, calls: seq<Call>, t: nat)
    requires cfg.Valid()
  {
    var s := Run(cfg, calls).permits;
    0 < Credited(cfg, s, t).available <= SurplusAt(cfg, s, Surplus(cfg, calls), t)
  }

  /** A single request fits exactly when it does not spend the surplus. */
  lemma {:induction false} SingleFits(cfg: Config, calls: seq<Call>, c: Call)
    requires cfg.Valid() && Chronological(calls) && Single(calls) && c.permits == 1
    requires Run(cfg, calls).permits.period <= c.t / cfg.length && PeriodCap(cfg, Run(cfg, calls).grants)
    ensures Fits(cfg, Run(cfg, calls), c) <==> !SpendsSurplus(cfg, calls, c.t)
  {
    hide ReadyInPeriod, WaitFor, Run, Surplus, Chronological, Single;
    var s, surplus := Run(cfg, calls), Surplus(cfg, calls);
    var credited, now := Credited(cfg, s.permits, c.t), SurplusAt(cfg, s.permits, surplus, c.t);
    SinglesLoad(cfg, calls);
    CreditedPeriodIs(cfg, s.permits, c.t);
    var k := PeriodOf(cfg, s.permits, c);
    ReadyInItsPeriod(cfg, credited, c.t, 1);
    ReadyPeriodIsEarliest(cfg, credited, 1);
    CreditKeepsLoad(cfg, s.permits, surplus, c.t, k);
    GrantAddsLoad(cfg, credited, now, k);
    assert ReadyInPeriod(cfg, s.grants, k) == Load(cfg, credited, now, k);
    if credited.available > 0 {
      assert k == credited.period;
    } else {
      assert k > credited.period;
      assert Load(cfg, credited.(available := credited.available - 1), now, k) <= cfg.permits;
    }
  }

  /** No call is granted out of a surplus. */
  ghost predicate SurplusUnspent(cfg: Config, calls: seq<Call>)
    requires cfg.Valid()
  {
    forall j :: 0 <= j < |calls| ==> !SpendsSurplus(cfg, calls[..j], calls[j].t)
  }

  lemma {:induction false} UnspentFront(cfg: Config, calls: seq<Call>, n: nat)
    requires cfg.Valid() && |calls| == n + 1
    ensures SurplusUnspent(cfg, calls) <==> SurplusUnspent(cfg, calls[..n]) && !SpendsSurplus(cfg, calls[..n], calls[n].t)
  {
    hide SpendsSurplus;
    assert forall j :: 0 <= j < n ==> calls[..n][..j] == calls[..j] && calls[..n][j] == calls[j];
    if SurplusUnspent(cfg, calls) {
      forall j | 0 <= j < n ensures !SpendsSurplus(cfg, calls[..n][..j], calls[..n][j].t) {
        assert !SpendsSurplus(cfg, calls[..j], calls[j].t);
      }
    } else {
      var j :| 0 <= j < |calls| && SpendsSurplus(cfg, calls[..j], calls[j].t);
      assert j < n ==> calls[..n][..j] == calls[..j];
    }
  }

  /** Over every run of single requests, no period exceeds its permits if and only if no request is granted out of a
      surplus, the credit above a period's permits that a repaid deficit leaves. */
  lemma {:induction false} SinglesCapExactly(cfg: Config, calls: seq<Call>)
    requires cfg.Valid() && Chronological(calls) && Single(calls)
    ensures PeriodCap(cfg, Run(cfg, calls).grants) <==> SurplusUnspent(cfg, calls)
  {
    if calls != [] {
      hide Fits, PeriodCap, Step, SpendsSurplus, SurplusUnspent, Chronological;
      var n := |calls| - 1;
      RunReaches(cfg, calls, n);
      SinglesCapExactly(cfg, calls[..n]);
      StepKeepsCap(cfg, Run(cfg, calls[..n]), calls[n]);
      if PeriodCap(cfg, Run(cfg, calls[..n]).grants) {
        SingleFits(cfg, calls[..n], calls[n]);
      }
      UnspentFront(cfg, calls, n);
    }
  }

  /** A run of single requests that never meets a credit above a period's permits keeps the cap. */
  lemma {:induction false} WithoutSurplusCapHolds(cfg: Config, calls: seq<Call>)
    requires cfg.Valid() && Chronological(calls) && Single(calls)
    requires forall j :: 0 <= j < |calls| ==> Credited(cfg, Run(cfg, calls[..j]).permits, calls[j].t).available <= cfg.permits
    ensures PeriodCap(cfg, Run(cfg, calls).grants)
  {
    NoSurplus(cfg, calls);
    SinglesCapExactly(cfg, calls);
  }

  lemma {:induction false} NoSurplus(cfg: Config, calls: seq<Call>)
    requires cfg.Valid()
    requires forall j :: 0 <= j < |calls| ==> Credited(cfg, Run(cfg, calls[..j]).permits, calls[j].t).available <= cfg.permits
    ensures Surplus(cfg, calls) == 0 && SurplusUnspent(cfg, calls)
  {
    if calls != [] {
      hide Run, Credited, SurplusUnspent;
      var n := |calls| - 1;
      forall j | 0 <= j < n
        ensures Credited(cfg, Run(cfg, calls[..n][..j]).permits, calls[..n][j].t).available <= cfg.permits
      {
        assert calls[..n][..j] == calls[..j];
      }
      NoSurplus(cfg, calls[..n]);
      UnspentFront(cfg, calls, n);
    }
  }

  /** n single requests at time t. */
  function Burst(t: nat, n: nat): (r: seq<Call>)
    ensures |r| == n && Single(r)
  {
    seq(n, _ => Call(t, 1, NO_MAX_WAIT))
  }

  lemma {:induction false} RunBurst(cfg: Config, calls: seq<Call>, t: nat, n: nat)
    requires cfg.Valid() && Run(cfg, calls).permits.period <= t / cfg.length
    requires 0 < n < Credited(cfg, Run(cfg, calls).permits, t).available
    ensures var s, r := Run(cfg, calls).permits, calls + Burst(t, n);
            && Run(cfg, r).permits == Credited(cfg, s, t).(available := Credited(cfg, s, t).available - n)
            && Surplus(cfg, r) == SurplusAt(cfg, s, Surplus(cfg, calls), t)
  {
    hide Step, Credited, Burst, SurplusAt;
    var c, s := Call(t, 1, NO_MAX_WAIT), Run(cfg, calls);
    var r := calls + Burst(t, n);
    BurstAppend(calls, t, n - 1);
    if n == 1 {
      GrantedFromCredit(cfg, s, t);
      assert calls + Burst(t, 0) == calls;
    } else {
      var front := calls + Burst(t, n - 1);
      RunBurst(cfg, calls, t, n - 1);
      CreditedOnce(cfg, s.permits, t, n - 1);
      GrantedFromCredit(cfg, Run(cfg, front), t);
      SurplusStays(cfg, Run(cfg, front).permits, Surplus(cfg, front), t);
    }
  }

  lemma {:induction false} BurstAppend(calls: seq<Call>, t: nat, n: nat)
    ensures var r, front := calls + Burst(t, n + 1), calls + Burst(t, n);
            |r| == |front| + 1 && r[..|front|] == front && r[|front|] == Call(t, 1, NO_MAX_WAIT)
    ensures Burst(t, 0) == []
  {
  }

  /** A single request that the credit covers takes one permit of it. */
  lemma {:induction false} GrantedFromCredit(cfg: Config, s: State, t: nat)
    requires cfg.Valid() && Credited(cfg, s.permits, t).available > 0
    ensures var credited := Credited(cfg, s.permits, t);
            Step(cfg, s, Call(t, 1, NO_MAX_WAIT)).permits == credited.(available := credited.available - 1)
  {
    hide Credited;
  }

  lemma {:induction false} SurplusStays(cfg: Config, s: Permits, surplus: nat, t: nat)
    requires cfg.Valid() && s.period == t / cfg.length
    ensures SurplusAt(cfg, s, surplus, t) == surplus
  {
  }

  /** Once single requests have left a credit above a period's permits, that many requests and one more at that time
      break the cap. */
  lemma {:induction false} SurplusBreaksCap(cfg: Config, calls: seq<Call>, t: nat)
    requires cfg.Valid() && Chronological(calls) && Single(calls)
    requires calls != [] ==> calls[|calls| - 1].t <= t
    requires Credited(cfg, Run(cfg, calls).permits, t).available > cfg.permits
    ensures !PeriodCap(cfg, Run(cfg, calls + Burst(t, cfg.permits + 1)).grants)
  {
    hide Run, Credited, PeriodCap, Chronological, Single, Burst, SurplusAt, Surplus, SurplusUnspent;
    var r := calls + Burst(t, cfg.permits + 1);
    var front := calls + Burst(t, cfg.permits);
    BurstEnds(calls, t, cfg.permits);
    BurstAppend(calls, t, cfg.permits);
    TimeReaches(cfg, calls, t);
    RunBurst(cfg, calls, t, cfg.permits);
    CreditIsCovered(cfg, calls, t);
    CreditedOnce(cfg, Run(cfg, calls).permits, t, cfg.permits);
    SurplusStays(cfg, Run(cfg, front).permits, Surplus(cfg, front), t);
    assert SpendsSurplus(cfg, front, t);
    UnspentFront(cfg, r, |front|);
    SinglesCapExactly(cfg, r);
  }

  lemma {:induction false} BurstEnds(calls: seq<Call>, t: nat, n: nat)
    requires Chronological(calls) && Single(calls) && (calls != [] ==> calls[|calls| - 1].t <= t)
    ensures var r := calls + Burst(t, n + 1);
            Chronological(r) && Single(r)
  {
    var r := calls + Burst(t, n + 1);
    assert forall i :: |calls| <= i < |r| ==> r[i] == Call(t, 1, NO_MAX_WAIT);
  }

  lemma {:induction false} TimeReaches(cfg: Config, calls: seq<Call>, t: nat)
    requires cfg.Valid() && Chronological(calls) && (calls != [] ==> calls[|calls| - 1].t <= t)
    ensures Run(cfg, calls).permits.period <= t / cfg.length
  {
    EveryRun(cfg, calls);
    QuotientMonotone(Run(cfg, calls).now, t, cfg.length);
  }

  /** The credit never stands above a period's permits and the surplus. */
  lemma {:induction false} CreditIsCovered(cfg: Config, calls: seq<Call>, t: nat)
    requires cfg.Valid() && Chronological(calls) && Single(calls) && Run(cfg, calls).permits.period <= t / cfg.length
    ensures var s := Run(cfg, calls).permits;
            Credited(cfg, s, t).available <= cfg.permits + SurplusAt(cfg, s, Surplus(cfg, calls), t)
  {
    hide Run, Surplus, Chronological;
    SinglesLoad(cfg, calls);
    var s := Run(cfg, calls);
    assert ReadyInPeriod(cfg, s.grants, s.permits.period) == Load(cfg, s.permits, Surplus(cfg, calls), s.permits.period);
  }

  lemma {:induction false} CreditedOnce(cfg: Config, s: Permits, t: nat, n: nat)
    requires cfg.Valid() && s.period <= t / cfg.length
    ensures var s' := Credited(cfg, s, t).(available := Credited(cfg, s, t).available - n);
            s'.period == t / cfg.length && Credited(cfg, s', t) == s'
  {
  }

  // ---------------------------------------------------------------- the cap does fail

  /** Two single requests at time 0 against one permit per period leave a deficit of one; ten periods later its repayment
      has left a surplus, and two requests are granted at once. */
  lemma {:induction false} PeriodCapDoesNotHold()
    ensures !PeriodCap(Config(1, 10), Run(Config(1, 10), Burst(0, 2) + Burst(100, 2)).grants)
  {
    var cfg, calls := Config(1, 10), Burst(0, 2);
    assert calls[..1] == [Call(0, 1, NO_MAX_WAIT)] && calls[..1][..0] == [];
    assert Run(cfg, []) == Init(cfg);
    assert Run(cfg, calls[..1]).permits == Permits(0, 0);
    assert Run(cfg, calls).permits == Permits(-1, 0);
    SurplusBreaksCap(cfg, calls, 100);
  }

  /** Without any surplus a single large request breaks it too: five permits ready at once in the period that completes
      them. */
  lemma {:induction false} BatchBreaksCap()
    ensures !PeriodCap(Config(1, 10), Run(Config(1, 10), [Call(0, 5, NO_MAX_WAIT)]).grants)
  {
    var cfg, calls := Config(1, 10), [Call(0, 5, NO_MAX_WAIT)];
    assert calls[..0] == [];
    StepKeepsCap(cfg, Init(cfg), calls[0]);
  }
}
