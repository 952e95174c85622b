/** Retries through a stack of policies: each retry executor keeps its failure count across the retries of the
    layers around it. */
module RetryStack {
  import opened Prelude

  /** A policy layer: a retry policy, or any policy that calls the layer inside it at most once. */
  datatype Layer = Retry(maxRetries: nat) | Once

  /** What one pass through a layer meets; user functions, clocks and cancellation decide it.
      blocked: PreExecute answers in place of the inner layer; failure, aborted: the result as the policy judges it;
      tooLong: maxDuration has passed; the others say where a cancellation or the retry budget ends the loop. */
  datatype Choice = Choice(
    blocked: bool, canceled: bool, failure: bool, aborted: bool, tooLong: bool,
    canceledOnRecord: bool, canceledInDelay: bool, budgetDenied: bool)

  type World = nat -> Choice

  /** The mutable state of one execution: per layer failedAttempts and retriesExceeded, the shared counters,
      the calls of the user function, and how much of the world has been met. */
  datatype State = State(
    failed: seq<nat>, exceeded: seq<bool>, attempts: nat, retries: nat, calls: nat, tick: nat)

  function Start(stack: seq<Layer>): State {
    State(seq(|stack|, _ => 0), seq(|stack|, _ => false), 1, 0, 0, 0)
  }

  predicate Fits(stack: seq<Layer>, s: State) {
    |s.failed| == |s.exceeded| == |stack|
  }

  /** s' differs from s, layer by layer, only from layer i inwards. */
  ghost predicate SameAbove(s: State, s': State, i: nat)
    requires |s.failed| == |s.exceeded|
  {
    && |s'.failed| == |s.failed| && |s'.exceeded| == |s.exceeded|
    && forall j :: 0 <= j < i && j < |s.failed| ==> s'.failed[j] == s.failed[j] && s'.exceeded[j] == s.exceeded[j]
  }

  /** OnFailure: counts the failure and says whether retries are exceeded. */
  function Failed(s: State, i: nat, maxRetries: nat, tooLong: bool): State
    requires i < |s.failed| == |s.exceeded|
  {
    s.(failed := s.failed[i := s.failed[i] + 1],
       exceeded := s.exceeded[i := s.failed[i] + 1 > maxRetries || tooLong])
  }

  /** What layer i makes of the result of the layer inside it: the state it leaves, and whether it goes round again. */
  function Judge(stack: seq<Layer>, i: nat, s: State, w: World): (r: (State, bool))
    requires i < |stack| && stack[i].Retry? && Fits(stack, s)
    ensures SameAbove(s, r.0, i)
    ensures r.1 ==> Left(stack[i].maxRetries, r.0.failed[i]) < Left(stack[i].maxRetries, s.failed[i])
  {
    var c := w(s.tick);
    var s1 := s.(tick := s.tick + 1);
    if c.canceled || s.exceeded[i] || !c.failure then (s1, false)
    else
      var s2 := Failed(s1, i, stack[i].maxRetries, c.tooLong);
      if c.aborted || s2.exceeded[i] || c.canceledOnRecord || c.canceledInDelay then (s2, false)
      else (s2.(attempts := s2.attempts + 1, retries := s2.retries + 1), !c.budgetDenied)
  }

  /** The execution of layers i and inwards; past the last layer is the user function. */
  function Apply(stack: seq<Layer>, i: nat, s: State, w: World): (r: State)
    requires i <= |stack| && Fits(stack, s)
    ensures SameAbove(s, r, i)
    decreases |stack| - i, 1, 0
  {
    if i == |stack| then s.(calls := s.calls + 1)
    else
      match stack[i]
      case Once =>
        var s1 := s.(tick := s.tick + 1);
        if w(s.tick).blocked then s1 else Apply(stack, i + 1, s1, w)
      case Retry(m) => Loop(stack, i, s, w)
  }

  /** The retry loop of layer i. */
  function Loop(stack: seq<Layer>, i: nat, s: State, w: World): (r: State)
    requires i < |stack| && stack[i].Retry? && Fits(stack, s)
    ensures SameAbove(s, r, i)
    decreases |stack| - i, 0, Left(stack[i].maxRetries, s.failed[i])
  {
    var (s', more) := Judge(stack, i, Apply(stack, i + 1, s, w), w);
    if more then Loop(stack, i, s', w) else s'
  }

  function Left(maxRetries: nat, failed: nat): nat {
    if failed > maxRetries then 0 else maxRetries + 1 - failed
  }

  class Execution {
    const stack: seq<Layer>
    var failedAttempts: seq<nat>
    var retriesExceeded: seq<bool>
    var attempts: nat
    var retries: nat
    var calls: nat
    var tick: nat

    ghost function Abs(): State
      reads this
    {
      State(failedAttempts, retriesExceeded, attempts, retries, calls, tick)
    }

    /** The retries layer i may still make. */
    ghost function RetriesLeftOf(i: nat): nat
      requires i < |stack| && Fits(stack, Abs())
      reads this
    {
      RetriesLeft(stack[i], failedAttempts[i], retriesExceeded[i])
    }

    constructor (stack: seq<Layer>)
      ensures this.stack == stack && Abs() == Start(stack)
    {
      this.stack := stack;
      failedAttempts, retriesExceeded := seq(|stack|, _ => 0), seq(|stack|, _ => false);
      attempts, retries, calls, tick := 1, 0, 0, 0;
    }

    /** The function composed for layers i and inwards. */
    method ApplyLayer(i: nat, w: World)
      requires i <= |stack| && Fits(stack, Abs())
      modifies this
      ensures Abs() == Apply(stack, i, old(Abs()), w)
      decreases |stack| - i, 1
    {
      if i == |stack| {
        calls := calls + 1;
      } else if stack[i].Once? {
        var choice := w(tick);
        tick := tick + 1;
        if !choice.blocked {
          ApplyLayer(i + 1, w);
        }
      } else {
        RetryLayer(i, w);
      }
    }

    /** The retry executor's loop. */
    method RetryLayer(i: nat, w: World)
      requires i < |stack| && stack[i].Retry? && Fits(stack, Abs())
      modifies this
      ensures Abs() == Loop(stack, i, old(Abs()), w)
      decreases |stack| - i, 0
    {
      hide Judge;
      var more := true;
      while more
        invariant Fits(stack, Abs())
        invariant (if more then Loop(stack, i, Abs(), w) else Abs()) == Loop(stack, i, old(Abs()), w)
        decreases more, Left(stack[i].maxRetries, if |failedAttempts| == |stack| then failedAttempts[i] else 0)
      {
        ApplyLayer(i + 1, w);
        more := JudgeResult(i, w);
      }
    }

    /** The part of the loop that follows the inner call. */
    method JudgeResult(i: nat, w: World) returns (more: bool)
      requires i < |stack| && stack[i].Retry? && Fits(stack, Abs())
      modifies this
      ensures (Abs(), more) == Judge(stack, i, old(Abs()), w)
    {
      var c := w(tick);
      tick := tick + 1;
      if c.canceled || retriesExceeded[i] || !c.failure {
        return false;
      }
      OnFailure(i, c.tooLong);
      if c.aborted || retriesExceeded[i] || c.canceledOnRecord || c.canceledInDelay {
        return false;
      }
      attempts := attempts + 1;
      retries := retries + 1;
      more := !c.budgetDenied;
    }

    /** A failure costs layer i one of its retries, all of them when it took too long, and no other layer anything. */
    method OnFailure(i: nat, tooLong: bool)
      requires i < |stack| && stack[i].Retry? && Fits(stack, Abs())
      modifies this
      ensures Abs() == Failed(old(Abs()), i, stack[i].maxRetries, tooLong)
      ensures !tooLong && !old(retriesExceeded[i]) ==> RetriesLeftOf(i) == Max(0, old(RetriesLeftOf(i)) - 1)
      ensures tooLong ==> RetriesLeftOf(i) == 0
      ensures forall j :: 0 <= j < |stack| && j != i ==> RetriesLeftOf(j) == old(RetriesLeftOf(j))
      ensures retriesExceeded[i] <==> tooLong || Left(stack[i].maxRetries, failedAttempts[i]) == 0
    {
      var failures := failedAttempts[i] + 1;
      failedAttempts := failedAttempts[i := failures];
      retriesExceeded := retriesExceeded[i := failures > stack[i].maxRetries || tooLong];
    }
  }

  // ---------------------------------------------------------------- the retries still to come

  /** The retries a layer may still make. */
  function RetriesLeft(layer: Layer, failed: nat, exceeded: bool): nat {
    if layer.Once? || exceeded || failed > layer.maxRetries then 0 else layer.maxRetries - failed
  }

  function RetriesLeftFrom(stack: seq<Layer>, s: State, i: nat): nat
    requires i <= |stack| && Fits(stack, s)
    decreases |stack| - i
  {
    if i == |stack| then 0
    else RetriesLeft(stack[i], s.failed[i], s.exceeded[i]) + RetriesLeftFrom(stack, s, i + 1)
  }

  /** Only the layers' own state matters. */
  lemma {:induction false} RetriesLeftFrame(stack: seq<Layer>, s: State, s': State, i: nat)
    requires i <= |stack| && Fits(stack, s) && Fits(stack, s')
    requires forall j :: i <= j < |stack| ==> s'.failed[j] == s.failed[j] && s'.exceeded[j] == s.exceeded[j]
    ensures RetriesLeftFrom(stack, s', i) == RetriesLeftFrom(stack, s, i)
    decreases |stack| - i
  {
    if i < |stack| {
      RetriesLeftFrame(stack, s, s', i + 1);
    }
  }

  /** Whatever happens, each user call beyond the first is paid for by an attempt, and each attempt by a retry left. */
  ghost predicate Paid(stack: seq<Layer>, s: State, r: State, i: nat)
    requires i <= |stack| && Fits(stack, s) && Fits(stack, r)
  {
    && s.calls <= r.calls <= s.calls + 1 + (r.attempts - s.attempts)
    && s.attempts <= r.attempts
    && r.attempts + RetriesLeftFrom(stack, r, i) <= s.attempts + RetriesLeftFrom(stack, s, i)
    && r.retries - s.retries == r.attempts - s.attempts
  }

  lemma {:induction false} ApplyPaid(stack: seq<Layer>, i: nat, s: State, w: World)
    requires i <= |stack| && Fits(stack, s)
    ensures Paid(stack, s, Apply(stack, i, s, w), i)
    decreases |stack| - i, 1, 0
  {
    if i == |stack| {
    } else if stack[i].Once? {
      var s1 := s.(tick := s.tick + 1);
      RetriesLeftFrame(stack, s, s1, i + 1);
      if !w(s.tick).blocked {
        ApplyPaid(stack, i + 1, s1, w);
      }
    } else {
      LoopPaid(stack, i, s, w);
    }
  }

  /** Going round again turns a retry left into an attempt; stopping makes neither. */
  lemma {:induction false} JudgePaid(stack: seq<Layer>, i: nat, s: State, w: World)
    requires i < |stack| && stack[i].Retry? && Fits(stack, s)
    ensures var (r, more) := Judge(stack, i, s, w);
            && r.calls == s.calls && r.retries - s.retries == r.attempts - s.attempts
            && (if more then r.attempts == s.attempts + 1 else s.attempts <= r.attempts)
            && r.attempts + RetriesLeftFrom(stack, r, i) <= s.attempts + RetriesLeftFrom(stack, s, i)
  {
    var (r, more) := Judge(stack, i, s, w);
    RetriesLeftFrame(stack, s, r, i + 1);
  }

  lemma {:induction false} LoopPaid(stack: seq<Layer>, i: nat, s: State, w: World)
    requires i < |stack| && stack[i].Retry? && Fits(stack, s)
    ensures Paid(stack, s, Loop(stack, i, s, w), i)
    decreases |stack| - i, 0, Left(stack[i].maxRetries, s.failed[i])
  {
    hide Judge, RetriesLeft;
    ApplyPaid(stack, i + 1, s, w);
    var s1 := Apply(stack, i + 1, s, w);
    JudgePaid(stack, i, s1, w);
    var (s', more) := Judge(stack, i, s1, w);
    if more {
      LoopPaid(stack, i, s', w);
    }
  }

  // ---------------------------------------------------------------- the bound

  function TotalRetries(stack: seq<Layer>): nat {
    if stack == [] then 0 else (if stack[0].Retry? then stack[0].maxRetries else 0) + TotalRetries(stack[1..])
  }

  lemma {:induction false} StartRetriesLeft(stack: seq<Layer>, i: nat)
    requires i <= |stack|
    ensures RetriesLeftFrom(stack, Start(stack), i) == TotalRetries(stack[i..])
    decreases |stack| - i
  {
    if i < |stack| {
      StartRetriesLeft(stack, i + 1);
      assert stack[i..][1..] == stack[i + 1..];
    }
  }

  /** Through any stack of policies and whatever happens, the user function is called at most once more than all the
      retry limits together, and never more often than attempts are counted. */
  lemma {:induction false} CallBound(stack: seq<Layer>, w: World)
    ensures var r := Apply(stack, 0, Start(stack), w);
            r.calls <= r.attempts && r.attempts == 1 + r.retries && r.attempts <= 1 + TotalRetries(stack)
  {
    ApplyPaid(stack, 0, Start(stack), w);
    StartRetriesLeft(stack, 0);
    assert stack[0..] == stack;
  }

  /** Every outcome is a failure at every layer, and nothing aborts, blocks, times out or is canceled. */
  ghost predicate Hopeless(w: World) {
    forall k :: w(k) == Choice(false, false, true, false, false, false, false, false)
  }

  /** A layer that has not exceeded its retries has failures left to spend. */
  ghost predicate Sane(stack: seq<Layer>, s: State)
    requires Fits(stack, s)
  {
    forall j :: 0 <= j < |stack| && stack[j].Retry? && !s.exceeded[j] ==> s.failed[j] <= stack[j].maxRetries
  }

  /** With no hope every retry left is spent, one call each, besides the call that was asked for. */
  ghost predicate Spent(stack: seq<Layer>, s: State, r: State, i: nat)
    requires i <= |stack| && Fits(stack, s) && Fits(stack, r)
  {
    && Sane(stack, r) && RetriesLeftFrom(stack, r, i) == 0
    && r.calls == s.calls + 1 + RetriesLeftFrom(stack, s, i)
  }

  lemma {:induction false} ApplySpent(stack: seq<Layer>, i: nat, s: State, w: World)
    requires i <= |stack| && Fits(stack, s) && Sane(stack, s) && Hopeless(w)
    ensures Spent(stack, s, Apply(stack, i, s, w), i)
    decreases |stack| - i, 1, 0
  {
    if i == |stack| {
    } else if stack[i].Once? {
      var s1 := s.(tick := s.tick + 1);
      RetriesLeftFrame(stack, s, s1, i + 1);
      ApplySpent(stack, i + 1, s1, w);
    } else {
      LoopSpent(stack, i, s, w);
    }
  }

  lemma {:induction false} JudgeSpent(stack: seq<Layer>, i: nat, s: State, w: World)
    requires i < |stack| && stack[i].Retry? && Fits(stack, s) && Sane(stack, s) && Hopeless(w)
    ensures var (r, more) := Judge(stack, i, s, w);
            && Sane(stack, r) && r.calls == s.calls
            && RetriesLeftFrom(stack, r, i + 1) == RetriesLeftFrom(stack, s, i + 1)
            && var before, after := RetriesLeft(stack[i], s.failed[i], s.exceeded[i]), RetriesLeft(stack[i], r.failed[i], r.exceeded[i]);
               if more then before == after + 1 else before == 0 && after == 0
  {
    var (r, more) := Judge(stack, i, s, w);
    assert w(s.tick) == Choice(false, false, true, false, false, false, false, false);
    RetriesLeftFrame(stack, s, r, i + 1);
  }

  lemma {:induction false} LoopSpent(stack: seq<Layer>, i: nat, s: State, w: World)
    requires i < |stack| && stack[i].Retry? && Fits(stack, s) && Sane(stack, s) && Hopeless(w)
    ensures Spent(stack, s, Loop(stack, i, s, w), i)
    decreases |stack| - i, 0, Left(stack[i].maxRetries, s.failed[i])
  {
    hide Judge, RetriesLeft, Hopeless, Sane;
    ApplySpent(stack, i + 1, s, w);
    var s1 := Apply(stack, i + 1, s, w);
    JudgeSpent(stack, i, s1, w);
    var (s', more) := Judge(stack, i, s1, w);
    if more {
      LoopSpent(stack, i, s', w);
    }
  }

  /** The bound is reached: when every layer treats every outcome as a failure and nothing aborts or times out, the
      user function is called exactly once more than all the retry limits together. */
  lemma {:induction false} CallBoundIsReached(stack: seq<Layer>, w: World)
    requires Hopeless(w)
    ensures Apply(stack, 0, Start(stack), w).calls == 1 + TotalRetries(stack)
  {
    ApplySpent(stack, 0, Start(stack), w);
    StartRetriesLeft(stack, 0);
    assert stack[0..] == stack;
  }

  // ---------------------------------------------------------------- what makes a layer go round again

  /** A result that its policy retries, if it has retries left: a failure that does not abort, not past the maximum
      duration, and with no cancellation up to the end of the delay. */
  predicate Retried(c: Choice) {
    c.failure && !c.aborted && !c.tooLong && !c.canceled && !c.canceledOnRecord && !c.canceledInDelay
  }

  /** And that the budget lets through, so that the function is called again. */
  predicate CalledAgain(c: Choice) {
    Retried(c) && !c.budgetDenied
  }

  function RetriedIn(w: World, from: nat, to: nat): nat {
    if to <= from then 0 else RetriedIn(w, from, to - 1) + (if Retried(w(to - 1)) then 1 else 0)
  }

  function CalledAgainIn(w: World, from: nat, to: nat): nat {
    if to <= from then 0 else CalledAgainIn(w, from, to - 1) + (if CalledAgain(w(to - 1)) then 1 else 0)
  }

  lemma {:induction false} CountsSplit(w: World, from: nat, mid: nat, to: nat)
    requires from <= mid <= to
    ensures RetriedIn(w, from, to) == RetriedIn(w, from, mid) + RetriedIn(w, mid, to)
    ensures CalledAgainIn(w, from, to) == CalledAgainIn(w, from, mid) + CalledAgainIn(w, mid, to)
  {
    if mid < to {
      CountsSplit(w, from, mid, to - 1);
    }
  }

  predicate AllRetry(stack: seq<Layer>) {
    forall j :: 0 <= j < |stack| ==> stack[j].Retry?
  }

  /** From layer i inwards no layer has run out of retries. */
  predicate NoneExceeded(s: State, i: nat) {
    forall j :: i <= j < |s.exceeded| ==> !s.exceeded[j]
  }

  /** Between s and r every retry and every further call answers to a result that calls for it; and where only retry
      policies are stacked and none of them has run out, every such result has its retry and its call. */
  ghost predicate Justified(stack: seq<Layer>, s: State, r: State, w: World, i: nat, called: int) {
    && s.tick <= r.tick && |s.exceeded| == |r.exceeded| == |stack|
    && (forall j :: 0 <= j < |stack| && s.exceeded[j] ==> r.exceeded[j])
    && r.retries - s.retries <= RetriedIn(w, s.tick, r.tick)
    && r.calls - s.calls <= called + CalledAgainIn(w, s.tick, r.tick)
    && (AllRetry(stack) && NoneExceeded(r, i) ==>
          && r.retries - s.retries == RetriedIn(w, s.tick, r.tick)
          && r.calls - s.calls == called + CalledAgainIn(w, s.tick, r.tick))
  }

  lemma {:induction false} JustifiedThen(stack: seq<Layer>, s: State, m: State, r: State, w: World, i: nat, i': nat, a: int, b: int)
    requires i <= i' && Justified(stack, s, m, w, i', a) && Justified(stack, m, r, w, i, b)
    ensures Justified(stack, s, r, w, i, a + b)
  {
    hide RetriedIn, CalledAgainIn;
    CountsSplit(w, s.tick, m.tick, r.tick);
    if NoneExceeded(r, i) {
      assert forall j :: i' <= j < |stack| && m.exceeded[j] ==> r.exceeded[j];
    }
  }

  /** One judgement: it accounts for a call to come exactly when the layer goes round. */
  lemma {:induction false} JudgeJustified(stack: seq<Layer>, i: nat, s: State, w: World)
    requires i < |stack| && stack[i].Retry? && Fits(stack, s)
    ensures var (r, more) := Judge(stack, i, s, w); Justified(stack, s, r, w, i, if more then -1 else 0)
  {
    var (r, more) := Judge(stack, i, s, w);
    assert RetriedIn(w, s.tick, s.tick) == 0 && CalledAgainIn(w, s.tick, s.tick) == 0;
    assert forall j :: 0 <= j < |stack| && j != i ==> r.exceeded[j] == s.exceeded[j];
    assert !r.exceeded[i] ==> !s.exceeded[i];
  }

  lemma {:induction false} ApplyJustified(stack: seq<Layer>, i: nat, s: State, w: World)
    requires i <= |stack| && Fits(stack, s)
    ensures Justified(stack, s, Apply(stack, i, s, w), w, i, 1)
    decreases |stack| - i, 1, 0
  {
    if i < |stack| && stack[i].Once? {
      var s1 := s.(tick := s.tick + 1);
      OnceJustified(stack, s, s1, w, i);
      if !w(s.tick).blocked {
        ApplyJustified(stack, i + 1, s1, w);
        OnceThen(stack, s, s1, Apply(stack, i + 1, s1, w), w, i);
      }
    } else if i < |stack| {
      LoopJustified(stack, i, s, w);
    }
  }

  lemma {:induction false} OnceJustified(stack: seq<Layer>, s: State, s1: State, w: World, i: nat)
    requires i < |stack| && stack[i].Once? && Fits(stack, s) && s1 == s.(tick := s.tick + 1)
    ensures Justified(stack, s, s1, w, i, 1) && !AllRetry(stack)
  {
  }

  lemma {:induction false} OnceThen(stack: seq<Layer>, s: State, s1: State, r: State, w: World, i: nat)
    requires Fits(stack, s) && s1 == s.(tick := s.tick + 1) && Justified(stack, s1, r, w, i + 1, 1) && !AllRetry(stack)
    ensures Justified(stack, s, r, w, i, 1)
  {
    CountsSplit(w, s.tick, s1.tick, r.tick);
  }

  lemma {:induction false} LoopJustified(stack: seq<Layer>, i: nat, s: State, w: World)
    requires i < |stack| && stack[i].Retry? && Fits(stack, s)
    ensures Justified(stack, s, Loop(stack, i, s, w), w, i, 1)
    decreases |stack| - i, 0, Left(stack[i].maxRetries, s.failed[i])
  {
    hide Judge, Justified;
    ApplyJustified(stack, i + 1, s, w);
    var s1 := Apply(stack, i + 1, s, w);
    JudgeJustified(stack, i, s1, w);
    var (s', more) := Judge(stack, i, s1, w);
    JustifiedThen(stack, s, s1, s', w, i, i + 1, 1, if more then -1 else 0);
    if more {
      LoopJustified(stack, i, s', w);
      JustifiedThen(stack, s, s', Loop(stack, i, s', w), w, i, i, 0, 1);
    }
  }

  /** Through any stack and in any world: every retry answers to a failure that is retried, and every call after the first
      to one that the budget lets through. Where only retry policies are stacked and none runs out, each such result has
      its retry and its call. */
  lemma {:induction false} EveryRetryIsCalledFor(stack: seq<Layer>, w: World)
    ensures var r := Apply(stack, 0, Start(stack), w);
            && r.retries <= RetriedIn(w, 0, r.tick) && r.calls <= 1 + CalledAgainIn(w, 0, r.tick)
            && (AllRetry(stack) && NoneExceeded(r, 0) ==>
                  r.retries == RetriedIn(w, 0, r.tick) && r.calls == 1 + CalledAgainIn(w, 0, r.tick))
  {
    hide RetriedIn, CalledAgainIn, Apply;
    ApplyJustified(stack, 0, Start(stack), w);
  }

  // ---------------------------------------------------------------- worlds without failures, and blocked ones

  /** Nothing fails at any layer, and no layer answers in place of the one inside it. */
  ghost predicate Flawless(w: World) {
    forall k :: !w(k).failure && !w(k).blocked
  }

  lemma {:induction false} ApplyFlawless(stack: seq<Layer>, i: nat, s: State, w: World)
    requires i <= |stack| && Fits(stack, s) && Flawless(w)
    ensures var r := Apply(stack, i, s, w); r == s.(calls := s.calls + 1, tick := r.tick)
    decreases |stack| - i
  {
    if i < |stack| {
      var s1 := if stack[i].Once? then s.(tick := s.tick + 1) else s;
      ApplyFlawless(stack, i + 1, s1, w);
      assert !w(s.tick).blocked;
      assert !w(Apply(stack, i + 1, s1, w).tick).failure;
    }
  }

  /** A success ends every retry loop: with no failures the function is called once and nothing is retried. */
  lemma {:induction false} SuccessIsNotRetried(stack: seq<Layer>, w: World)
    requires Flawless(w)
    ensures var r := Apply(stack, 0, Start(stack), w);
            && r.calls == 1 && r.attempts == 1 && r.retries == 0
            && forall j :: 0 <= j < |stack| ==> r.failed[j] == 0 && !r.exceeded[j]
  {
    ApplyFlawless(stack, 0, Start(stack), w);
  }

  lemma {:induction false} ApplyBlocked(stack: seq<Layer>, i: nat, s: State, w: World)
    requires i < |stack| && Fits(stack, s) && (forall k :: w(k).blocked) && (exists j :: i <= j < |stack| && stack[j].Once?)
    ensures Apply(stack, i, s, w).calls == s.calls
    decreases |stack| - i, 1, 0
  {
    if stack[i].Once? {
      assert w(s.tick).blocked;
    } else {
      LoopBlocked(stack, i, s, w);
    }
  }

  lemma {:induction false} LoopBlocked(stack: seq<Layer>, i: nat, s: State, w: World)
    requires i < |stack| && stack[i].Retry? && Fits(stack, s)
    requires (forall k :: w(k).blocked) && exists j :: i < j < |stack| && stack[j].Once?
    ensures Loop(stack, i, s, w).calls == s.calls
    decreases |stack| - i, 0, Left(stack[i].maxRetries, s.failed[i])
  {
    ApplyBlocked(stack, i + 1, s, w);
    var (s', more) := Judge(stack, i, Apply(stack, i + 1, s, w), w);
    if more {
      LoopBlocked(stack, i, s', w);
    }
  }

  /** A policy that answers in place of the layer inside it keeps the function from being called, however often the
      layers around it retry. */
  lemma {:induction false} BlockedCallsNothing(stack: seq<Layer>, w: World)
    requires (forall k :: w(k).blocked) && exists j :: 0 <= j < |stack| && stack[j].Once?
    ensures Apply(stack, 0, Start(stack), w).calls == 0
  {
    ApplyBlocked(stack, 0, Start(stack), w);
  }

  // ---------------------------------------------------------------- one retry policy, in every world

  /** The state of a lone policy with limit m after its k-th call from s ends the loop on choice c. */
  function Ended(m: nat, s: State, k: nat, c: Choice): State
    requires |s.failed| == 1 && k >= 1
  {
    var f, counted := s.failed[0], c.failure && !c.canceled;
    var retries := k - 1 + (if Retried(c) && f + k <= m then 1 else 0);
    State([f + k - 1 + (if counted then 1 else 0)], [counted && (f + k > m || c.tooLong)],
          s.attempts + retries, s.retries + retries, s.calls + k, s.tick + k)
  }

  /** One turn of its loop. */
  lemma {:induction false} LoneTurn(m: nat, s: State, w: World)
    requires Fits([Retry(m)], s) && !s.exceeded[0] && s.failed[0] <= m
    ensures var c, (s', more) := w(s.tick), Judge([Retry(m)], 0, Apply([Retry(m)], 1, s, w), w);
            && more == (CalledAgain(c) && s.failed[0] < m)
            && s' == if more then State([s.failed[0] + 1], [false], s.attempts + 1, s.retries + 1, s.calls + 1, s.tick + 1)
                     else Ended(m, s, 1, c)
  {
    assert s.failed == [s.failed[0]] && s.exceeded == [false];
  }

  lemma {:induction false} LoneLoop(m: nat, s: State, w: World, k: nat)
    requires Fits([Retry(m)], s) && !s.exceeded[0] && s.failed[0] <= m && 1 <= k <= m + 1 - s.failed[0]
    requires forall t :: s.tick <= t < s.tick + k - 1 ==> CalledAgain(w(t))
    requires k == m + 1 - s.failed[0] || !CalledAgain(w(s.tick + k - 1))
    ensures Loop([Retry(m)], 0, s, w) == Ended(m, s, k, w(s.tick + k - 1))
    decreases k
  {
    hide Judge, CalledAgain;
    LoneTurn(m, s, w);
    var (s', more) := Judge([Retry(m)], 0, Apply([Retry(m)], 1, s, w), w);
    if k > 1 {
      assert CalledAgain(w(s.tick));
      LoneLoop(m, s', w, k - 1);
    }
  }

  /** A lone retry policy with limit m, in any world: it makes exactly k calls, where the k-th result is the first that is
      not retried or is let down by the budget, or k is m + 1; and what it counts follows from that result. */
  lemma {:induction false} LoneRetryCalls(m: nat, w: World, k: nat)
    requires 1 <= k <= m + 1 && forall t :: 0 <= t < k - 1 ==> CalledAgain(w(t))
    requires k == m + 1 || !CalledAgain(w(k - 1))
    ensures var r, c := Apply([Retry(m)], 0, Start([Retry(m)]), w), w(k - 1);
            && r.calls == k && r.attempts == 1 + r.retries
            && r.retries == k - 1 + (if Retried(c) && k <= m then 1 else 0)
            && r.failed == [k - 1 + (if c.failure && !c.canceled then 1 else 0)]
            && r.exceeded == [c.failure && !c.canceled && (k == m + 1 || c.tooLong)]
  {
    LoneLoop(m, Start([Retry(m)]), w, k);
  }
}
