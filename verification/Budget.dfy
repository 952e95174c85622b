/** Sums of what each process contributes to shared atomic counters. */
module Contributions {

  function Sum<T>(procs: seq<T>, f: T -> int): int {
    if procs == [] then 0 else Sum(procs[..|procs| - 1], f) + f(procs[|procs| - 1])
  }

  lemma {:induction false} SumUpdate<T>(procs: seq<T>, i: nat, p: T, f: T -> int)
    requires i < |procs|
    ensures Sum(procs[i := p], f) == Sum(procs, f) - f(procs[i]) + f(p)
  {
    var n := |procs| - 1;
    if i < n {
      SumUpdate(procs[..n], i, p, f);
      assert procs[i := p][..n] == procs[..n][i := p];
    } else {
      assert procs[i := p][..n] == procs[..n];
    }
  }

  lemma {:induction false} SumAppend<T>(procs: seq<T>, p: T, f: T -> int)
    ensures Sum(procs + [p], f) == Sum(procs, f) + f(p)
  {
    assert (procs + [p])[..|procs|] == procs;
  }

  lemma {:induction false} SumOrder<T>(procs: seq<T>, f: T -> int, g: T -> int)
    requires forall i :: 0 <= i < |procs| ==> 0 <= f(procs[i]) <= g(procs[i])
    ensures 0 <= Sum(procs, f) <= Sum(procs, g)
  {
    if procs != [] {
      SumOrder(procs[..|procs| - 1], f, g);
    }
  }
}

/** The retry and hedge budget: two atomic counters shared by any number of executions. */
module Budgets {
  import opened Contributions

  // ---------------------------------------------------------------- interleavings of atomic operations

  /** A retry or hedge execution, or a hedge attempt it has handed a permit to, between two atomic operations.
      Retrying holds its own permit; a hedging execution passes each permit to the attempt it starts. */
  datatype Proc =
    | Idle                    // has not recorded itself
    | Active                  // recorded, no permit
    | Acquiring(hedge: bool)  // inflight raised, executions not yet
    | Retrying                // holds a permit while the retry runs
    | Giving                  // inflight lowered, executions not yet
    | Attempt                 // a hedge attempt with a permit
    | Ending                  // a hedge attempt: inflight lowered, executions not yet
    | Finished

  datatype State = State(executions: int, inflight: int, procs: seq<Proc>)

  datatype Op =
    | Arrive                     // another execution uses the budget
    | Begin(i: nat)              // RecordExecution
    | Acquire(i: nat, hedge: bool)   // TryAcquirePermit granted: first increment
    | Acquired(i: nat)           // second increment; a hedge starts its attempt
    | Lower(i: nat)              // ReleasePermit: first decrement
    | Lowered(i: nat)            // second decrement
    | Leave(i: nat)              // ReleaseExecution

  predicate Enabled(s: State, op: Op) {
    match op
    case Arrive => true
    case Begin(i) => i < |s.procs| && s.procs[i] == Idle
    case Acquire(i, _) => i < |s.procs| && s.procs[i] == Active
    case Acquired(i) => i < |s.procs| && s.procs[i].Acquiring?
    case Lower(i) => i < |s.procs| && (s.procs[i] == Retrying || s.procs[i] == Attempt)
    case Lowered(i) => i < |s.procs| && (s.procs[i] == Giving || s.procs[i] == Ending)
    case Leave(i) => i < |s.procs| && s.procs[i] == Active
  }

  function Step(s: State, op: Op): State
    requires Enabled(s, op)
  {
    match op
    case Arrive => s.(procs := s.procs + [Idle])
    case Begin(i) => s.(executions := s.executions + 1, procs := s.procs[i := Active])
    case Acquire(i, hedge) => s.(inflight := s.inflight + 1, procs := s.procs[i := Acquiring(hedge)])
    case Acquired(i) =>
      State(s.executions + 1, s.inflight,
            if s.procs[i].hedge then s.procs[i := Active] + [Attempt] else s.procs[i := Retrying])
    case Lower(i) =>
      s.(inflight := s.inflight - 1, procs := s.procs[i := if s.procs[i] == Attempt then Ending else Giving])
    case Lowered(i) =>
      s.(executions := s.executions - 1, procs := s.procs[i := if s.procs[i] == Ending then Finished else Active])
    case Leave(i) => s.(executions := s.executions - 1, procs := s.procs[i := Finished])
  }

  /** What a process has in executions. */
  function InExecutions(p: Proc): int {
    match p case Idle => 0 case Finished => 0 case Retrying => 2 case Giving => 2 case _ => 1
  }

  /** What a process has in inflight. */
  function InInflight(p: Proc): int {
    match p case Acquiring(_) => 1 case Retrying => 1 case Attempt => 1 case _ => 0
  }

  /** The counters have moved from base by exactly what the processes have in them. */
  ghost predicate Inv(s: State, baseExecutions: int, baseInflight: int) {
    && s.executions == baseExecutions + Sum(s.procs, InExecutions)
    && s.inflight == baseInflight + Sum(s.procs, InInflight)
  }

  lemma {:induction false} StepKeepsInv(s: State, op: Op, be: int, bi: int)
    requires Inv(s, be, bi) && Enabled(s, op)
    ensures Inv(Step(s, op), be, bi)
  {
    hide Sum;
    if op.Arrive? {
      SumAppend(s.procs, Idle, InExecutions);
      SumAppend(s.procs, Idle, InInflight);
    } else {
      var p := Step(s, op).procs[op.i];
      SumUpdate(s.procs, op.i, p, InExecutions);
      SumUpdate(s.procs, op.i, p, InInflight);
      if op.Acquired? && s.procs[op.i].hedge {
        SumAppend(s.procs[op.i := Active], Attempt, InExecutions);
        SumAppend(s.procs[op.i := Active], Attempt, InInflight);
      }
    }
  }

  // ---------------------------------------------------------------- the budget

  /** The calls of one process at a time, each as its atomic operations with none in between; procs are the executions
      and attempts that use the budget. */
  class Budget {
    const maxRate: real
    const minConcurrency: nat
    var executions: int
    var inflight: int
    ghost var procs: seq<Proc>

    ghost function Abs(): State
      reads this
    {
      State(executions, inflight, procs)
    }

    /** The counters are exactly what the processes have in them. */
    ghost predicate Valid()
      reads this
    {
      Inv(Abs(), 0, 0)
    }

    constructor (maxRate: real, minConcurrency: nat)
      ensures Valid() && Abs() == State(0, 0, [])
      ensures this.maxRate == maxRate && this.minConcurrency == minConcurrency
    {
      this.maxRate, this.minConcurrency := maxRate, minConcurrency;
      executions, inflight, procs := 0, 0, [];
    }

    /** Another execution comes to use the budget. */
    ghost method Arrive() returns (i: nat)
      requires Valid()
      modifies this`procs
      ensures Valid() && Abs() == Step(old(Abs()), Op.Arrive) && i == |old(procs)|
    {
      StepKeepsInv(Abs(), Op.Arrive, 0, 0);
      i := |procs|;
      procs := procs + [Idle];
    }

    /** An execution records itself, or completes taking a permit. */
    method RecordExecution(ghost op: Op)
      requires Valid() && (op.Begin? || op.Acquired?) && Enabled(Abs(), op)
      modifies this
      ensures Valid() && 0 <= inflight <= executions && Abs() == Step(old(Abs()), op)
    {
      StepKeepsInv(Abs(), op, 0, 0);
      procs := Step(Abs(), op).procs;
      executions := executions + 1;
      CountersOrdered(Abs());
    }

    /** An execution leaves, or completes giving back a permit. */
    method ReleaseExecution(ghost op: Op)
      requires Valid() && (op.Leave? || op.Lowered?) && Enabled(Abs(), op)
      modifies this
      ensures Valid() && 0 <= inflight <= executions && Abs() == Step(old(Abs()), op)
    {
      StepKeepsInv(Abs(), op, 0, 0);
      procs := Step(Abs(), op).procs;
      executions := executions - 1;
      CountersOrdered(Abs());
    }

    function Rate(): real
      reads this
    {
      if executions == 0 then 0.0 else inflight as real / executions as real
    }

    /** Refused exactly when enough are inflight already and they are more than maxRate of all executions counted; a permit
        granted at or above the minimum concurrency keeps to that share of what the processes hold. */
    method TryAcquirePermit(ghost i: nat, ghost hedge: bool) returns (granted: bool)
      requires Valid() && Enabled(Abs(), Op.Acquire(i, hedge))
      modifies this
      ensures Valid() && 0 <= inflight <= executions
      ensures granted <==> old(inflight) < minConcurrency ||
                           (if old(executions) == 0 then 0.0 <= maxRate
                            else old(inflight) as real <= maxRate * old(executions) as real)
      ensures granted && old(inflight) >= minConcurrency ==>
                Sum(old(procs), InInflight) as real <= maxRate * Sum(old(procs), InExecutions) as real
      ensures Abs() == if granted then Step(Step(old(Abs()), Op.Acquire(i, hedge)), Op.Acquired(i)) else old(Abs())
    {
      hide Sum;
      CountersOrdered(Abs());
      if executions > 0 {
        ShareAtMost(inflight as real, executions as real, maxRate);
      }
      if inflight >= minConcurrency && Rate() > maxRate {
        return false;
      }
      StepKeepsInv(Abs(), Op.Acquire(i, hedge), 0, 0);
      inflight := inflight + 1;
      procs := procs[i := Acquiring(hedge)];
      RecordExecution(Op.Acquired(i));
      granted := true;
    }

    method ReleasePermit(ghost i: nat)
      requires Valid() && Enabled(Abs(), Op.Lower(i))
      modifies this
      ensures Valid() && 0 <= inflight <= executions
      ensures Abs() == Step(Step(old(Abs()), Op.Lower(i)), Op.Lowered(i))
    {
      StepKeepsInv(Abs(), Op.Lower(i), 0, 0);
      inflight := inflight - 1;
      procs := procs[i := if procs[i] == Attempt then Ending else Giving];
      ReleaseExecution(Op.Lowered(i));
    }
  }

  lemma {:induction false} ShareAtMost(part: real, all: real, rate: real)
    requires all > 0.0
    ensures part / all <= rate <==> part <= rate * all
  {
    var q := part / all;
    assert q * all == part;
    if q <= rate {
      assert (rate - q) * all >= 0.0;
    } else {
      assert (q - rate) * all > 0.0;
    }
  }

  lemma {:induction false} CountersOrdered(s: State)
    requires Inv(s, 0, 0)
    ensures 0 <= s.inflight <= s.executions
  {
    SumOrder(s.procs, InInflight, InExecutions);
  }

  /** A permit taken and given back leaves the budget as it was. */
  lemma {:induction false} PermitRoundTrip(s: State, i: nat)
    requires Enabled(s, Acquire(i, false))
    ensures var held := Step(Step(s, Acquire(i, false)), Acquired(i));
            && Enabled(held, Lower(i))
            && Step(Step(held, Lower(i)), Lowered(i)) == s
  {
    var held := Step(Step(s, Acquire(i, false)), Acquired(i));
    assert Step(Step(held, Lower(i)), Lowered(i)).procs == s.procs;
  }

  /** An execution that comes and goes, with no permit taken, leaves the counters as they were. */
  lemma {:induction false} ExecutionRoundTrip(s: State)
    ensures var i := |s.procs|;
            && Enabled(Step(s, Arrive), Begin(i)) && Enabled(Step(Step(s, Arrive), Begin(i)), Leave(i))
            && Step(Step(s, Arrive), Begin(i)) == State(s.executions + 1, s.inflight, s.procs + [Active])
            && Step(Step(Step(s, Arrive), Begin(i)), Leave(i)) == State(s.executions, s.inflight, s.procs + [Finished])
  {
    var i, s1 := |s.procs|, Step(s, Arrive);
    assert s1.procs[i := Active] == s.procs + [Active];
    assert (s.procs + [Active])[i := Finished] == s.procs + [Finished];
  }

  /** A retry's permit stays with its execution, which can take no other until it has given it back. */
  lemma {:induction false} RetryHoldsItsPermit(s: State, i: nat, hedge: bool)
    requires Enabled(s, Acquire(i, false))
    ensures var held := Step(Step(s, Acquire(i, false)), Acquired(i));
            && |held.procs| == |s.procs| && held.procs[i] == Retrying
            && !Enabled(held, Acquire(i, hedge)) && !Enabled(held, Leave(i)) && Enabled(held, Lower(i))
  {
  }

  /** A hedge's permit goes to the attempt it starts, and the execution may take another or leave. */
  lemma {:induction false} HedgeHandsOnItsPermit(s: State, i: nat, hedge: bool)
    requires Enabled(s, Acquire(i, true))
    ensures var held := Step(Step(s, Acquire(i, true)), Acquired(i));
            && held.procs == s.procs + [Attempt]
            && Enabled(held, Acquire(i, hedge)) && Enabled(held, Leave(i)) && Enabled(held, Lower(|s.procs|))
            && Step(Step(held, Lower(|s.procs|)), Lowered(|s.procs|)) == State(s.executions, s.inflight, s.procs + [Finished])
  {
    var held := Step(Step(s, Acquire(i, true)), Acquired(i));
    assert held.procs == s.procs + [Attempt];
    assert Step(Step(held, Lower(|s.procs|)), Lowered(|s.procs|)).procs == s.procs + [Finished];
  }

  // ---------------------------------------------------------------- whole runs

  predicate Runs(s: State, ops: seq<Op>)
    decreases |ops|
  {
    ops == [] || (Enabled(s, ops[0]) && Runs(Step(s, ops[0]), ops[1..]))
  }

  function Run(s: State, ops: seq<Op>): State
    requires Runs(s, ops)
    decreases |ops|
  {
    if ops == [] then s else Run(Step(s, ops[0]), ops[1..])
  }

  lemma {:induction false} RunKeepsInv(s: State, ops: seq<Op>, be: int, bi: int)
    requires Inv(s, be, bi) && Runs(s, ops)
    ensures Inv(Run(s, ops), be, bi)
    decreases |ops|
  {
    if ops != [] {
      hide Inv;
      StepKeepsInv(s, ops[0], be, bi);
      RunKeepsInv(Step(s, ops[0]), ops[1..], be, bi);
    }
  }

  /** At every atomic step of any interleaving 0 <= inflight <= executions, and once every execution and attempt has
      finished both counters are back where they started. */
  lemma {:induction false} EveryRun(ops: seq<Op>, baseExecutions: nat, baseInflight: nat)
    requires baseInflight <= baseExecutions && Runs(State(baseExecutions, baseInflight, []), ops)
    ensures var s := Run(State(baseExecutions, baseInflight, []), ops);
            && 0 <= s.inflight <= s.executions
            && ((forall i :: 0 <= i < |s.procs| ==> s.procs[i] == Finished) ==>
                  s.executions == baseExecutions && s.inflight == baseInflight)
  {
    RunKeepsInv(State(baseExecutions, baseInflight, []), ops, baseExecutions, baseInflight);
    var s := Run(State(baseExecutions, baseInflight, []), ops);
    SumOrder(s.procs, InInflight, InExecutions);
    if forall i :: 0 <= i < |s.procs| ==> s.procs[i] == Finished {
      SumOrder(s.procs, InExecutions, _ => 0);
      SumOfZeros(s.procs);
    }
  }

  lemma {:induction false} SumOfZeros(procs: seq<Proc>)
    ensures Sum(procs, _ => 0) == 0
  {
    if procs != [] {
      SumOfZeros(procs[..|procs| - 1]);
    }
  }
}

/** The attempt, retry, hedge and execution counters that the copies of one execution share. */
module ExecutionCounters {
  import opened Contributions

  /** A goroutine of the execution between two atomic operations; unused when it has an attempt it has not yet used up.
      Between the two increments of a retry or a hedge it is InRetry or InHedge. */
  datatype Thread = Working(unused: bool) | InRetry | InHedge

  datatype State = State(attempts: nat, retries: nat, hedges: nat, executions: nat, threads: seq<Thread>)

  const INIT := State(1, 0, 0, 0, [Working(true)])

  datatype Op =
    | Call(i: nat)        // the user function is called and recorded
    | Skip(i: nat)        // a policy answers without calling it
    | Retry(i: nat)       // InitializeRetry: attempts incremented
    | Retried(i: nat)     // retries incremented
    | Split(i: nat)       // CopyForCancellable: the attempt passes to another goroutine
    | Hedge(i: nat)       // CopyForHedge: attempts incremented
    | Hedged(i: nat)      // hedges incremented and the hedge's goroutine started

  predicate Enabled(s: State, op: Op) {
    && op.i < |s.threads|
    && match op
       case Call(i) => s.threads[i] == Working(true)
       case Skip(i) => s.threads[i] == Working(true)
       case Retry(i) => s.threads[i].Working?
       case Retried(i) => s.threads[i] == InRetry
       case Split(i) => s.threads[i] == Working(true)
       case Hedge(i) => s.threads[i] == Working(false)
       case Hedged(i) => s.threads[i] == InHedge
  }

  function Step(s: State, op: Op): State
    requires Enabled(s, op)
  {
    match op
    case Call(i) => s.(executions := s.executions + 1, threads := s.threads[i := Working(false)])
    case Skip(i) => s.(threads := s.threads[i := Working(false)])
    case Retry(i) => s.(attempts := s.attempts + 1, threads := s.threads[i := InRetry])
    case Retried(i) => s.(retries := s.retries + 1, threads := s.threads[i := Working(true)])
    case Split(i) => s.(threads := s.threads[i := Working(false)] + [Working(true)])
    case Hedge(i) => s.(attempts := s.attempts + 1, threads := s.threads[i := InHedge])
    case Hedged(i) => s.(hedges := s.hedges + 1, threads := s.threads[i := Working(false)] + [Working(true)])
  }

  function Between(t: Thread): int {
    if t.Working? then 0 else 1
  }

  /** Attempts counted or about to be handed out, and not used up. */
  function Unused(t: Thread): int {
    if t == Working(false) then 0 else 1
  }

  ghost predicate Inv(s: State) {
    && s.attempts == 1 + s.retries + s.hedges + Sum(s.threads, Between)
    && s.executions + Sum(s.threads, Unused) <= s.attempts
  }

  lemma {:induction false} StepKeepsInv(s: State, op: Op)
    requires Inv(s) && Enabled(s, op)
    ensures Inv(Step(s, op))
  {
    hide Sum;
    var t := Step(s, op).threads[op.i];
    SumUpdate(s.threads, op.i, t, Between);
    SumUpdate(s.threads, op.i, t, Unused);
    if op.Split? || op.Hedged? {
      SumAppend(s.threads[op.i := t], Working(true), Between);
      SumAppend(s.threads[op.i := t], Working(true), Unused);
    }
  }

  predicate Runs(s: State, ops: seq<Op>)
    decreases |ops|
  {
    ops == [] || (Enabled(s, ops[0]) && Runs(Step(s, ops[0]), ops[1..]))
  }

  function Run(s: State, ops: seq<Op>): State
    requires Runs(s, ops)
    decreases |ops|
  {
    if ops == [] then s else Run(Step(s, ops[0]), ops[1..])
  }

  lemma {:induction false} RunKeepsInv(s: State, ops: seq<Op>)
    requires Inv(s) && Runs(s, ops)
    ensures Inv(Run(s, ops))
    decreases |ops|
  {
    if ops != [] {
      hide Inv;
      StepKeepsInv(s, ops[0]);
      RunKeepsInv(Step(s, ops[0]), ops[1..]);
    }
  }

  /** At every atomic step attempts >= 1 + retries + hedges, with equality when no goroutine is between two increments,
      and the completed executions never exceed the attempts. */
  lemma {:induction false} EveryRun(ops: seq<Op>)
    requires Runs(INIT, ops)
    ensures var s := Run(INIT, ops);
            && s.attempts >= 1 + s.retries + s.hedges
            && (s.attempts == 1 + s.retries + s.hedges <==> forall i :: 0 <= i < |s.threads| ==> s.threads[i].Working?)
            && s.executions <= s.attempts
  {
    assert Inv(INIT) by {
      SumAppend([], Working(true), Between);
      SumAppend([], Working(true), Unused);
      assert [] + [Working(true)] == [Working(true)];
    }
    RunKeepsInv(INIT, ops);
    var s := Run(INIT, ops);
    SumOrder(s.threads, Between, Unused);
    BetweenSum(s.threads);
  }

  lemma {:induction false} BetweenSum(threads: seq<Thread>)
    ensures Sum(threads, Between) >= 0
    ensures Sum(threads, Between) == 0 <==> forall i :: 0 <= i < |threads| ==> threads[i].Working?
  {
    if threads != [] {
      var n := |threads| - 1;
      BetweenSum(threads[..n]);
      assert forall i :: 0 <= i < n ==> threads[..n][i] == threads[i];
    }
  }

  /** How many of ops satisfy p. */
  function CountOf(ops: seq<Op>, p: Op -> bool): nat
    decreases |ops|
  {
    if ops == [] then 0 else (if p(ops[0]) then 1 else 0) + CountOf(ops[1..], p)
  }

  /** Each counter counts its own kind of operation and nothing else. */
  lemma {:induction false} CountersCount(s: State, ops: seq<Op>)
    requires Runs(s, ops)
    ensures var r := Run(s, ops);
            && r.attempts == s.attempts + CountOf(ops, (op: Op) => op.Retry? || op.Hedge?)
            && r.retries == s.retries + CountOf(ops, (op: Op) => op.Retried?)
            && r.hedges == s.hedges + CountOf(ops, (op: Op) => op.Hedged?)
            && r.executions == s.executions + CountOf(ops, (op: Op) => op.Call?)
    decreases |ops|
  {
    if ops != [] {
      CountersCount(Step(s, ops[0]), ops[1..]);
    }
  }

  /** What is begun can be completed: a retry leaves its goroutine with a fresh attempt, a hedge puts one to a new goroutine,
      and an attempt not yet used can call the function once, be answered by a policy instead, or pass to a new goroutine. */
  lemma {:induction false} IncrementsComplete(s: State, i: nat)
    requires i < |s.threads|
    ensures Enabled(s, Retry(i)) ==>
              && Enabled(Step(s, Retry(i)), Retried(i))
              && Step(Step(s, Retry(i)), Retried(i)).threads == s.threads[i := Working(true)]
    ensures Enabled(s, Hedge(i)) ==>
              && Enabled(Step(s, Hedge(i)), Hedged(i))
              && Step(Step(s, Hedge(i)), Hedged(i)).threads == s.threads + [Working(true)]
    ensures s.threads[i] == Working(true) ==>
              && Enabled(s, Call(i)) && !Enabled(Step(s, Call(i)), Call(i)) && Enabled(Step(s, Call(i)), Hedge(i))
              && Enabled(s, Skip(i)) && Step(s, Skip(i)) == s.(threads := s.threads[i := Working(false)])
              && Enabled(s, Split(i)) && Step(s, Split(i)) == s.(threads := s.threads[i := Working(false)] + [Working(true)])
  {
    if Enabled(s, Hedge(i)) {
      assert Step(Step(s, Hedge(i)), Hedged(i)).threads == s.threads + [Working(true)];
    }
  }
}
