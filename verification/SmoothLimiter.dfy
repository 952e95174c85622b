/** What the two rate limiters share. */
module RateLimits {

  const NO_MAX_WAIT := -1
  const REJECTED := -1

  predicate ExceedsMaxWaitTime(waitTime: int, maxWaitTime: int) {
    maxWaitTime != NO_MAX_WAIT && waitTime > maxWaitTime
  }

  /** A request for permits at time t since the limiter started, with a maximum wait or NO_MAX_WAIT. */
  datatype Call = Call(t: nat, permits: nat, maxWait: int)
}

/** The smooth rate limiter: one permit per interval, tracked by the time the next permit is free. */
module SmoothLimiter {
  import opened Prelude
  import opened Division
  import opened RateLimits

  /** t rounded down to a multiple of the interval. */
  function RoundDown(t: nat, interval: nat): nat
    requires interval > 0
  {
    t - t % interval
  }

  /** The time n permits take. */
  function PermitTime(interval: nat, n: nat): nat {
    interval * n
  }

  /** The next free permit time if the request is granted at time t. */
  function NextFree(interval: nat, nextFree: nat, t: nat, n: nat): nat
    requires interval > 0
  {
    (if t >= nextFree then RoundDown(t, interval) else nextFree) + PermitTime(interval, n)
  }

  function WaitTime(interval: nat, nextFree: nat, t: nat, n: nat): nat
    requires interval > 0
  {
    Max(NextFree(interval, nextFree, t, n) - t - interval, 0)
  }

  /** The wait returned, or REJECTED, and the new next free permit time. */
  function Acquire(interval: nat, nextFree: nat, t: nat, n: nat, maxWait: int): (int, nat)
    requires interval > 0
  {
    var wait := WaitTime(interval, nextFree, t, n);
    if ExceedsMaxWaitTime(wait, maxWait) then (REJECTED, nextFree) else (wait, NextFree(interval, nextFree, t, n))
  }

  class SmoothStats {
    const interval: nat
    var nextFreePermitTime: nat

    constructor (interval: nat)
      ensures this.interval == interval && nextFreePermitTime == 0
    {
      this.interval := interval;
      nextFreePermitTime := 0;
    }

    method AcquirePermits(currentTime: nat, requestedPermits: nat, maxWaitTime: int) returns (wait: int)
      requires interval > 0
      modifies this
      ensures (wait, nextFreePermitTime)
           == Acquire(interval, old(nextFreePermitTime), currentTime, requestedPermits, maxWaitTime)
    {
      hide RoundDown, PermitTime;
      var requestedPermitTime := PermitTime(interval, requestedPermits);
      var newNextFreePermitTime: nat;
      if currentTime >= nextFreePermitTime {
        var currentIntervalTime := RoundDown(currentTime, interval);
        newNextFreePermitTime := currentIntervalTime + requestedPermitTime;
      } else {
        newNextFreePermitTime := nextFreePermitTime + requestedPermitTime;
      }
      wait := Max(newNextFreePermitTime - currentTime - interval, 0);
      if ExceedsMaxWaitTime(wait, maxWaitTime) {
        return REJECTED;
      }
      nextFreePermitTime := newNextFreePermitTime;
    }

    method Reset()
      modifies this
      ensures nextFreePermitTime == 0
    {
      nextFreePermitTime := 0;
    }
  }

  // ---------------------------------------------------------------- time in slots of one interval

  /** The first slot a granted request owns. */
  function FirstSlot(interval: nat, slot: nat, t: nat): nat
    requires interval > 0
  {
    Max(slot, t / interval)
  }

  /** In slots: a request takes the n slots from the current one or the first free one, whichever is later,
      and is ready in the last of them. */
  lemma {:induction false} AcquireInSlots(interval: nat, slot: nat, t: nat, n: nat)
    requires interval > 0
    ensures var first := FirstSlot(interval, slot, t);
            && NextFree(interval, interval * slot, t, n) == interval * (first + n)
            && (n > 0 ==> (t + WaitTime(interval, interval * slot, t, n)) / interval == first + n - 1)
  {
    ReachesMultiple(t, interval, slot);
    Quotient(t, interval);
    var first := FirstSlot(interval, slot, t);
    Distribute(interval, first, n);
    if n > 0 {
      var last := first + n - 1;
      Distribute(interval, last, 1);
      MulMonotone(interval, t / interval, last);
      QuotientUnique(t + WaitTime(interval, interval * slot, t, n), interval, last);
    }
  }

  /** A request for n permits is ready at the start of its last slot, or at once if that has begun; it is turned away
      exactly when that is later than its maximum wait, and then takes nothing. */
  lemma {:induction false} WaitsForLastSlot(interval: nat, slot: nat, t: nat, n: nat, maxWait: int)
    requires interval > 0 && n > 0
    ensures var last := FirstSlot(interval, slot, t) + n - 1;
            var wait := Max(interval * last - t, 0);
            Acquire(interval, interval * slot, t, n, maxWait) ==
              if maxWait != NO_MAX_WAIT && wait > maxWait then (REJECTED, interval * slot)
              else (wait, interval * (last + 1))
  {
    AcquireInSlots(interval, slot, t, n);
    Distribute(interval, FirstSlot(interval, slot, t) + n - 1, 1);
  }

  // ---------------------------------------------------------------- runs

  /** A granted request for at least one permit: the slots [first, first + permits) and the time it is ready. */
  datatype Grant = Grant(first: nat, permits: nat, ready: nat)

  datatype State = State(nextFree: nat, grants: seq<Grant>)

  /** One call, at any clock reading: the clock may even go backwards. */
  function Step(interval: nat, s: State, c: Call): State
    requires interval > 0
  {
    var (wait, nextFree) := Acquire(interval, s.nextFree, c.t, c.permits, c.maxWait);
    if wait == REJECTED || c.permits == 0 then s.(nextFree := nextFree)
    else State(nextFree, s.grants + [Grant(FirstSlot(interval, s.nextFree / interval, c.t), c.permits, c.t + wait)])
  }

  function Run(interval: nat, calls: seq<Call>): State
    requires interval > 0
  {
    if calls == [] then State(0, [])
    else Step(interval, Run(interval, calls[..|calls| - 1]), calls[|calls| - 1])
  }

  /** Grants own disjoint slots in order, and each is ready in its last slot. */
  ghost predicate Exclusive(interval: nat, grants: seq<Grant>)
    requires interval > 0
  {
    && (forall i, j :: 0 <= i < j < |grants| ==> grants[i].first + grants[i].permits <= grants[j].first)
    && (forall i :: 0 <= i < |grants| ==>
          grants[i].permits > 0 && grants[i].ready / interval == grants[i].first + grants[i].permits - 1)
  }

  /** nextFree is a multiple of the interval, past every slot handed out. */
  ghost predicate Inv(interval: nat, s: State)
    requires interval > 0
  {
    && s.nextFree == interval * (s.nextFree / interval)
    && Exclusive(interval, s.grants)
    && (forall i :: 0 <= i < |s.grants| ==> s.grants[i].first + s.grants[i].permits <= s.nextFree / interval)
  }

  lemma {:induction false} StepKeepsInv(interval: nat, s: State, c: Call)
    requires interval > 0 && Inv(interval, s)
    ensures Inv(interval, Step(interval, s, c)) && s.nextFree <= Step(interval, s, c).nextFree
  {
    hide NextFree, WaitTime;
    var slot := s.nextFree / interval;
    AcquireInSlots(interval, slot, c.t, c.permits);
    var first := FirstSlot(interval, slot, c.t);
    QuotientOfMultiple(interval, first + c.permits);
    MulMonotone(interval, slot, first + c.permits);
  }

  /** In every run the next free permit time is a multiple of the interval, the grants own pairwise disjoint
      intervals, and each is ready in the last interval it owns. */
  lemma {:induction false} EveryRun(interval: nat, calls: seq<Call>)
    requires interval > 0
    ensures Inv(interval, Run(interval, calls))
  {
    if calls != [] {
      EveryRun(interval, calls[..|calls| - 1]);
      StepKeepsInv(interval, Run(interval, calls[..|calls| - 1]), calls[|calls| - 1]);
    } else {
      assert 0 / interval == 0 && interval * 0 == 0;
    }
  }

  lemma {:induction false} NextFreeNeverDecreases(interval: nat, calls: seq<Call>, k: nat)
    requires interval > 0 && k <= |calls|
    ensures Run(interval, calls[..k]).nextFree <= Run(interval, calls).nextFree
    decreases |calls|
  {
    if k < |calls| {
      var n := |calls| - 1;
      NextFreeNeverDecreases(interval, calls[..n], k);
      assert calls[..n][..k] == calls[..k];
      EveryRun(interval, calls[..n]);
      StepKeepsInv(interval, Run(interval, calls[..n]), calls[n]);
    } else {
      assert calls[..k] == calls;
    }
  }

  // ---------------------------------------------------------------- the rate

  /** How many grants become ready in [from, to). */
  function ReadyIn(grants: seq<Grant>, from: int, to: int): nat {
    if grants == [] then 0
    else
      var g := grants[|grants| - 1];
      ReadyIn(grants[..|grants| - 1], from, to) + (if from <= g.ready < to then 1 else 0)
  }

  /** Grants ready in [from, to) fit, one each, into the slots from lo to hi. */
  lemma {:induction false} OneGrantPerSlot(interval: nat, grants: seq<Grant>, from: int, to: int, lo: int, hi: int)
    requires interval > 0 && Exclusive(interval, grants) && lo <= hi + 1
    requires forall i :: 0 <= i < |grants| && from <= grants[i].ready < to ==> lo <= grants[i].ready / interval <= hi
    ensures ReadyIn(grants, from, to) <= hi - lo + 1
    decreases |grants|
  {
    if grants != [] {
      hide Exclusive;
      var n := |grants| - 1;
      var g, rest := grants[n], grants[..n];
      ExclusiveFront(interval, grants, n);
      assert forall i :: 0 <= i < n ==> rest[i] == grants[i];
      OneGrantPerSlot(interval, rest, from, to, lo, if from <= g.ready < to then g.ready / interval - 1 else hi);
    }
  }

  /** A grant is ready in a later slot than those before it. */
  lemma {:induction false} ExclusiveFront(interval: nat, grants: seq<Grant>, n: nat)
    requires interval > 0 && |grants| == n + 1 && Exclusive(interval, grants)
    ensures Exclusive(interval, grants[..n])
    ensures forall i :: 0 <= i < n ==> grants[i].ready / interval <= grants[n].ready / interval - 1
  {
    forall i | 0 <= i < n ensures grants[i].ready / interval <= grants[n].ready / interval - 1 {
      assert grants[i].first + grants[i].permits <= grants[n].first;
    }
  }

  /** At most k + 1 requests become ready in any half-open window of k intervals, in every run. */
  lemma {:induction false} RateBound(interval: nat, calls: seq<Call>, from: nat, k: nat)
    requires interval > 0
    ensures ReadyIn(Run(interval, calls).grants, from, from + interval * k) <= k + 1
  {
    EveryRun(interval, calls);
    var grants := Run(interval, calls).grants;
    var lo := from / interval;
    forall i | 0 <= i < |grants| && from <= grants[i].ready < from + interval * k
      ensures lo <= grants[i].ready / interval <= lo + k
    {
      WindowSlots(interval, from, k, grants[i].ready);
    }
    OneGrantPerSlot(interval, grants, from, from + interval * k, lo, lo + k);
  }

  lemma {:induction false} WindowSlots(interval: nat, from: nat, k: nat, t: nat)
    requires interval > 0 && from <= t < from + interval * k
    ensures from / interval <= t / interval <= from / interval + k
  {
    var lo := from / interval;
    QuotientMonotone(from, t, interval);
    Quotient(from, interval);
    Distribute(interval, lo + 1, k);
    ReachesMultiple(t, interval, lo + 1 + k);
  }

  // ---------------------------------------------------------------- a batch is its single requests

  /** n single requests without a maximum wait, all at time t: the wait of the last and the state they leave. */
  function Singles(interval: nat, nextFree: nat, t: nat, n: nat): (int, nat)
    requires interval > 0 && n > 0
    decreases n
  {
    if n == 1 then Acquire(interval, nextFree, t, 1, NO_MAX_WAIT)
    else Acquire(interval, Singles(interval, nextFree, t, n - 1).1, t, 1, NO_MAX_WAIT)
  }

  /** One request for n permits waits as long as the last of n single requests and leaves the same state. */
  lemma {:induction false} BatchIsSingles(interval: nat, slot: nat, t: nat, n: nat)
    requires interval > 0 && n > 0
    ensures Acquire(interval, interval * slot, t, n, NO_MAX_WAIT) == Singles(interval, interval * slot, t, n)
    decreases n
  {
    if n > 1 {
      BatchIsSingles(interval, slot, t, n - 1);
      AcquireInSlots(interval, slot, t, n);
      AcquireInSlots(interval, slot, t, n - 1);
      var first := FirstSlot(interval, slot, t);
      ReachesMultiple(t, interval, first + n - 1);
      AcquireInSlots(interval, first + n - 1, t, 1);
    }
  }

  /** The first single request is ready at once, whenever it comes. */
  lemma {:induction false} FirstPermitIsFree(interval: nat, t: nat, maxWait: nat)
    requires interval > 0
    ensures Run(interval, [Call(t, 1, maxWait)]).grants == [Grant(t / interval, 1, t)]
  {
    var c := Call(t, 1, maxWait);
    assert [c][..0] == [];
    WaitsForLastSlot(interval, 0, t, 1, maxWait);
    Quotient(t, interval);
    assert interval * 0 == 0;
    assert Run(interval, []) == State(0, []);
    assert [] + [Grant(t / interval, 1, t)] == [Grant(t / interval, 1, t)];
  }
}
