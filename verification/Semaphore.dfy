/** DynamicSemaphore: a resizable FIFO semaphore, as atomic steps of its locked sections over any set of calls. */
module Semaphores {
  import opened Prelude

  /** One call to Acquire, AcquireWithMaxWait or TryAcquire; a caller that calls again is a new call. */
  type Call = nat

  // ---------------------------------------------------------------- the locked state

  /** What the mutex guards, with the waiters whose channel has been closed. */
  datatype Sem = Sem(size: int, used: nat, waiters: seq<Call>, closed: set<Call>)

  /** s without the elements of gone. */
  function Without(s: seq<Call>, gone: set<Call>): seq<Call> {
    if s == [] then []
    else
      var kept := Without(s[..|s| - 1], gone);
      if s[|s| - 1] in gone then kept else kept + [s[|s| - 1]]
  }

  predicate HasRoom(m: Sem) {
    m.used < m.size
  }

  /** The start of a blocking Acquire: take a permit, else join the queue. */
  function Entered(m: Sem, c: Call): Sem {
    if HasRoom(m) then m.(used := m.used + 1) else m.(waiters := m.waiters + [c])
  }

  /** TryAcquire, and AcquireWithMaxWait with no time to wait: take a permit or nothing. */
  function Tried(m: Sem): Sem {
    if HasRoom(m) then m.(used := m.used + 1) else m
  }

  function Woken(m: Sem): Sem
    requires m.waiters != []
  {
    Sem(m.size, m.used + 1, m.waiters[1..], m.closed + {m.waiters[0]})
  }

  function Released(m: Sem): Sem
    requires m.used > 0
  {
    var m' := m.(used := m.used - 1);
    if HasRoom(m') && m'.waiters != [] then Woken(m') else m'
  }

  function WokenUpTo(m: Sem, size: int): (r: Sem)
    ensures |r.waiters| <= |m.waiters| && r.size == m.size
    decreases |m.waiters|
  {
    if m.used < size && m.waiters != [] then WokenUpTo(Woken(m), size) else m
  }

  function Resized(m: Sem, size: int): Sem {
    (if size > m.size then WokenUpTo(m, size) else m).(size := size)
  }

  /** The end of a wait whose context or timer fired: a closed channel wins, else the waiter leaves the queue. */
  function Drained(m: Sem, c: Call): Sem {
    if c in m.closed then m else m.(waiters := Without(m.waiters, {c}))
  }

  class DynamicSemaphore {
    var size: int
    var used: nat
    var waiters: seq<Call>
    var closed: set<Call>

    ghost function Abs(): Sem
      reads this
    {
      Sem(size, used, waiters, closed)
    }

    constructor (n: int)
      ensures Abs() == Sem(n, 0, [], {})
    {
      size, used, waiters, closed := n, 0, [], {};
    }

    /** The locked section that begins Acquire and AcquireWithMaxWait; maxWaitTime zero turns a full semaphore into an error. */
    method Acquire(c: Call, noWait: bool) returns (granted: bool, queued: bool)
      modifies this
      ensures granted == HasRoom(old(Abs())) && queued == (!granted && !noWait)
      ensures Abs() == if noWait then Tried(old(Abs())) else Entered(old(Abs()), c)
    {
      if used < size {
        used := used + 1;
        return true, false;
      }
      if noWait {
        return false, false;
      }
      waiters := waiters + [c];
      return false, true;
    }

    method TryAcquire() returns (granted: bool)
      modifies this
      ensures granted == HasRoom(old(Abs())) && Abs() == Tried(old(Abs()))
    {
      granted := used < size;
      if granted {
        used := used + 1;
      }
    }

    method DrainWaiter(c: Call) returns (ok: bool)
      modifies this
      ensures ok == (c in old(closed)) && Abs() == Drained(old(Abs()), c)
    {
      ok := c in closed;
      if !ok {
        waiters := Without(waiters, {c});
      }
    }

    method WakeAndAcquire()
      requires waiters != []
      modifies this
      ensures Abs() == Woken(old(Abs()))
    {
      used := used + 1;
      closed := closed + {waiters[0]};
      waiters := waiters[1..];
    }

    /** False stands for the panic on a release that matches no acquire. */
    method Release() returns (ok: bool)
      modifies this
      ensures ok == (old(used) > 0)
      ensures Abs() == if ok then Released(old(Abs())) else old(Abs())
    {
      if used <= 0 {
        return false;
      }
      used := used - 1;
      if used < size && |waiters| > 0 {
        WakeAndAcquire();
      }
      ok := true;
    }

    method SetSize(n: int)
      modifies this
      ensures Abs() == Resized(old(Abs()), n)
    {
      if n > size {
        while used < n && |waiters| > 0
          invariant WokenUpTo(Abs(), n) == WokenUpTo(old(Abs()), n)
          invariant size == old(size)
          decreases |waiters|
        {
          WakeAndAcquire();
        }
      }
      size := n;
    }
  }

  // ---------------------------------------------------------------- calls and their interleavings

  /** The semaphore with every call made so far.
      arrivals: calls that were granted or queued, in order; grants: granted calls, in order;
      blocked: calls still waiting to return; active: calls granted and not yet released;
      failed: calls that returned an error; peak: the largest size ever set, or zero. */
  datatype System = System(
    sem: Sem, arrivals: seq<Call>, grants: seq<Call>,
    blocked: set<Call>, active: set<Call>, failed: set<Call>, peak: int)

  datatype Op =
    | Acquire(c: Call)          // first locked section of a call that may wait
    | AcquireNow(c: Call)       // TryAcquire, or AcquireWithMaxWait with maxWaitTime zero
    | Awake(c: Call)            // the closed channel is received and the call returns nil
    | GiveUp(c: Call)           // the context is done or the timer fires, and the waiter is drained
    | Put(c: Call)              // the permit of call c is released
    | SetSize(n: int)

  function Init(size: int): System {
    System(Sem(size, 0, [], {}), [], [], {}, {}, {}, Max(0, size))
  }

  predicate Enabled(s: System, op: Op) {
    match op
    case Acquire(c) => c !in s.arrivals && c !in s.failed
    case AcquireNow(c) => c !in s.arrivals && c !in s.failed
    case Awake(c) => c in s.blocked && c in s.sem.closed
    case GiveUp(c) => c in s.blocked
    case Put(c) => c in s.active && c !in s.blocked
    case SetSize(_) => true
  }

  /** Takes s to the locked state m, recording the waiters woken at the head of the queue as granted. */
  function Granting(s: System, m: Sem): System
    requires |m.waiters| <= |s.sem.waiters|
  {
    var woken := s.sem.waiters[..|s.sem.waiters| - |m.waiters|];
    s.(sem := m, grants := s.grants + woken, active := s.active + ToSet(woken))
  }

  function Step(s: System, op: Op): System
    requires Enabled(s, op)
  {
    match op
    case Acquire(c) =>
      var s' := s.(sem := Entered(s.sem, c), arrivals := s.arrivals + [c]);
      if HasRoom(s.sem) then s'.(grants := s.grants + [c], active := s.active + {c})
      else s'.(blocked := s.blocked + {c})
    case AcquireNow(c) =>
      if HasRoom(s.sem)
      then s.(sem := Tried(s.sem), arrivals := s.arrivals + [c], grants := s.grants + [c], active := s.active + {c})
      else s.(failed := s.failed + {c})
    case Awake(c) => s.(blocked := s.blocked - {c})
    case GiveUp(c) =>
      var s' := s.(sem := Drained(s.sem, c), blocked := s.blocked - {c});
      if c in s.sem.closed then s' else s'.(failed := s.failed + {c})
    case Put(c) =>
      if s.sem.used == 0 then s  // Release panics
      else Granting(s.(active := s.active - {c}), Released(s.sem))
    case SetSize(n) =>
      Granting(s, Resized(s.sem, n)).(peak := Max(s.peak, n))
  }

  // ---------------------------------------------------------------- the invariant

  /** Whoever waits, waits for a reason. */
  ghost predicate NoLostWakeup(s: System) {
    s.sem.waiters != [] ==> s.sem.used >= s.sem.size
  }

  /** First in, first out: the calls granted so far, then the queue, are the arrivals that did not give up, in order. */
  ghost predicate Fifo(s: System) {
    Distinct(s.arrivals) && Without(s.arrivals, s.failed) == s.grants + s.sem.waiters
  }

  /** A permit in use is a call granted and not released. */
  ghost predicate Conserved(s: System) {
    s.sem.used == |s.active| && forall c :: c in s.active ==> c in s.grants
  }

  /** A call that has not returned is queued, or has been granted its permit already. */
  ghost predicate Waiting(s: System) {
    && (forall c :: c in s.sem.waiters ==> c in s.blocked)
    && (forall c :: c in s.blocked ==> c in s.sem.waiters || (c in s.sem.closed && c in s.active))
    && (forall c :: c in s.sem.closed ==> c in s.grants)
  }

  ghost predicate Bounded(s: System) {
    s.sem.size <= s.peak && s.sem.used <= s.peak
  }

  ghost predicate Inv(s: System) {
    NoLostWakeup(s) && Fifo(s) && Conserved(s) && Waiting(s) && Bounded(s)
  }

  // ---------------------------------------------------------------- sequences of calls

  lemma {:induction false} WithoutElements(s: seq<Call>, gone: set<Call>)
    ensures forall c :: c in Without(s, gone) <==> c in s && c !in gone
    ensures |Without(s, gone)| <= |s|
  {
    if s != [] {
      WithoutElements(s[..|s| - 1], gone);
      assert s == s[..|s| - 1] + [s[|s| - 1]];
    }
  }

  lemma {:induction false} WithoutAppend(s: seq<Call>, c: Call, gone: set<Call>)
    ensures Without(s + [c], gone) == if c in gone then Without(s, gone) else Without(s, gone) + [c]
  {
    assert (s + [c])[..|s|] == s;
  }

  lemma {:induction false} WithoutConcat(s: seq<Call>, t: seq<Call>, gone: set<Call>)
    ensures Without(s + t, gone) == Without(s, gone) + Without(t, gone)
  {
    if t == [] {
      assert s + t == s;
    } else {
      var front, last := t[..|t| - 1], t[|t| - 1];
      WithoutConcat(s, front, gone);
      assert (s + t)[..|s + t| - 1] == s + front;
    }
  }

  lemma {:induction false} WithoutTwice(s: seq<Call>, gone: set<Call>, c: Call)
    ensures Without(s, gone + {c}) == Without(Without(s, gone), {c})
  {
    if s != [] {
      var front, last := s[..|s| - 1], s[|s| - 1];
      WithoutTwice(front, gone, c);
      WithoutAppend(Without(front, gone), last, {c});
    }
  }

  lemma {:induction false} WithoutAbsent(s: seq<Call>, c: Call)
    requires c !in s
    ensures Without(s, {c}) == s
  {
    if s != [] {
      WithoutAbsent(s[..|s| - 1], c);
    }
  }

  lemma {:induction false} WithoutKeepsDistinct(s: seq<Call>, gone: set<Call>)
    requires Distinct(s)
    ensures Distinct(Without(s, gone))
  {
    if s != [] {
      WithoutKeepsDistinct(s[..|s| - 1], gone);
      WithoutElements(s[..|s| - 1], gone);
    }
  }

  lemma {:induction false} DistinctCardinality(s: seq<Call>)
    requires Distinct(s)
    ensures |ToSet(s)| == |s|
  {
    if s == [] {
      assert ToSet(s) == {};
    } else {
      var front, last := s[..|s| - 1], s[|s| - 1];
      DistinctCardinality(front);
      assert s == front + [last];
      assert ToSet(s) == ToSet(front) + {last};
    }
  }

  // ---------------------------------------------------------------- every step keeps the invariant

  /** The queue and the granted calls are disjoint parts of the arrivals. */
  lemma {:induction false} GrantsAndQueue(s: System)
    requires Fifo(s)
    ensures Distinct(s.grants) && Distinct(s.sem.waiters)
    ensures forall c :: c in s.sem.waiters ==> c !in s.grants
    ensures forall c :: c in s.grants || c in s.sem.waiters <==> c in s.arrivals && c !in s.failed
  {
    WithoutKeepsDistinct(s.arrivals, s.failed);
    WithoutElements(s.arrivals, s.failed);
    var g, w, q := s.grants, s.sem.waiters, s.grants + s.sem.waiters;
    assert forall i :: 0 <= i < |g| ==> g[i] == q[i];
    assert forall i :: 0 <= i < |w| ==> w[i] == q[|g| + i];
  }

  /** r is m after the first k waiters were woken, one permit each; size is the caller's concern. */
  ghost predicate TookHead(m: Sem, r: Sem, k: int) {
    && 0 <= k <= |m.waiters|
    && r.waiters == m.waiters[k..] && r.used == m.used + k && r.closed == m.closed + ToSet(m.waiters[..k])
  }

  lemma {:induction false} TookOneMore(m: Sem, r: Sem, k: nat)
    requires m.waiters != [] && TookHead(Woken(m), r, k)
    ensures TookHead(m, r, k + 1)
  {
    hide ToSet;
    var head, rest := m.waiters[0], m.waiters[1..];
    ToSetOfFirst(m.waiters[..k + 1]);
    assert m.waiters[..k + 1][1..] == rest[..k] && m.waiters[k + 1..] == rest[k..];
    assert (m.closed + {head}) + ToSet(rest[..k]) == m.closed + ({head} + ToSet(rest[..k]));
  }

  lemma {:induction false} TookNone(m: Sem)
    ensures TookHead(m, m, 0)
  {
    assert m.waiters[..0] == [] && m.waiters[0..] == m.waiters;
    assert m.closed + ToSet<Call>([]) == m.closed;
  }

  /** Waking takes waiters off the head of the queue, one permit each, no further than the new size. */
  lemma {:induction false} WokenUpToShape(m: Sem, size: int)
    ensures var r := WokenUpTo(m, size); TookHead(m, r, |m.waiters| - |r.waiters|)
    ensures var r := WokenUpTo(m, size);
            (r.waiters != [] ==> r.used >= size) && r.used <= Max(m.used, size)
    decreases |m.waiters|
  {
    hide TookHead;
    var r := WokenUpTo(m, size);
    if m.used < size && m.waiters != [] {
      WokenUpToShape(Woken(m), size);
      TookOneMore(m, r, |Woken(m).waiters| - |r.waiters|);
    } else {
      TookNone(m);
    }
  }

  /** s after the first k waiters are granted; size is the caller's concern. */
  ghost predicate Wakes(s: System, m: Sem, k: nat) {
    && k <= |s.sem.waiters|
    && m.waiters == s.sem.waiters[k..] && m.used == |s.active| + k
    && m.closed == s.sem.closed + ToSet(s.sem.waiters[..k])
  }

  lemma {:induction false} WakingKeepsOrder(s: System, m: Sem, k: nat)
    requires Fifo(s) && Wakes(s, m, k)
    ensures Fifo(Granting(s, m))
  {
    hide Without, Distinct;
    var woken := s.sem.waiters[..k];
    assert s.sem.waiters == woken + m.waiters;
    assert s.grants + s.sem.waiters == (s.grants + woken) + m.waiters;
  }

  lemma {:induction false} WakingConserves(s: System, m: Sem, k: nat)
    requires Fifo(s) && Wakes(s, m, k) && forall c :: c in s.active ==> c in s.grants
    ensures Conserved(Granting(s, m))
  {
    hide Without, Fifo, Distinct, ToSet;
    var woken := s.sem.waiters[..k];
    WokenAreNew(s, k);
    DistinctCardinality(woken);
    UnionCardinality(s.active, ToSet(woken));
    MembersOf(woken);
  }

  lemma {:induction false} MembersOf(s: seq<Call>)
    ensures forall c :: c in ToSet(s) <==> c in s
  {
  }

  /** The waiters at the head of the queue are distinct and hold no permit yet. */
  lemma {:induction false} WokenAreNew(s: System, k: nat)
    requires Fifo(s) && k <= |s.sem.waiters| && forall c :: c in s.active ==> c in s.grants
    ensures Distinct(s.sem.waiters[..k]) && s.active !! ToSet(s.sem.waiters[..k])
  {
    hide Without, Fifo;
    GrantsAndQueue(s);
    assert s.sem.waiters == s.sem.waiters[..k] + s.sem.waiters[k..];
  }

  lemma {:induction false} UnionCardinality(a: set<Call>, b: set<Call>)
    requires a !! b
    ensures |a + b| == |a| + |b|
  {
  }

  lemma {:induction false} WakingKeepsWaiting(s: System, m: Sem, k: nat)
    requires Waiting(s) && Wakes(s, m, k)
    ensures Waiting(Granting(s, m))
  {
    var woken := s.sem.waiters[..k];
    assert s.sem.waiters == woken + m.waiters;
  }

  lemma {:induction false} DistinctAppend(s: seq<Call>, c: Call)
    requires Distinct(s) && c !in s
    ensures Distinct(s + [c])
  {
  }

  /** s with c granted at once. */
  function GrantedAtOnce(s: System, c: Call): System {
    s.(sem := Tried(s.sem), arrivals := s.arrivals + [c], grants := s.grants + [c], active := s.active + {c})
  }

  lemma {:induction false} AtOnceKeepsOrder(s: System, c: Call)
    requires Fifo(s) && s.sem.waiters == [] && c !in s.arrivals && c !in s.failed
    ensures Fifo(GrantedAtOnce(s, c))
  {
    hide Without, Distinct;
    DistinctAppend(s.arrivals, c);
    WithoutAppend(s.arrivals, c, s.failed);
    assert s.grants + [] + [c] == (s.grants + [c]) + [];
  }

  lemma {:induction false} AtOnceConserves(s: System, c: Call)
    requires Conserved(s) && c !in s.grants && HasRoom(s.sem)
    ensures Conserved(GrantedAtOnce(s, c))
  {
    UnionCardinality(s.active, {c});
  }

  lemma {:induction false} AtOnceKeepsWaiting(s: System, c: Call)
    requires Waiting(s)
    ensures Waiting(GrantedAtOnce(s, c))
  {
  }

  /** A call granted at once: no one is queued, or the permit would have gone to them. */
  lemma {:induction false} ImmediateGrantKeepsInv(s: System, op: Op)
    requires Inv(s) && (op.Acquire? || op.AcquireNow?) && Enabled(s, op) && HasRoom(s.sem)
    ensures s.sem.waiters == [] && Inv(Step(s, op))
  {
    hide Fifo, Conserved, Waiting;
    assert s.sem.waiters == [];
    GrantsAndQueue(s);
    AtOnceKeepsOrder(s, op.c);
    AtOnceConserves(s, op.c);
    AtOnceKeepsWaiting(s, op.c);
    assert Step(s, op) == GrantedAtOnce(s, op.c);
  }

  lemma {:induction false} QueueingKeepsInv(s: System, c: Call)
    requires Inv(s) && Enabled(s, Acquire(c)) && !HasRoom(s.sem)
    ensures Inv(Step(s, Acquire(c)))
  {
    hide Without, Distinct;
    GrantsAndQueue(s);
    DistinctAppend(s.arrivals, c);
    WithoutAppend(s.arrivals, c, s.failed);
    assert s.grants + s.sem.waiters + [c] == s.grants + (s.sem.waiters + [c]);
  }

  lemma {:induction false} RefusalKeepsInv(s: System, c: Call)
    requires Inv(s) && Enabled(s, AcquireNow(c)) && !HasRoom(s.sem)
    ensures Inv(Step(s, AcquireNow(c)))
  {
    hide Without;
    GrantsAndQueue(s);
    WithoutTwice(s.arrivals, s.failed, c);
    WithoutAbsent(s.grants + s.sem.waiters, c);
  }

  lemma {:induction false} GiveUpKeepsInv(s: System, c: Call)
    requires Inv(s) && c in s.blocked
    ensures Inv(Step(s, GiveUp(c)))
  {
    hide Without;
    GrantsAndQueue(s);
    if c !in s.sem.closed {
      WithoutTwice(s.arrivals, s.failed, c);
      WithoutConcat(s.grants, s.sem.waiters, {c});
      WithoutAbsent(s.grants, c);
      WithoutElements(s.sem.waiters, {c});
    }
  }

  /** A release hands its permit to the head of the queue when there is room for one more. */
  lemma {:induction false} ReleasedShape(m: Sem)
    requires m.used > 0
    ensures var r := Released(m);
            var k := |m.waiters| - |r.waiters|;
            && 0 <= k <= 1 && r.size == m.size && r.waiters == m.waiters[k..] && r.used == m.used - 1 + k
            && r.closed == m.closed + ToSet(m.waiters[..k])
            && (k == 0 && m.waiters != [] ==> m.used > m.size)
  {
    assert m.waiters[0..] == m.waiters && m.waiters[..0] == [];
    if m.waiters != [] {
      assert m.waiters[..1] == [m.waiters[0]];
    }
  }

  lemma {:induction false} PutKeepsInv(s: System, c: Call)
    requires Inv(s) && Enabled(s, Put(c))
    ensures s.sem.used > 0 && Inv(Step(s, Put(c)))
  {
    hide Fifo, Conserved, Waiting, Without, Distinct, ToSet, Released;
    PutPermit(s, c);
    PutFrame(s, c);
    ReleasedShape(s.sem);
    var s1 := s.(active := s.active - {c});
    var m := Released(s.sem);
    var k := |s.sem.waiters| - |m.waiters|;
    WakingKeepsOrder(s1, m, k);
    WakingConserves(s1, m, k);
    WakingKeepsWaiting(s1, m, k);
  }

  lemma {:induction false} PutPermit(s: System, c: Call)
    requires Conserved(s) && c in s.active
    ensures |s.active - {c}| == s.sem.used - 1 && forall d :: d in s.active ==> d in s.grants
  {
  }

  lemma {:induction false} PutFrame(s: System, c: Call)
    requires Fifo(s) && Waiting(s) && c !in s.blocked
    ensures var s1 := s.(active := s.active - {c}); Fifo(s1) && Waiting(s1)
  {
  }

  lemma {:induction false} ResizedShape(m: Sem, n: int)
    ensures var r := Resized(m, n);
            var k := |m.waiters| - |r.waiters|;
            && 0 <= k && r.size == n && r.waiters == m.waiters[k..] && r.used == m.used + k
            && r.closed == m.closed + ToSet(m.waiters[..k])
            && r.used <= Max(m.used, n)
            && (r.waiters != [] && (m.waiters != [] ==> m.used >= m.size) ==> r.used >= n)
  {
    hide WokenUpTo;
    WokenUpToShape(m, n);
    assert m.waiters[0..] == m.waiters && m.waiters[..0] == [];
  }

  lemma {:induction false} ResizeKeepsInv(s: System, n: int)
    requires Inv(s)
    ensures Inv(Step(s, SetSize(n)))
  {
    hide Fifo, Waiting, Without, Distinct, ToSet, Resized;
    ResizedShape(s.sem, n);
    var m := Resized(s.sem, n);
    var k := |s.sem.waiters| - |m.waiters|;
    WakingKeepsOrder(s, m, k);
    WakingConserves(s, m, k);
    WakingKeepsWaiting(s, m, k);
    PeakFrame(Granting(s, m), Max(s.peak, n));
  }

  lemma {:induction false} PeakFrame(s: System, peak: int)
    ensures Fifo(s) ==> Fifo(s.(peak := peak))
    ensures Waiting(s) ==> Waiting(s.(peak := peak))
  {
  }

  lemma {:induction false} StepKeepsInv(s: System, op: Op)
    requires Inv(s) && Enabled(s, op)
    ensures Inv(Step(s, op))
  {
    hide Without, Distinct;
    match op
    case Acquire(c) => if HasRoom(s.sem) { ImmediateGrantKeepsInv(s, op); } else { QueueingKeepsInv(s, c); }
    case AcquireNow(c) => if HasRoom(s.sem) { ImmediateGrantKeepsInv(s, op); } else { RefusalKeepsInv(s, c); }
    case Awake(_) => GrantsAndQueue(s);
    case GiveUp(c) => GiveUpKeepsInv(s, c);
    case Put(c) => PutKeepsInv(s, c);
    case SetSize(n) => ResizeKeepsInv(s, n);
  }

  // ---------------------------------------------------------------- whole runs

  /** Every step of ops is enabled when its turn comes. */
  predicate Runs(s: System, ops: seq<Op>)
    decreases |ops|
  {
    ops == [] || (Enabled(s, ops[0]) && Runs(Step(s, ops[0]), ops[1..]))
  }

  function Run(s: System, ops: seq<Op>): System
    requires Runs(s, ops)
    decreases |ops|
  {
    if ops == [] then s else Run(Step(s, ops[0]), ops[1..])
  }

  /** The largest size the semaphore is given along ops, or zero. */
  function LargestSize(size: int, ops: seq<Op>): (r: int)
    ensures r >= 0
  {
    if ops == [] then Max(0, size)
    else Max(LargestSize(size, ops[..|ops| - 1]), if ops[|ops| - 1].SetSize? then ops[|ops| - 1].n else 0)
  }

  lemma {:induction false} RunKeepsInv(s: System, ops: seq<Op>)
    requires Inv(s) && Runs(s, ops)
    ensures Inv(Run(s, ops))
    decreases |ops|
  {
    if ops != [] {
      hide Inv;
      StepKeepsInv(s, ops[0]);
      RunKeepsInv(Step(s, ops[0]), ops[1..]);
    }
  }

  lemma {:induction false} RunSplit(s: System, ops: seq<Op>, k: nat)
    requires Runs(s, ops) && k <= |ops|
    ensures Runs(s, ops[..k]) && Runs(Run(s, ops[..k]), ops[k..])
    ensures Run(s, ops) == Run(Run(s, ops[..k]), ops[k..])
    decreases |ops|
  {
    hide Step, Enabled;
    if k == 0 {
      assert ops[..0] == [] && ops[0..] == ops;
    } else {
      RunSplit(Step(s, ops[0]), ops[1..], k - 1);
      assert ops[..k][0] == ops[0] && ops[..k][1..] == ops[1..][..k - 1] && ops[k..] == ops[1..][k - 1..];
    }
  }

  lemma {:induction false} RunPeak(size: int, ops: seq<Op>)
    requires Runs(Init(size), ops)
    ensures Run(Init(size), ops).peak == LargestSize(size, ops)
  {
    if ops != [] {
      var n := |ops| - 1;
      RunSplit(Init(size), ops, n);
      RunPeak(size, ops[..n]);
      var s := Run(Init(size), ops[..n]);
      assert ops[n..] == [ops[n]];
      assert ops[n..][1..] == [];
      assert Run(s, [ops[n]]) == Step(s, ops[n]);
    }
  }

  lemma {:induction false} InitInv(size: int)
    ensures Inv(Init(size))
  {
  }

  /** In every interleaving: waiters wait only while the semaphore is full; the granted calls and then the queue are
      the arrivals that did not give up, in order; the permits in use are those granted and not released, and they
      never exceed the largest size ever set. */
  lemma {:induction false} EveryRun(size: int, ops: seq<Op>)
    requires Runs(Init(size), ops)
    ensures var s := Run(Init(size), ops);
            && (s.sem.waiters != [] ==> s.sem.used >= s.sem.size)
            && Without(s.arrivals, s.failed) == s.grants + s.sem.waiters
            && s.sem.used == |s.active|
            && (forall c :: c in s.active ==> c in s.grants)
            && s.sem.used <= LargestSize(size, ops)
  {
    InitInv(size);
    RunKeepsInv(Init(size), ops);
    RunPeak(size, ops);
  }

  /** A step that grants a permit leaves no more in use than the size it leaves behind. */
  lemma {:induction false} GrantingStepFits(s: System, op: Op)
    requires Inv(s) && Enabled(s, op)
    ensures |Step(s, op).grants| > |s.grants| ==> Step(s, op).sem.used <= Step(s, op).sem.size
  {
    if op.SetSize? {
      WokenUpToShape(s.sem, op.n);
    }
  }

  lemma {:induction false} FailedGrows(s: System, ops: seq<Op>)
    requires Runs(s, ops)
    ensures s.failed <= Run(s, ops).failed
    decreases |ops|
  {
    if ops != [] {
      FailedGrows(Step(s, ops[0]), ops[1..]);
    }
  }

  /** A call that has returned an error holds no permit, is not queued, and is never granted one later. */
  lemma {:induction false} ErrorIsFinal(size: int, ops: seq<Op>, k: nat, c: Call)
    requires Runs(Init(size), ops) && k <= |ops|
    requires Runs(Init(size), ops[..k]) && c in Run(Init(size), ops[..k]).failed
    ensures var s := Run(Init(size), ops);
            c in s.failed && c !in s.grants && c !in s.active && c !in s.sem.waiters && c !in s.blocked
  {
    InitInv(size);
    RunKeepsInv(Init(size), ops);
    RunSplit(Init(size), ops, k);
    FailedGrows(Run(Init(size), ops[..k]), ops[k..]);
    GrantsAndQueue(Run(Init(size), ops));
  }

  /** A call woken while its context or timer fires keeps its permit and returns no error;
      one not woken leaves the queue with an error and no permit. */
  lemma {:induction false} GiveUpOutcome(s: System, c: Call)
    requires Inv(s) && c in s.blocked
    ensures var s' := Step(s, GiveUp(c));
            if c in s.sem.closed
            then c in s'.active && c !in s'.failed && s'.sem == s.sem
            else c in s'.failed && c !in s'.active && c !in s'.sem.waiters && s'.sem.used == s.sem.used
  {
    hide Without;
    GrantsAndQueue(s);
    WithoutElements(s.sem.waiters, {c});
  }

  /** Where the element at j of s lands in Without(s, gone). */
  lemma {:induction false} WithoutPosition(s: seq<Call>, gone: set<Call>, j: nat)
    requires j < |s| && s[j] !in gone
    ensures var q := |Without(s[..j], gone)|; q < |Without(s, gone)| && Without(s, gone)[q] == s[j]
  {
    var n := |s| - 1;
    if j == n {
      assert s[..j] == s[..n];
    } else {
      WithoutPosition(s[..n], gone, j);
      assert s[..n][..j] == s[..j];
    }
  }

  /** Permits are granted in arrival order among the calls that did not give up. */
  lemma {:induction false} GrantedInArrivalOrder(s: System, i: nat, j: nat)
    requires Inv(s) && i < j < |s.arrivals|
    requires s.arrivals[i] !in s.failed && s.arrivals[j] !in s.failed
    requires s.arrivals[j] in s.grants
    ensures exists p, q :: 0 <= p < q < |s.grants| && s.grants[p] == s.arrivals[i] && s.grants[q] == s.arrivals[j]
  {
    hide Without, Inv;
    var p, q := |Without(s.arrivals[..i], s.failed)|, |Without(s.arrivals[..j], s.failed)|;
    WithoutPosition(s.arrivals, s.failed, i);
    WithoutPosition(s.arrivals, s.failed, j);
    WithoutPosition(s.arrivals[..j], s.failed, i);
    assert s.arrivals[..j][..i] == s.arrivals[..i];
    GrantedComeFirst(s, q);
    assert s.grants[p] == s.arrivals[i] && s.grants[q] == s.arrivals[j];
  }

  /** A granted call stands among the grants, not in the queue behind them. */
  lemma {:induction false} GrantedComeFirst(s: System, q: nat)
    requires Inv(s) && q < |Without(s.arrivals, s.failed)| && Without(s.arrivals, s.failed)[q] in s.grants
    ensures q < |s.grants| && s.grants <= Without(s.arrivals, s.failed)
  {
    hide Without, Distinct;
    GrantsAndQueue(s);
    var g, w := s.grants, s.sem.waiters;
    assert forall k :: |g| <= k < |g| + |w| ==> (g + w)[k] == w[k - |g|];
  }

  /** An immediate grant never overtakes a waiter. */
  lemma {:induction false} ImmediateGrantOvertakesNoOne(s: System, op: Op)
    requires Inv(s) && (op.Acquire? || op.AcquireNow?) && Enabled(s, op)
    ensures op.c in Step(s, op).active ==> s.sem.waiters == []
  {
    hide Without;
    GrantsAndQueue(s);
  }

  // ---------------------------------------------------------------- bounded waiting

  /** The releases among ops. */
  function Puts(ops: seq<Op>): nat
    decreases |ops|
  {
    if ops == [] then 0 else (if ops[0].Put? then 1 else 0) + Puts(ops[1..])
  }

  /** How many places are ahead of c in the queue. */
  function Place(waiters: seq<Call>, c: Call): nat
    requires c in waiters
  {
    if waiters[0] == c then 0 else 1 + Place(waiters[1..], c)
  }

  /** The releases that put c at the head of the queue and free a permit for it, while the size is at least floor. */
  function Needed(m: Sem, c: Call, floor: int): int
    requires c in m.waiters
  {
    m.used - floor + 1 + Place(m.waiters, c)
  }

  lemma {:induction false} PlaceOf(waiters: seq<Call>, k: nat)
    requires k < |waiters| && Distinct(waiters)
    ensures Place(waiters, waiters[k]) == k
    decreases k
  {
    if k > 0 {
      assert waiters[1..][k - 1] == waiters[k];
      PlaceOf(waiters[1..], k - 1);
    }
  }

  /** Taking the first k off the queue brings those behind them k places forward. */
  lemma {:induction false} PlaceAfter(waiters: seq<Call>, k: nat, c: Call)
    requires k <= |waiters| && Distinct(waiters) && c in waiters[k..]
    ensures Place(waiters, c) == Place(waiters[k..], c) + k
  {
    var i :| 0 <= i < |waiters[k..]| && waiters[k..][i] == c;
    assert waiters[k + i] == c;
    PlaceOf(waiters, k + i);
    PlaceOf(waiters[k..], i);
  }

  lemma {:induction false} PlaceAppend(waiters: seq<Call>, c: Call, d: Call)
    requires c in waiters
    ensures Place(waiters + [d], c) == Place(waiters, c)
  {
    if waiters[0] != c {
      assert (waiters + [d])[1..] == waiters[1..] + [d];
      PlaceAppend(waiters[1..], c, d);
    }
  }

  /** When another gives up no one falls back. */
  lemma {:induction false} PlaceWithout(waiters: seq<Call>, c: Call, d: Call)
    requires c in waiters && c != d
    ensures c in Without(waiters, {d}) && Place(Without(waiters, {d}), c) <= Place(waiters, c)
  {
    WithoutElements(waiters, {d});
    var rest := Without(waiters[1..], {d});
    assert waiters == [waiters[0]] + waiters[1..];
    WithoutConcat([waiters[0]], waiters[1..], {d});
    WithoutAppend([], waiters[0], {d});
    assert [] + [waiters[0]] == [waiters[0]];
    if waiters[0] != c {
      PlaceWithout(waiters[1..], c, d);
      if waiters[0] == d {
        assert Without(waiters, {d}) == rest;
      } else {
        assert Without(waiters, {d}) == [waiters[0]] + rest;
        assert ([waiters[0]] + rest)[1..] == rest;
      }
    } else {
      assert Without(waiters, {d})[0] == c;
    }
  }

  /** Each step that leaves c in the queue: a release counts one off, and nothing counts one on. */
  lemma {:induction false} StepNeeds(s: System, op: Op, c: Call, floor: int)
    requires Inv(s) && Enabled(s, op) && c in s.sem.waiters && op != GiveUp(c)
    ensures c in Step(s, op).sem.waiters || c in Step(s, op).grants
    ensures c in Step(s, op).sem.waiters ==>
              Needed(Step(s, op).sem, c, floor) <= Needed(s.sem, c, floor) - (if op.Put? then 1 else 0)
    ensures c in Step(s, op).sem.waiters && !op.GiveUp? ==>
              Needed(Step(s, op).sem, c, floor) == Needed(s.sem, c, floor) - (if op.Put? then 1 else 0)
  {
    hide Without, Place, Resized, Released, Distinct, Inv, ToSet;
    QueueIsDistinct(s);
    NoRoomForOthers(s);
    match op
    case Acquire(d) => PlaceAppend(s.sem.waiters, c, d);
    case AcquireNow(d) =>
    case Awake(d) =>
    case GiveUp(d) => PlaceWithout(s.sem.waiters, c, d);
    case Put(d) =>
      HolderUses(s, d);
      ReleasedShape(s.sem);
      WakesInOrder(s.sem, Released(s.sem), c);
    case SetSize(n) =>
      ResizedShape(s.sem, n);
      WakesInOrder(s.sem, Resized(s.sem, n), c);
  }

  lemma {:induction false} NoRoomForOthers(s: System)
    requires Inv(s) && s.sem.waiters != []
    ensures !HasRoom(s.sem)
  {
  }

  lemma {:induction false} HolderUses(s: System, c: Call)
    requires Inv(s) && c in s.active
    ensures s.sem.used > 0
  {
    PutPermit(s, c);
  }

  /** Waking some of the queue takes c with it or brings it forward by as many. */
  lemma {:induction false} WakesInOrder(m: Sem, r: Sem, c: Call)
    requires Distinct(m.waiters) && c in m.waiters && |r.waiters| <= |m.waiters|
    requires r.waiters == m.waiters[|m.waiters| - |r.waiters|..]
    ensures c in r.waiters || c in m.waiters[..|m.waiters| - |r.waiters|]
    ensures c in r.waiters ==> Place(r.waiters, c) == Place(m.waiters, c) - (|m.waiters| - |r.waiters|)
  {
    var k := |m.waiters| - |r.waiters|;
    assert m.waiters == m.waiters[..k] + m.waiters[k..];
    if c in r.waiters {
      PlaceAfter(m.waiters, k, c);
    }
  }

  lemma {:induction false} GrantsGrow(s: System, ops: seq<Op>, c: Call)
    requires Runs(s, ops) && c in s.grants
    ensures c in Run(s, ops).grants
    decreases |ops|
  {
    if ops != [] {
      GrantsGrow(Step(s, ops[0]), ops[1..], c);
    }
  }

  /** ops never resize the semaphore below floor, and c does not give up. */
  ghost predicate Patient(ops: seq<Op>, c: Call, floor: int) {
    forall i :: 0 <= i < |ops| ==> ops[i] != GiveUp(c) && (ops[i].SetSize? ==> ops[i].n >= floor)
  }

  lemma {:induction false} SizeStays(s: System, ops: seq<Op>, c: Call, floor: int)
    requires Runs(s, ops) && s.sem.size >= floor && Patient(ops, c, floor)
    ensures Run(s, ops).sem.size >= floor
    decreases |ops|
  {
    if ops != [] {
      assert ops[0].SetSize? ==> ops[0].n >= floor;
      assert Step(s, ops[0]).sem.size == if ops[0].SetSize? then ops[0].n else s.sem.size;
      SizeStays(Step(s, ops[0]), ops[1..], c, floor);
    }
  }

  lemma {:induction false} StillNeeds(s: System, ops: seq<Op>, c: Call, floor: int)
    requires Inv(s) && Runs(s, ops) && c in s.sem.waiters && Patient(ops, c, floor)
    ensures var s' := Run(s, ops);
            && (c in s'.grants || c in s'.sem.waiters)
            && (c in s'.sem.waiters ==> Needed(s'.sem, c, floor) <= Needed(s.sem, c, floor) - Puts(ops))
    decreases |ops|
  {
    if ops != [] {
      hide Inv, Needed, Step, Enabled;
      var s1 := Step(s, ops[0]);
      StepKeepsInv(s, ops[0]);
      StepNeeds(s, ops[0], c, floor);
      assert ops[0] != GiveUp(c);
      if c in s1.sem.waiters {
        StillNeeds(s1, ops[1..], c, floor);
      } else {
        GrantsGrow(s1, ops[1..], c);
        RunKeepsInv(s1, ops[1..]);
        GrantedIsNotQueued(Run(s1, ops[1..]), c);
      }
    }
  }

  lemma {:induction false} GrantedIsNotQueued(s: System, c: Call)
    requires Inv(s) && c in s.grants
    ensures c !in s.sem.waiters
  {
    GrantsAndQueue(s);
  }

  /** Bounded waiting: while the size stays at floor or above, the call at place k of the queue that does not give up has
      its permit after used - floor + 1 + k releases, whatever else arrives, gives up or is resized. */
  lemma {:induction false} BoundedWaiting(s: System, ops: seq<Op>, k: nat, floor: int)
    requires Inv(s) && Runs(s, ops) && k < |s.sem.waiters| && s.sem.size >= floor
    requires Patient(ops, s.sem.waiters[k], floor)
    ensures Puts(ops) >= s.sem.used - floor + 1 + k ==> s.sem.waiters[k] in Run(s, ops).grants
  {
    var c := s.sem.waiters[k];
    GrantsAndQueue(s);
    PlaceOf(s.sem.waiters, k);
    StillNeeds(s, ops, c, floor);
    RunKeepsInv(s, ops);
    SizeStays(s, ops, c, floor);
  }

  /** A release that grants c from the queue was the last one it needed. */
  lemma {:induction false} LastNeeded(s: System, op: Op, c: Call)
    requires Inv(s) && Enabled(s, op) && c in s.sem.waiters && !op.GiveUp? && !op.SetSize?
    requires c !in Step(s, op).sem.waiters
    ensures op.Put? && Needed(s.sem, c, s.sem.size) == 1
  {
    hide Without;
    if op.Put? {
      GrantsAndQueue(s);
      PutPermit(s, op.c);
      ReleasedShape(s.sem);
      PlaceOf(s.sem.waiters, 0);
    }
  }

  /** ops neither resize the semaphore nor give up. */
  ghost predicate Steady(ops: seq<Op>) {
    forall i :: 0 <= i < |ops| ==> !ops[i].GiveUp? && !ops[i].SetSize?
  }

  lemma {:induction false} QueuedExactly(s: System, ops: seq<Op>, c: Call)
    requires Inv(s) && Runs(s, ops) && c in s.sem.waiters && Steady(ops)
    ensures c in Run(s, ops).sem.waiters <==> Puts(ops) < Needed(s.sem, c, s.sem.size)
    decreases |ops|
  {
    if ops == [] {
      assert Needed(s.sem, c, s.sem.size) >= 1;
    } else {
      hide Inv, Needed, Step, Enabled;
      var op, s1 := ops[0], Step(s, ops[0]);
      assert !op.GiveUp? && !op.SetSize?;
      StepKeepsInv(s, op);
      StepNeeds(s, op, c, s.sem.size);
      SameSize(s, op);
      if c in s1.sem.waiters {
        QueuedExactly(s1, ops[1..], c);
      } else {
        LastNeeded(s, op, c);
        GrantsGrow(s1, ops[1..], c);
        RunKeepsInv(s1, ops[1..]);
        GrantedIsNotQueued(Run(s1, ops[1..]), c);
      }
    }
  }

  lemma {:induction false} SameSize(s: System, op: Op)
    requires Enabled(s, op) && !op.SetSize?
    ensures Step(s, op).sem.size == s.sem.size && Step(s, op).peak == s.peak
  {
  }

  /** With no one giving up and no resize, the call at place k is granted by exactly release number used - size + 1 + k. */
  lemma {:induction false} ServedExactly(s: System, ops: seq<Op>, k: nat)
    requires Inv(s) && Runs(s, ops) && k < |s.sem.waiters| && Steady(ops)
    ensures s.sem.waiters[k] in Run(s, ops).grants <==> Puts(ops) >= s.sem.used - s.sem.size + 1 + k
  {
    hide Inv, Step, Without;
    var c := s.sem.waiters[k];
    QueueIsDistinct(s);
    PlaceOf(s.sem.waiters, k);
    QueuedExactly(s, ops, c);
    StillNeeds(s, ops, c, s.sem.size);
    RunKeepsInv(s, ops);
    if c in Run(s, ops).grants {
      GrantedIsNotQueued(Run(s, ops), c);
    }
  }

  lemma {:induction false} QueueIsDistinct(s: System)
    requires Inv(s)
    ensures Distinct(s.sem.waiters)
  {
    GrantsAndQueue(s);
  }

  /** A call that was woken can return, and then holds a permit that it can release. */
  lemma {:induction false} WokenCanReturn(s: System, c: Call)
    requires Inv(s) && c in s.blocked && c !in s.sem.waiters
    ensures Enabled(s, Awake(c))
    ensures var s' := Step(s, Awake(c)); c !in s'.blocked && c in s'.active && s'.sem == s.sem && Enabled(s', Put(c))
  {
    hide Fifo, Conserved;
  }

  /** Any new call can be made: with room it has a permit at once; without, it joins the end of the queue if it may wait and
      fails holding nothing if it may not. */
  lemma {:induction false} NewCall(s: System, c: Call)
    requires c !in s.arrivals && c !in s.failed
    ensures Enabled(s, Acquire(c)) && Enabled(s, AcquireNow(c))
    ensures var waits, now := Step(s, Acquire(c)), Step(s, AcquireNow(c));
            if HasRoom(s.sem)
            then waits == now && c in now.active && now.sem == s.sem.(used := s.sem.used + 1)
            else && waits.sem == s.sem.(waiters := s.sem.waiters + [c]) && c in waits.blocked
                 && now == s.(failed := s.failed + {c})
  {
  }
}
