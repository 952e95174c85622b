/** BucketedWindow with the statistics of timedStats: a ring of time buckets and their running summary. */
module BucketedWindows {
  import opened Division

  datatype Stat = Stat(successes: nat, failures: nat) {
    function Plus(o: Stat): Stat {
      Stat(successes + o.successes, failures + o.failures)
    }

    predicate AtMost(o: Stat) {
      successes <= o.successes && failures <= o.failures
    }

    /** RemoveFn, on unsigned counters: o must not exceed this. */
    function Minus(o: Stat): Stat
      requires o.AtMost(this)
    {
      Stat(successes - o.successes, failures - o.failures)
    }
  }

  const ZERO := Stat(0, 0)

  /** A recorded result and the bucket time it was recorded at. */
  datatype Event = Event(time: nat, stat: Stat)

  /** The total of the events at bucket time k. */
  function At(events: seq<Event>, k: int): Stat {
    if events == [] then ZERO
    else
      var e, rest := events[|events| - 1], At(events[..|events| - 1], k);
      if e.time == k then rest.Plus(e.stat) else rest
  }

  /** The total of the events after bucket time lo. */
  function After(events: seq<Event>, lo: int): Stat {
    if events == [] then ZERO
    else
      var e, rest := events[|events| - 1], After(events[..|events| - 1], lo);
      if e.time > lo then rest.Plus(e.stat) else rest
  }

  /** The total of the first n buckets. */
  function TotalTo(buckets: seq<Stat>, n: nat): Stat
    requires n <= |buckets|
  {
    if n == 0 then ZERO else TotalTo(buckets, n - 1).Plus(buckets[n - 1])
  }

  function Total(buckets: seq<Stat>): Stat {
    TotalTo(buckets, |buckets|)
  }

  ghost predicate UpTo(events: seq<Event>, head: nat) {
    forall i :: 0 <= i < |events| ==> events[i].time <= head
  }

  // ---------------------------------------------------------------- totals

  /** Expiring one bucket time takes exactly its events out of the window. */
  lemma {:induction false} AfterNext(events: seq<Event>, lo: int)
    ensures At(events, lo + 1).AtMost(After(events, lo))
    ensures After(events, lo + 1) == After(events, lo).Minus(At(events, lo + 1))
  {
    if events != [] {
      AfterNext(events[..|events| - 1], lo);
    }
  }

  lemma {:induction false} NothingAfter(events: seq<Event>, head: nat, lo: int)
    requires UpTo(events, head)
    ensures lo >= head ==> After(events, lo) == ZERO
    ensures lo > head || lo < 0 ==> At(events, lo) == ZERO
  {
    if events != [] {
      NothingAfter(events[..|events| - 1], head, lo);
    }
  }

  lemma {:induction false} TotalToUpdate(buckets: seq<Stat>, j: nat, v: Stat, n: nat)
    requires j < |buckets| && n <= |buckets|
    ensures if n <= j then TotalTo(buckets[j := v], n) == TotalTo(buckets, n)
            else TotalTo(buckets[j := v], n).Plus(buckets[j]) == TotalTo(buckets, n).Plus(v)
  {
    if n > 0 {
      TotalToUpdate(buckets, j, v, n - 1);
    }
  }

  lemma {:induction false} TotalUpdate(buckets: seq<Stat>, j: nat, v: Stat)
    requires j < |buckets|
    ensures Total(buckets[j := v]).Plus(buckets[j]) == Total(buckets).Plus(v)
  {
    TotalToUpdate(buckets, j, v, |buckets|);
  }

  lemma {:induction false} TotalOfZeros(buckets: seq<Stat>, n: nat)
    requires n <= |buckets| && forall i :: 0 <= i < |buckets| ==> buckets[i] == ZERO
    ensures TotalTo(buckets, n) == ZERO
  {
    if n > 0 {
      TotalOfZeros(buckets, n - 1);
    }
  }

  lemma {:induction false} ZeroTotal(buckets: seq<Stat>, n: nat, i: nat)
    requires i < n <= |buckets| && TotalTo(buckets, n) == ZERO
    ensures buckets[i] == ZERO
  {
    if i < n - 1 {
      ZeroTotal(buckets, n - 1, i);
    }
  }

  // ---------------------------------------------------------------- the window

  /** The buckets hold the events of the last |buckets| bucket times, each in its slot, and summary is their total. */
  ghost predicate Represents(buckets: seq<Stat>, summary: Stat, head: int, events: seq<Event>)
    requires |buckets| > 0
  {
    && (forall k :: head - |buckets| < k <= head ==> Slot(buckets, k) == At(events, k))
    && summary == After(events, head - |buckets|)
    && summary == Total(buckets)
  }

  ghost function Slot(buckets: seq<Stat>, k: int): Stat
    requires |buckets| > 0
  {
    buckets[k % |buckets|]
  }

  /** Emptying the bucket of the next bucket time slides the window by one. */
  lemma {:induction false} ExpireOne(buckets: seq<Stat>, summary: Stat, head: int, events: seq<Event>)
    requires |buckets| > 0 && Represents(buckets, summary, head, events)
    requires At(events, head + 1) == ZERO
    ensures Slot(buckets, head + 1).AtMost(summary)
    ensures Represents(buckets[(head + 1) % |buckets| := ZERO], summary.Minus(Slot(buckets, head + 1)), head + 1, events)
  {
    hide At, After, Total;
    var b := |buckets|;
    var j := (head + 1) % b;
    assert Slot(buckets, head + 1 - b) == At(events, head + 1 - b);
    ModuloShift(head + 1, b);
    AfterNext(events, head - b);
    TotalUpdate(buckets, j, ZERO);
    var buckets' := buckets[j := ZERO];
    forall k | head + 1 - b < k <= head + 1 ensures Slot(buckets', k) == At(events, k) {
      if k < head + 1 {
        ModuloDistinct(k, head + 1, b);
        assert Slot(buckets, k) == At(events, k);
      }
    }
  }

  /** Once the window has slid past every event, it may jump to any later bucket time. */
  lemma {:induction false} ExpireAll(buckets: seq<Stat>, summary: Stat, last: nat, head: int, newHead: int, events: seq<Event>)
    requires |buckets| > 0 && Represents(buckets, summary, head, events)
    requires UpTo(events, last) && last + |buckets| <= head <= newHead
    ensures Represents(buckets, summary, newHead, events)
  {
    NothingAfter(events, last, head - |buckets|);
    NothingAfter(events, last, newHead - |buckets|);
    forall k | newHead - |buckets| < k <= newHead ensures Slot(buckets, k) == At(events, k) {
      NothingAfter(events, last, k);
      ZeroTotal(buckets, |buckets|, k % |buckets|);
    }
  }

  lemma {:induction false} ExpireRest(
    buckets: seq<Stat>, summary: Stat, last: nat, head: int, newHead: nat, events: seq<Event>)
    requires |buckets| > 0 && Represents(buckets, summary, head, events) && UpTo(events, last) && last <= newHead
    requires head == newHead || (head == last + |buckets| && head <= newHead)
    ensures Represents(buckets, summary, newHead, events) && UpTo(events, newHead)
  {
    if head < newHead {
      ExpireAll(buckets, summary, last, head, newHead, events);
    }
  }

  /** A window with nothing in it. */
  lemma {:induction false} EmptyWindow(buckets: seq<Stat>)
    requires |buckets| > 0 && forall i :: 0 <= i < |buckets| ==> buckets[i] == ZERO
    ensures Represents(buckets, ZERO, 0, []) && UpTo([], 0)
  {
    TotalOfZeros(buckets, |buckets|);
    forall k | 0 - |buckets| < k <= 0 ensures Slot(buckets, k) == At([], k) {
      assert Slot(buckets, k) == buckets[k % |buckets|];
    }
  }

  /** Counting a result into the current bucket and the summary. */
  lemma {:induction false} RecordOne(buckets: seq<Stat>, summary: Stat, head: nat, events: seq<Event>, stat: Stat)
    requires |buckets| > 0 && Represents(buckets, summary, head, events)
    ensures Represents(buckets[head % |buckets| := Slot(buckets, head).Plus(stat)], summary.Plus(stat), head,
                       events + [Event(head, stat)])
  {
    var b := |buckets|;
    var events' := events + [Event(head, stat)];
    assert events'[..|events|] == events;
    TotalUpdate(buckets, head % b, Slot(buckets, head).Plus(stat));
    var buckets' := buckets[head % b := Slot(buckets, head).Plus(stat)];
    forall k | head - b < k <= head ensures Slot(buckets', k) == At(events', k) {
      assert Slot(buckets, k) == At(events, k);
      if k < head {
        ModuloDistinct(k, head, b);
      }
    }
  }

  class TimedStats {
    const bucketNanos: nat
    const buckets: array<Stat>
    var summary: Stat
    var headTime: nat
    ghost var events: seq<Event>
    ghost var results: seq<Result>

    /** Buckets and summary represent the events as seen from the head. */
    ghost predicate Current()
      reads this, buckets
    {
      && bucketNanos > 0 && buckets.Length > 0
      && UpTo(events, headTime)
      && Represents(buckets[..], summary, headTime, events)
    }

    /** And the events are the results recorded since the last reset, each in the bucket of its time, or of the latest
        time seen if the clock went back. */
    ghost predicate Valid()
      reads this, buckets
    {
      Current() && events == EventsOf(results, bucketNanos) && headTime == HeadOf(results, bucketNanos)
    }

    constructor (bucketCount: nat, bucketNanos: nat)
      requires bucketCount > 0 && bucketNanos > 0
      ensures Valid() && results == [] && fresh(buckets)
      ensures buckets.Length == bucketCount && this.bucketNanos == bucketNanos
    {
      hide Represents, UpTo;
      this.bucketNanos := bucketNanos;
      buckets := new Stat[bucketCount](_ => ZERO);
      summary, headTime, events, results := ZERO, 0, [], [];
      new;
      EmptyWindow(buckets[..]);
    }

    /** Slides the window to the bucket of time now, unless it is there or past it; no subtraction underflows. */
    method ExpireBuckets(now: nat) returns (bucket: nat)
      requires Current()
      modifies this`summary, this`headTime, buckets
      ensures Current()
      ensures headTime == (if now / bucketNanos > old(headTime) then now / bucketNanos else old(headTime))
      ensures bucket == headTime % buckets.Length
    {
      hide At, After, Total, Represents, UpTo;
      var newHead := now / bucketNanos;
      if newHead > headTime {
        var bucketsToMove := if buckets.Length < newHead - headTime then buckets.Length else newHead - headTime;
        for i := 0 to bucketsToMove
          invariant headTime == old(headTime) && UpTo(events, headTime)
          invariant Represents(buckets[..], summary, headTime + i, events)
        {
          var j := (headTime + i + 1) % buckets.Length;
          NothingAfter(events, headTime, headTime + i + 1);
          ExpireOne(buckets[..], summary, headTime + i, events);
          ghost var before := buckets[..];
          summary := summary.Minus(buckets[j]);
          buckets[j] := ZERO;
          assert buckets[..] == before[j := ZERO];
        }
        ExpireRest(buckets[..], summary, headTime, headTime + bucketsToMove, newHead, events);
        headTime := newHead;
      }
      bucket := headTime % buckets.Length;
    }

    /** Records a result. With a clock that never goes back the summary then counts every result of age at most
        (bucketCount - 1) * bucketNanos and none of age bucketCount * bucketNanos or more. */
    method Record(now: nat, stat: Stat)
      requires Valid()
      modifies this, buckets
      ensures Valid() && results == old(results) + [Result(now, stat)]
      ensures Chronological(results) ==> ByAge(summary, results, now, buckets.Length, bucketNanos)
    {
      hide At, After, Total, Represents, Chronological, ByAge;
      var bucket := ExpireBuckets(now);
      RecordOne(buckets[..], summary, headTime, events, stat);
      ghost var before := buckets[..];
      buckets[bucket] := buckets[bucket].Plus(stat);
      summary := summary.Plus(stat);
      events := events + [Event(headTime, stat)];
      assert buckets[..] == before[bucket := before[bucket].Plus(stat)];
      results := results + [Result(now, stat)];
      assert results[..|results| - 1] == old(results);
      if Chronological(results) {
        WindowOfRun(results, buckets.Length, bucketNanos);
        SummaryOf(buckets[..], summary, headTime, events);
      }
    }

    method RecordSuccess(now: nat)
      requires Valid()
      modifies this, buckets
      ensures Valid() && results == old(results) + [Result(now, Stat(1, 0))]
      ensures Chronological(results) ==> ByAge(summary, results, now, buckets.Length, bucketNanos)
    {
      Record(now, Stat(1, 0));
    }

    method RecordFailure(now: nat)
      requires Valid()
      modifies this, buckets
      ensures Valid() && results == old(results) + [Result(now, Stat(0, 1))]
      ensures Chronological(results) ==> ByAge(summary, results, now, buckets.Length, bucketNanos)
    {
      Record(now, Stat(0, 1));
    }

    method Reset()
      requires Valid()
      modifies this, buckets
      ensures Valid() && results == []
    {
      hide Represents, UpTo;
      for i := 0 to buckets.Length
        invariant forall j :: 0 <= j < i ==> buckets[j] == ZERO
      {
        buckets[i] := ZERO;
      }
      summary, headTime, events, results := ZERO, 0, [], [];
      EmptyWindow(buckets[..]);
    }
  }

  lemma {:induction false} SummaryOf(buckets: seq<Stat>, summary: Stat, head: int, events: seq<Event>)
    requires |buckets| > 0 && Represents(buckets, summary, head, events)
    ensures summary == After(events, head - |buckets|)
  {
  }

  // ---------------------------------------------------------------- what a run leaves in the window

  datatype Result = Result(now: nat, stat: Stat)

  /** The bucket time after a run: the latest seen, whatever the clock did. */
  function HeadOf(results: seq<Result>, nanos: nat): nat
    requires nanos > 0
  {
    if results == [] then 0
    else
      var head, t := HeadOf(results[..|results| - 1], nanos), results[|results| - 1].now / nanos;
      if t > head then t else head
  }

  /** The events TimedStats has recorded after a run since reset. */
  function EventsOf(results: seq<Result>, nanos: nat): (r: seq<Event>)
    requires nanos > 0
    ensures |r| == |results|
  {
    if results == [] then []
    else EventsOf(results[..|results| - 1], nanos) + [Event(HeadOf(results, nanos), results[|results| - 1].stat)]
  }

  /** The total of the results no older than age at time now. */
  function NoOlderThan(results: seq<Result>, now: int, age: int): Stat {
    if results == [] then ZERO
    else
      var r, rest := results[|results| - 1], NoOlderThan(results[..|results| - 1], now, age);
      if now - r.now <= age then rest.Plus(r.stat) else rest
  }

  /** counted holds every result of age at most (count - 1) * nanos at time now, and none of age count * nanos or more. */
  predicate ByAge(counted: Stat, results: seq<Result>, now: int, count: nat, nanos: nat) {
    && NoOlderThan(results, now, nanos * (count - 1)).AtMost(counted)
    && counted.AtMost(NoOlderThan(results, now, nanos * count - 1))
  }

  predicate Chronological(results: seq<Result>) {
    forall i, j :: 0 <= i < j < |results| ==> results[i].now <= results[j].now
  }

  lemma {:induction false} ChronologicalHead(results: seq<Result>, nanos: nat)
    requires nanos > 0 && results != [] && Chronological(results)
    ensures HeadOf(results, nanos) == results[|results| - 1].now / nanos
  {
    var n := |results| - 1;
    if n > 0 {
      ChronologicalHead(results[..n], nanos);
      QuotientMonotone(results[n - 1].now, results[n].now, nanos);
    } else {
      assert results[..0] == [];
      QuotientMonotone(0, results[0].now, nanos);
      assert 0 / nanos == 0;
    }
  }

  /** An event is in the window when it is at most count - 1 buckets old, and out of it when it is count buckets old. */
  lemma {:induction false} AgeInBuckets(t: nat, now: nat, count: nat, nanos: nat)
    requires nanos > 0 && t <= now
    ensures now - t <= nanos * (count - 1) ==> t / nanos > now / nanos - count
    ensures now - t >= nanos * count ==> t / nanos <= now / nanos - count
  {
    Quotient(t, nanos);
    Distribute(nanos, t / nanos, count);
    Distribute(nanos, count - 1, 1);
    ReachesMultiple(now, nanos, t / nanos + count);
  }

  lemma {:induction false} WindowByAge(results: seq<Result>, now: nat, count: nat, nanos: nat)
    requires nanos > 0 && Chronological(results)
    requires forall i :: 0 <= i < |results| ==> results[i].now <= now
    ensures ByAge(After(EventsOf(results, nanos), now / nanos - count), results, now, count, nanos)
  {
    if results != [] {
      var n := |results| - 1;
      WindowByAge(results[..n], now, count, nanos);
      ChronologicalHead(results, nanos);
      AgeInBuckets(results[n].now, now, count, nanos);
      assert EventsOf(results, nanos)[..n] == EventsOf(results[..n], nanos);
    }
  }

  /** With a clock that never goes back, right after a result is recorded the last count buckets hold every result
      of age at most (count - 1) * nanos, and none of age count * nanos or more. */
  lemma {:induction false} WindowOfRun(results: seq<Result>, count: nat, nanos: nat)
    requires nanos > 0 && results != [] && Chronological(results)
    ensures ByAge(After(EventsOf(results, nanos), HeadOf(results, nanos) - count), results,
                  results[|results| - 1].now, count, nanos)
  {
    ChronologicalHead(results, nanos);
    WindowByAge(results, results[|results| - 1].now, count, nanos);
  }
}
