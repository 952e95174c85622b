/** MaxWindow: the maximum over a sliding time window, kept in a monotonic deque. */
module MaxWindows {

  datatype Entry = Entry(value: int, time: int)

  /** The deque without the entries at its front that have expired. */
  function DropExpired(deque: seq<Entry>, cutoff: int): seq<Entry> {
    if deque != [] && deque[0].time <= cutoff then DropExpired(deque[1..], cutoff) else deque
  }

  /** The deque without the entries at its back that value dominates. */
  function DropDominated(deque: seq<Entry>, value: int): seq<Entry> {
    if deque != [] && deque[|deque| - 1].value <= value then DropDominated(deque[..|deque| - 1], value) else deque
  }

  /** What remains of the deque in front of e. */
  function Kept(deque: seq<Entry>, window: int, e: Entry): seq<Entry> {
    DropDominated(DropExpired(deque, e.time - window), e.value)
  }

  function Added(deque: seq<Entry>, window: int, e: Entry): (r: seq<Entry>)
    ensures r != []
  {
    Kept(deque, window, e) + [e]
  }

  class MaxWindow {
    const window: int
    var deque: seq<Entry>

    constructor (window: int)
      ensures this.window == window && deque == []
    {
      this.window := window;
      deque := [];
    }

    predicate Configured() {
      window > 0
    }

    method Add(value: int, now: int) returns (max: int)
      modifies this
      ensures deque == Added(old(deque), window, Entry(value, now))
      ensures max == if Configured() then deque[0].value else 0
    {
      var cutoff := now - window;
      var start := 0;
      while start < |deque| && deque[start].time <= cutoff
        invariant 0 <= start <= |deque| && deque == old(deque)
        invariant DropExpired(deque[start..], cutoff) == DropExpired(deque, cutoff)
      {
        start := start + 1;
      }
      deque := deque[start..];
      while |deque| > 0 && deque[|deque| - 1].value <= value
        invariant DropDominated(deque, value) == DropDominated(DropExpired(old(deque), cutoff), value)
        decreases |deque|
      {
        deque := deque[..|deque| - 1];
      }
      deque := deque + [Entry(value, now)];
      max := Value();
    }

    /** The maximum as of the last addition; a window that was never added to has none. */
    method Value() returns (max: int)
      requires Configured() ==> deque != []
      ensures max == if Configured() then deque[0].value else 0
    {
      if !Configured() {
        return 0;
      }
      max := deque[0].value;
    }

    method Reset()
      modifies this
      ensures deque == if Configured() then [] else old(deque)
    {
      if Configured() {
        deque := [];
      }
    }
  }

  // ---------------------------------------------------------------- the deque against the whole history

  /** The deque after the entries of history are added since the last reset. */
  function DequeOf(history: seq<Entry>, window: int): (r: seq<Entry>)
    ensures history != [] ==> r != []
  {
    if history == [] then [] else Added(DequeOf(history[..|history| - 1], window), window, history[|history| - 1])
  }

  ghost predicate IsMaximum(max: int, history: seq<Entry>, cutoff: int) {
    && (exists i :: 0 <= i < |history| && history[i].time > cutoff && history[i].value == max)
    && (forall i :: 0 <= i < |history| && history[i].time > cutoff ==> history[i].value <= max)
  }

  /** The last addition of history returned the maximum of the values with a time later than its own less the window. */
  ghost predicate ReturnsMaximum(history: seq<Entry>, window: int)
    requires history != []
  {
    IsMaximum(DequeOf(history, window)[0].value, history, history[|history| - 1].time - window)
  }

  function TimesOf(history: seq<Entry>): (r: seq<int>)
    ensures |r| == |history|
  {
    seq(|history|, i requires 0 <= i < |history| => history[i].time)
  }

  /** Times never go back. */
  predicate Chronological(history: seq<Entry>) {
    forall i, j :: 0 <= i < j < |history| ==> history[i].time <= history[j].time
  }

  /** Whatever is still live at the last time was live at every addition between, and those are live too. */
  predicate InOrder(times: seq<int>, window: int)
    requires times != []
  {
    var n := |times| - 1;
    var cutoff := times[n] - window;
    forall i, j :: 0 <= i < j < n && times[i] > cutoff ==> times[j] > cutoff && times[i] > times[j] - window
  }

  // ---------------------------------------------------------------- the invariant

  /** Values strictly fall along the deque. */
  ghost predicate Falling(deque: seq<Entry>) {
    forall i, j :: 0 <= i < j < |deque| ==> deque[i].value > deque[j].value
  }

  /** The entries later than cutoff come last. */
  ghost predicate Parted(deque: seq<Entry>, cutoff: int) {
    forall i, j :: 0 <= i < j < |deque| && deque[i].time > cutoff ==> deque[j].time > cutoff
  }

  /** Some live entry of the deque is at least as large as h. */
  ghost predicate Covered(deque: seq<Entry>, h: Entry, cutoff: int) {
    exists d :: d in deque && d.value >= h.value && d.time > cutoff
  }

  ghost predicate Inv(deque: seq<Entry>, history: seq<Entry>, cutoff: int) {
    && Falling(deque) && Parted(deque, cutoff)
    && (forall h :: h in history && h.time > cutoff ==> Covered(deque, h, cutoff))
    && (forall d :: d in deque ==> d in history)
  }

  /** Nothing but the expired entries in front goes, and all of those do. */
  lemma {:induction false} DropExpiredKeeps(deque: seq<Entry>, expiry: int)
    ensures var r := DropExpired(deque, expiry);
            && |r| <= |deque| && r == deque[|deque| - |r|..]
            && (forall i :: 0 <= i < |deque| - |r| ==> deque[i].time <= expiry)
            && (r != [] ==> r[0].time > expiry)
  {
    if deque != [] && deque[0].time <= expiry {
      DropExpiredKeeps(deque[1..], expiry);
    }
  }

  lemma {:induction false} DropExpiredMembers(deque: seq<Entry>, expiry: int)
    ensures var r := DropExpired(deque, expiry);
            && (forall d :: d in r ==> d in deque)
            && (forall d :: d in deque && d.time > expiry ==> d in r)
            && (Parted(deque, expiry) ==> forall d :: d in r ==> d.time > expiry)
  {
    hide DropExpired;
    var r := DropExpired(deque, expiry);
    DropExpiredKeeps(deque, expiry);
    var k := |deque| - |r|;
    assert forall i :: k <= i < |deque| ==> r[i - k] == deque[i];
    forall d | d in deque && d.time > expiry ensures d in r {
      var i :| 0 <= i < |deque| && deque[i] == d;
      assert r[i - k] == d;
    }
    if Parted(deque, expiry) && r != [] {
      assert deque[k].time > expiry;
    }
  }

  lemma {:induction false} BackKeepsOrder(deque: seq<Entry>, k: nat, cutoff: int)
    requires k <= |deque| && Falling(deque)
    ensures Falling(deque[k..]) && (Parted(deque, cutoff) ==> Parted(deque[k..], cutoff))
  {
    assert forall i :: 0 <= i < |deque| - k ==> deque[k..][i] == deque[k + i];
  }

  lemma {:induction false} DropExpiredOrder(deque: seq<Entry>, expiry: int, cutoff: int)
    requires Falling(deque)
    ensures var r := DropExpired(deque, expiry); Falling(r) && (Parted(deque, cutoff) ==> Parted(r, cutoff))
  {
    hide DropExpired, Falling, Parted;
    DropExpiredKeeps(deque, expiry);
    BackKeepsOrder(deque, |deque| - |DropExpired(deque, expiry)|, cutoff);
  }

  /** Nothing but the dominated entries at the back goes, and all of those do. */
  lemma {:induction false} DropDominatedKeeps(deque: seq<Entry>, value: int)
    ensures var r := DropDominated(deque, value);
            && r <= deque
            && (forall i :: |r| <= i < |deque| ==> deque[i].value <= value)
            && (r != [] ==> r[|r| - 1].value > value)
  {
    if deque != [] && deque[|deque| - 1].value <= value {
      DropDominatedKeeps(deque[..|deque| - 1], value);
    }
  }

  lemma {:induction false} DropDominatedMembers(deque: seq<Entry>, value: int)
    requires Falling(deque)
    ensures forall d :: d in DropDominated(deque, value) <==> d in deque && d.value > value
  {
    hide DropDominated;
    var r := DropDominated(deque, value);
    DropDominatedKeeps(deque, value);
    assert forall i :: 0 <= i < |r| ==> r[i] == deque[i] && r[i].value > value;
    forall d | d in deque && d.value > value ensures d in r {
      var i :| 0 <= i < |deque| && deque[i] == d;
      assert r[i] == d;
    }
  }

  lemma {:induction false} FrontKeepsOrder(front: seq<Entry>, deque: seq<Entry>, cutoff: int)
    requires front <= deque && Falling(deque)
    ensures Falling(front) && (Parted(deque, cutoff) ==> Parted(front, cutoff))
  {
    assert forall i :: 0 <= i < |front| ==> front[i] == deque[i];
  }

  lemma {:induction false} KeptShape(deque: seq<Entry>, window: int, cutoff: int, e: Entry)
    requires Falling(deque)
    ensures var kept := Kept(deque, window, e);
            && Falling(kept)
            && (forall d :: d in kept ==> d in DropExpired(deque, e.time - window) && d in deque && d.value > e.value)
            && (forall d :: d in deque && d.time > e.time - window && d.value > e.value ==> d in kept)
            && (Parted(deque, cutoff) ==> Parted(kept, cutoff))
            && (Parted(deque, e.time - window) ==> forall d :: d in kept ==> d.time > e.time - window)
  {
    hide DropExpired, DropDominated, Falling, Parted;
    var live := DropExpired(deque, e.time - window);
    DropExpiredOrder(deque, e.time - window, cutoff);
    DropExpiredMembers(deque, e.time - window);
    DropDominatedKeeps(live, e.value);
    DropDominatedMembers(live, e.value);
    FrontKeepsOrder(DropDominated(live, e.value), live, cutoff);
  }

  lemma {:induction false} AppendKeepsFalling(kept: seq<Entry>, e: Entry)
    requires Falling(kept) && forall d :: d in kept ==> d.value > e.value
    ensures Falling(kept + [e])
  {
  }

  lemma {:induction false} AppendKeepsParted(kept: seq<Entry>, cutoff: int, e: Entry)
    requires Parted(kept, cutoff) && forall d :: d in kept && d.time > cutoff ==> e.time > cutoff
    ensures Parted(kept + [e], cutoff)
  {
  }

  lemma {:induction false} AddKeepsCovered(deque: seq<Entry>, window: int, cutoff: int, e: Entry, h: Entry)
    requires Falling(deque) && Covered(deque, h, cutoff) && e.time > cutoff
    requires forall d :: d in deque && d.time > cutoff ==> d.time > e.time - window
    ensures Covered(Added(deque, window, e), h, cutoff)
  {
    hide DropExpired, DropDominated, Falling, Parted;
    KeptShape(deque, window, cutoff, e);
    var d :| d in deque && d.value >= h.value && d.time > cutoff;
    var r := Kept(deque, window, e) + [e];
    assert e in r;
    assert d.value > e.value ==> d in r;
  }

  /** An addition keeps the invariant if it is live whenever an earlier entry is, and expires no live entry. */
  lemma {:induction false} AddKeepsInv(deque: seq<Entry>, history: seq<Entry>, window: int, cutoff: int, e: Entry)
    requires Inv(deque, history, cutoff)
    requires forall h :: h in history && h.time > cutoff ==> e.time > cutoff && h.time > e.time - window
    ensures var r := Added(deque, window, e);
            && Inv(r, history + [e], cutoff)
            && (e.time - window == cutoff < e.time ==> forall d :: d in r ==> d.time > cutoff)
  {
    hide DropExpired, DropDominated, Falling, Parted, Covered;
    var kept, r := Kept(deque, window, e), Added(deque, window, e);
    KeptShape(deque, window, cutoff, e);
    AppendKeepsFalling(kept, e);
    AppendKeepsParted(kept, cutoff, e);
    assert r == kept + [e];
    forall h | h in history + [e] && h.time > cutoff ensures Covered(r, h, cutoff) {
      if h in history {
        AddKeepsCovered(deque, window, cutoff, e, h);
      } else {
        AddedCoversItself(deque, window, cutoff, e);
      }
    }
  }

  lemma {:induction false} AddedCoversItself(deque: seq<Entry>, window: int, cutoff: int, e: Entry)
    requires e.time > cutoff
    ensures Covered(Added(deque, window, e), e, cutoff)
  {
    assert e in Added(deque, window, e);
  }

  /** The first k entries are followed by live ones once live, and none of those expires them. */
  ghost predicate Tame(history: seq<Entry>, window: int, cutoff: int, k: nat)
    requires k <= |history|
  {
    forall i, j :: 0 <= i < j < k && history[i].time > cutoff ==>
      history[j].time > cutoff && history[i].time > history[j].time - window
  }

  lemma {:induction false} TameFront(history: seq<Entry>, window: int, cutoff: int, k: nat)
    requires k < |history| && Tame(history, window, cutoff, k + 1)
    ensures var e := history[k];
            forall h :: h in history[..k] && h.time > cutoff ==> e.time > cutoff && h.time > e.time - window
  {
    assert forall i :: 0 <= i < k ==> history[..k][i] == history[i];
  }

  lemma {:induction false} PrefixInv(history: seq<Entry>, window: int, cutoff: int, k: nat)
    requires k <= |history| && Tame(history, window, cutoff, k)
    ensures Inv(DequeOf(history[..k], window), history[..k], cutoff)
  {
    if k == 0 {
      NothingYet(cutoff, window);
    } else {
      var front, e := history[..k - 1], history[k - 1];
      PrefixInv(history, window, cutoff, k - 1);
      TameFront(history, window, cutoff, k - 1);
      hide *;
      assert history[..k] == front + [e];
      AddKeepsInv(DequeOf(front, window), front, window, cutoff, e);
      DequeOfAppend(front, e, window);
    }
  }

  lemma {:induction false} DequeOfAppend(front: seq<Entry>, e: Entry, window: int)
    ensures DequeOf(front + [e], window) == Added(DequeOf(front, window), window, e)
  {
    assert (front + [e])[..|front|] == front;
  }

  lemma {:induction false} NothingYet(cutoff: int, window: int)
    ensures Inv(DequeOf([], window), [], cutoff)
  {
  }

  /** After every history whose times are in order, the deque covers the live entries and holds no other. */
  lemma {:induction false} EveryRun(history: seq<Entry>, window: int)
    requires window > 0 && history != [] && InOrder(TimesOf(history), window)
    ensures var cutoff := history[|history| - 1].time - window;
            && Inv(DequeOf(history, window), history, cutoff)
            && forall d :: d in DequeOf(history, window) ==> d.time > cutoff
  {
    hide *;
    var n := |history| - 1;
    var cutoff, e, front := history[n].time - window, history[n], history[..n];
    InOrderTame(history, window);
    TameFront(history, window, cutoff, n);
    PrefixInv(history, window, cutoff, n);
    assert history == front + [e];
    AddKeepsInv(DequeOf(front, window), front, window, cutoff, e);
    DequeOfAppend(front, e, window);
  }

  lemma {:induction false} InOrderTame(history: seq<Entry>, window: int)
    requires window > 0 && history != [] && InOrder(TimesOf(history), window)
    ensures var n := |history| - 1;
            Tame(history, window, history[n].time - window, n) && Tame(history, window, history[n].time - window, n + 1)
  {
    assert forall i :: 0 <= i < |history| ==> TimesOf(history)[i] == history[i].time;
  }

  lemma {:induction false} HeadIsMaximum(deque: seq<Entry>, history: seq<Entry>, cutoff: int)
    requires Inv(deque, history, cutoff) && deque != [] && forall d :: d in deque ==> d.time > cutoff
    ensures IsMaximum(deque[0].value, history, cutoff)
  {
    hide Parted;
    HeadIsLargest(deque);
    assert deque[0] in deque;
    forall i | 0 <= i < |history| && history[i].time > cutoff ensures history[i].value <= deque[0].value {
      assert Covered(deque, history[i], cutoff);
    }
  }

  lemma {:induction false} HeadIsLargest(deque: seq<Entry>)
    requires Falling(deque)
    ensures forall d :: d in deque ==> d.value <= deque[0].value
  {
  }

  lemma {:induction false} OrderedReturnsMaximum(history: seq<Entry>, window: int)
    requires window > 0 && history != [] && InOrder(TimesOf(history), window)
    ensures ReturnsMaximum(history, window)
  {
    hide DequeOf, InOrder, TimesOf, Inv;
    EveryRun(history, window);
    HeadIsMaximum(DequeOf(history, window), history, history[|history| - 1].time - window);
  }

  // ---------------------------------------------------------------- times out of order lose a maximum

  /** An expired entry above all others leaves the deque. */
  lemma {:induction false} LargestExpires(deque: seq<Entry>, expiry: int, top: Entry)
    requires Falling(deque) && top.time <= expiry && forall d :: d in deque ==> d == top || d.value < top.value
    ensures forall d :: d in DropExpired(deque, expiry) ==> d.value < top.value
  {
    if deque != [] {
      if deque[0].time <= expiry {
        LargestExpires(deque[1..], expiry, top);
      } else {
        assert deque[0] in deque;
      }
    }
  }

  /** At these times a value 1 at i, with a 2 at j if j is dead at the end, and zeroes. */
  function Spoiler(times: seq<int>, cutoff: int, i: nat, j: nat): (r: seq<Entry>)
    ensures |r| == |times|
  {
    seq(|times|, k requires 0 <= k < |times| =>
      Entry(if k == i then 1 else if k == j && times[k] <= cutoff then 2 else 0, times[k]))
  }

  /** The deque after k of those entries: the 1 is gone after j, and the 2 that displaced it dies before the end. */
  ghost predicate Spoiled(deque: seq<Entry>, times: seq<int>, cutoff: int, i: nat, j: nat, k: nat)
    requires i < j < |times|
  {
    && Falling(deque)
    && forall d :: d in deque ==>
         || d.value == 0
         || (i < k <= j && d == Entry(1, times[i]))
         || (j < k && times[j] <= cutoff && d == Entry(2, times[j]))
  }

  lemma {:induction false} SpoilStep(deque: seq<Entry>, times: seq<int>, window: int, cutoff: int, i: nat, j: nat, k: nat)
    requires i < j < |times| && k < |times| && Spoiled(deque, times, cutoff, i, j, k)
    requires times[j] <= cutoff || times[i] <= times[j] - window
    ensures Spoiled(Added(deque, window, Spoiler(times, cutoff, i, j)[k]), times, cutoff, i, j, k + 1)
  {
    hide DropExpired, DropDominated, Falling;
    var e := Spoiler(times, cutoff, i, j)[k];
    KeptShape(deque, window, cutoff, e);
    AppendKeepsFalling(Kept(deque, window, e), e);
    if k == j && times[j] > cutoff {
      LargestExpires(deque, e.time - window, Entry(1, times[i]));
    }
  }

  lemma {:induction false} SpoilRun(times: seq<int>, window: int, cutoff: int, i: nat, j: nat, k: nat)
    requires i < j < |times| && k <= |times|
    requires times[j] <= cutoff || times[i] <= times[j] - window
    ensures Spoiled(DequeOf(Spoiler(times, cutoff, i, j)[..k], window), times, cutoff, i, j, k)
  {
    if k == 0 {
      NothingSpoiled(times, window, cutoff, i, j);
    } else {
      hide Added, Spoiled, DequeOf, Spoiler;
      var h := Spoiler(times, cutoff, i, j);
      SpoilRun(times, window, cutoff, i, j, k - 1);
      assert h[..k] == h[..k - 1] + [h[k - 1]];
      DequeOfAppend(h[..k - 1], h[k - 1], window);
      SpoilStep(DequeOf(h[..k - 1], window), times, window, cutoff, i, j, k - 1);
    }
  }

  lemma {:induction false} NothingSpoiled(times: seq<int>, window: int, cutoff: int, i: nat, j: nat)
    requires i < j < |times|
    ensures Spoiled(DequeOf([], window), times, cutoff, i, j, 0)
  {
  }

  /** A live entry followed by a dead one, or expired by a later addition, can be lost. */
  lemma {:induction false} OutOfOrderLosesMaximum(times: seq<int>, window: int, i: nat, j: nat)
    requires window > 0 && i < j < |times| - 1
    requires var cutoff := times[|times| - 1] - window;
             times[i] > cutoff && (times[j] <= cutoff || times[i] <= times[j] - window)
    ensures var h := Spoiler(times, times[|times| - 1] - window, i, j);
            TimesOf(h) == times && !ReturnsMaximum(h, window)
  {
    hide Added, Spoiled;
    var n := |times| - 1;
    var cutoff := times[n] - window;
    var h := Spoiler(times, cutoff, i, j);
    SpoilRun(times, window, cutoff, i, j, n);
    var deque := DequeOf(h[..n], window);
    SpoilEnd(deque, times, window, cutoff, i, j);
    assert DequeOf(h, window) == Added(deque, window, h[n]);
    assert DequeOf(h, window)[0] in DequeOf(h, window);
    assert h[i].value == 1 && h[i].time > cutoff;
  }

  lemma {:induction false} SpoilEnd(deque: seq<Entry>, times: seq<int>, window: int, cutoff: int, i: nat, j: nat)
    requires i < j < |times| - 1 && cutoff == times[|times| - 1] - window
    requires Spoiled(deque, times, cutoff, i, j, |times| - 1)
    ensures forall d :: d in Added(deque, window, Spoiler(times, cutoff, i, j)[|times| - 1]) ==> d.value == 0
  {
    hide DropExpired, DropDominated, Falling, Parted;
    KeptShape(deque, window, cutoff, Spoiler(times, cutoff, i, j)[|times| - 1]);
    if times[j] <= cutoff {
      LargestExpires(deque, cutoff, Entry(2, times[j]));
    }
  }

  /** At any given times, the last addition returns the maximum of the live values, whatever the values are, if and only
      if the times are in order. */
  lemma {:induction false} MaximumExactly(times: seq<int>, window: int)
    requires window > 0 && times != []
    ensures InOrder(times, window) <==> forall history :: TimesOf(history) == times ==> ReturnsMaximum(history, window)
  {
    hide DequeOf, ReturnsMaximum;
    if InOrder(times, window) {
      forall history | TimesOf(history) == times ensures ReturnsMaximum(history, window) {
        OrderedReturnsMaximum(history, window);
      }
    } else {
      var n := |times| - 1;
      var i, j :| 0 <= i < j < n && times[i] > times[n] - window &&
                  !(times[j] > times[n] - window && times[i] > times[j] - window);
      OutOfOrderLosesMaximum(times, window, i, j);
    }
  }

  /** For every run of additions whose times never go back, Add returns the maximum of all values added since the last
      reset with a time later than now - window. */
  lemma {:induction false} AddReturnsMaximum(history: seq<Entry>, window: int)
    requires window > 0 && history != [] && Chronological(history)
    ensures ReturnsMaximum(history, window)
  {
    ChronologicalInOrder(history, window);
    OrderedReturnsMaximum(history, window);
  }

  lemma {:induction false} ChronologicalInOrder(history: seq<Entry>, window: int)
    requires history != [] && Chronological(history)
    ensures InOrder(TimesOf(history), window)
  {
  }

  /** The order of times matters: an addition with an earlier time may discard an entry that outlives it. Of the values
      3 at time 100, 5 at time 95 and 1 at time 106 with a window of 10, the 3 is live at the end, yet 1 is returned. */
  lemma {:induction false} EarlierTimeLosesMaximum()
    ensures var history := [Entry(3, 100), Entry(5, 95), Entry(1, 106)];
            DequeOf(history, 10)[0].value == 1 && !IsMaximum(1, history, 96)
  {
    var h := [Entry(3, 100), Entry(5, 95), Entry(1, 106)];
    assert h[..2] == [Entry(3, 100), Entry(5, 95)] && h[..2][..1] == [Entry(3, 100)];
    assert DequeOf([Entry(3, 100)], 10) == [Entry(3, 100)];
    assert DropExpired([Entry(3, 100)], 85) == [Entry(3, 100)];
    assert DropDominated([Entry(3, 100)], 5) == [];
    assert DequeOf(h[..2], 10) == [Entry(5, 95)];
    assert DropExpired([Entry(5, 95)], 96) == [];
    assert h[0].time > 96 && h[0].value == 3;
  }
}
