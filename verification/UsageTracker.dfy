/** usageTracker: recent usage per user, bounded by recency, and fair priority levels from usage ranks. */
module UsageTracking {
  import opened Prelude
  import opened Rounding
  import opened LevelTracking

  /** User ids are only ever compared. */
  type UserId = nat

  /** usage is what the user's window last totalled; a negative quantile means not calibrated. */
  datatype User = User(usage: int, quantile: real, lastActive: int)

  /** lru lists the users from the most to the least recently active. */
  datatype Tracker = Tracker(users: map<UserId, User>, lru: seq<UserId>)

  const EMPTY := Tracker(map[], [])

  const UNCALIBRATED := -1.0

  // ---------------------------------------------------------------- recording and evicting

  /** The list elements that are in keep, in order. */
  function Keep(lru: seq<UserId>, keep: set<UserId>): seq<UserId> {
    if lru == [] then [] else (if lru[0] in keep then [lru[0]] else []) + Keep(lru[1..], keep)
  }

  function Evicted(t: Tracker): Tracker {
    if t.lru == [] then t
    else Tracker(t.users - {t.lru[|t.lru| - 1]}, t.lru[..|t.lru| - 1])
  }

  /** A usage recorded for id at time now, after which its window totals total. */
  function Used(t: Tracker, maxUsers: nat, id: UserId, now: int, total: int): Tracker {
    if id in t.users then
      Tracker(t.users[id := User(total, t.users[id].quantile, now)], [id] + Keep(t.lru, t.users.Keys - {id}))
    else
      var t' := if |t.users| >= maxUsers then Evicted(t) else t;
      Tracker(t'.users[id := User(total, UNCALIBRATED, now)], [id] + t'.lru)
  }

  // ---------------------------------------------------------------- ranks

  /** The users with usage. */
  function Active(users: map<UserId, User>): set<UserId> {
    set id | id in users && users[id].usage > 0
  }

  /** The users with usage, but less than u. */
  function Lower(users: map<UserId, User>, u: int): set<UserId> {
    set id | id in users && 0 < users[id].usage < u
  }

  /** The share of active users with less usage than u. */
  function RankQuantile(users: map<UserId, User>, u: int): real {
    if u <= 0 then UNCALIBRATED
    else if Active(users) == {} then 0.0
    else Round(|Lower(users, u)| as real / |Active(users)| as real)
  }

  /** A user without usage who has not been active since the cutoff. */
  predicate Stale(u: User, reading: int, cutoff: int) {
    reading <= 0 && u.lastActive < cutoff
  }

  function Kept(users: map<UserId, User>, readings: UserId -> int, cutoff: int): set<UserId> {
    set id | id in users && !Stale(users[id], readings(id), cutoff)
  }

  function Read(users: map<UserId, User>, readings: UserId -> int, cutoff: int): map<UserId, User> {
    map id | id in Kept(users, readings, cutoff) :: users[id].(usage := readings(id))
  }

  /** The tracker after Calibrate: stale users are gone and every other user has its rank among the active users. */
  function Calibrated(t: Tracker, readings: UserId -> int, cutoff: int): Tracker {
    var users := Read(t.users, readings, cutoff);
    Tracker(map id | id in users :: users[id].(quantile := RankQuantile(users, users[id].usage)),
            Keep(t.lru, users.Keys))
  }

  // ---------------------------------------------------------------- levels

  const MAX_LEVEL := 99.0

  datatype Priority = VeryLow | Low | Medium | High | VeryHigh {
    function Lower(): int {
      match this case VeryLow => 0 case Low => 100 case Medium => 200 case High => 300 case VeryHigh => 400
    }

    function Upper(): int {
      match this case VeryLow => 99 case Low => 199 case Medium => 299 case High => 399 case VeryHigh => 499
    }
  }

  /** The top of the range for unknown, idle and uncalibrated users; else lower the higher the quantile. The fraction is
      cut off, which for the non-negative values here is the floor. */
  function LevelOf(t: Tracker, id: UserId, p: Priority): int {
    if id !in t.users || t.users[id].usage == 0 || t.users[id].quantile < 0.0 then p.Upper()
    else p.Lower() + (MAX_LEVEL * (1.0 - t.users[id].quantile)).Floor
  }

  /** Every user has a rank between zero and one, or none. */
  ghost predicate Ranked(t: Tracker) {
    forall id :: id in t.users ==> t.users[id].quantile == UNCALIBRATED || 0.0 <= t.users[id].quantile <= 1.0
  }

  /** a has usage and a rank, and b has no usage, no rank or a lower rank, or is not known. */
  predicate Outranks(users: map<UserId, User>, a: UserId, b: UserId)
    requires a in users
  {
    && users[a].usage != 0 && users[a].quantile >= 0.0
    && (b in users && users[b].usage != 0 ==> users[b].quantile <= users[a].quantile)
  }

  lemma {:induction false} LevelInRange(q: real, q': real)
    requires 0.0 <= q <= q' <= 1.0
    ensures 0 <= (MAX_LEVEL * (1.0 - q')).Floor <= (MAX_LEVEL * (1.0 - q)).Floor <= 99
  {
    FloorMonotone(MAX_LEVEL * (1.0 - q'), MAX_LEVEL * (1.0 - q));
  }

  lemma {:induction false} RankedLevel(t: Tracker, id: UserId, p: Priority)
    requires Ranked(t)
    ensures p.Lower() <= LevelOf(t, id, p) <= p.Upper()
  {
    if id in t.users && t.users[id].quantile >= 0.0 {
      LevelInRange(t.users[id].quantile, t.users[id].quantile);
    }
  }

  lemma {:induction false} OutrankedLevel(t: Tracker, a: UserId, b: UserId, p: Priority)
    requires Ranked(t) && a in t.users && Outranks(t.users, a, b)
    ensures LevelOf(t, a, p) <= LevelOf(t, b, p)
  {
    RankedLevel(t, a, p);
    if b in t.users && t.users[b].usage != 0 && t.users[b].quantile >= 0.0 {
      LevelInRange(t.users[b].quantile, t.users[a].quantile);
    }
  }

  lemma {:induction false} RankedLevels(t: Tracker, id: UserId, p: Priority)
    ensures Ranked(t) ==>
              && p.Lower() <= LevelOf(t, id, p) <= p.Upper()
              && forall a :: a in t.users && Outranks(t.users, a, id) ==> LevelOf(t, a, p) <= LevelOf(t, id, p)
  {
    hide LevelOf, Outranks;
    if Ranked(t) {
      RankedLevel(t, id, p);
      forall a | a in t.users && Outranks(t.users, a, id) ensures LevelOf(t, a, p) <= LevelOf(t, id, p) {
        OutrankedLevel(t, a, id, p);
      }
    }
  }

  // ---------------------------------------------------------------- sorting and searching usages

  function Insert(s: seq<int>, x: int): seq<int> {
    if s == [] then [x]
    else if s[|s| - 1] <= x then s + [x]
    else Insert(s[..|s| - 1], x) + [s[|s| - 1]]
  }

  function Sort(s: seq<int>): seq<int> {
    if s == [] then [] else Insert(Sort(s[..|s| - 1]), s[|s| - 1])
  }

  lemma {:induction false} InsertCounts(s: seq<int>, x: int, u: int)
    ensures |Insert(s, x)| == |s| + 1
    ensures NumBelow(Insert(s, x), u) == NumBelow(s, u) + (if x < u then 1 else 0)
  {
    hide NumBelow;
    if s == [] {
      NumBelowAppend([], x, u);
      assert s + [x] == [x];
    } else {
      var n := |s| - 1;
      if s[n] <= x {
        NumBelowAppend(s, x, u);
      } else {
        InsertCounts(s[..n], x, u);
        NumBelowAppend(Insert(s[..n], x), s[n], u);
        NumBelowAppend(s[..n], s[n], u);
        assert s == s[..n] + [s[n]];
      }
    }
  }

  lemma {:induction false} InsertSorts(s: seq<int>, x: int)
    requires Sorted(s)
    ensures Sorted(Insert(s, x))
    ensures forall i :: 0 <= i < |Insert(s, x)| ==> Insert(s, x)[i] == x || Insert(s, x)[i] in s
  {
    if s != [] && s[|s| - 1] > x {
      var n := |s| - 1;
      InsertSorts(s[..n], x);
    }
  }

  lemma {:induction false} SortSorts(s: seq<int>, u: int)
    ensures Sorted(Sort(s)) && |Sort(s)| == |s| && NumBelow(Sort(s), u) == NumBelow(s, u)
  {
    if s != [] {
      SortSorts(s[..|s| - 1], u);
      InsertSorts(Sort(s[..|s| - 1]), s[|s| - 1]);
      InsertCounts(Sort(s[..|s| - 1]), s[|s| - 1], u);
    }
  }

  /** sort.Search: the first place from lo to hi whose usage is not below u, by halving. */
  function Search(s: seq<int>, u: int, lo: nat, hi: nat): (r: nat)
    requires Sorted(s) && lo <= hi <= |s|
    requires (forall i :: 0 <= i < lo ==> s[i] < u) && (forall i :: hi <= i < |s| ==> s[i] >= u)
    ensures r <= |s| && (forall i :: 0 <= i < r ==> s[i] < u) && (forall i :: r <= i < |s| ==> s[i] >= u)
    decreases hi - lo
  {
    if lo == hi then lo
    else
      var h := (lo + hi) / 2;
      if s[h] < u then Search(s, u, h + 1, hi) else Search(s, u, lo, h)
  }

  function ComputeQuantile(u: int, sortedUsages: seq<int>): real
    requires Sorted(sortedUsages)
  {
    if |sortedUsages| == 0 then 0.0
    else Round(Search(sortedUsages, u, 0, |sortedUsages|) as real / |sortedUsages| as real)
  }

  /** The place found is the number of usages below u. */
  lemma {:induction false} SearchCountsBelow(s: seq<int>, u: int)
    requires Sorted(s)
    ensures Search(s, u, 0, |s|) == NumBelow(s, u)
  {
    var r := Search(s, u, 0, |s|);
    if r > 0 {
      SortedNumBelow(s, u, r);
    }
    if r < |s| {
      SortedNumBelow(s, u, r + 1);
    }
  }

  // ---------------------------------------------------------------- the users met one by one

  /** The positive readings of the users in order. */
  function Positive(order: seq<UserId>, readings: UserId -> int): seq<int> {
    if order == [] then []
    else
      var rest, r := Positive(order[..|order| - 1], readings), readings(order[|order| - 1]);
      if r > 0 then rest + [r] else rest
  }

  /** The users among ids with a reading above zero and below u. */
  ghost function PositiveBelow(ids: set<UserId>, readings: UserId -> int, u: int): set<UserId> {
    set id | id in ids && 0 < readings(id) < u
  }

  ghost function PositiveAmong(ids: set<UserId>, readings: UserId -> int): set<UserId> {
    set id | id in ids && readings(id) > 0
  }

  lemma {:induction false} OneMore(ids: set<UserId>, id: UserId, readings: UserId -> int, u: int)
    requires id !in ids
    ensures |PositiveBelow(ids + {id}, readings, u)| == |PositiveBelow(ids, readings, u)| + (if 0 < readings(id) < u then 1 else 0)
    ensures |PositiveAmong(ids + {id}, readings)| == |PositiveAmong(ids, readings)| + (if readings(id) > 0 then 1 else 0)
  {
    var r := readings(id);
    if 0 < r < u {
      assert PositiveBelow(ids + {id}, readings, u) == PositiveBelow(ids, readings, u) + {id};
    } else {
      assert PositiveBelow(ids + {id}, readings, u) == PositiveBelow(ids, readings, u);
    }
    if r > 0 {
      assert PositiveAmong(ids + {id}, readings) == PositiveAmong(ids, readings) + {id};
    } else {
      assert PositiveAmong(ids + {id}, readings) == PositiveAmong(ids, readings);
    }
  }

  lemma {:induction false} OrderSplit(front: seq<UserId>, last: UserId)
    ensures ToSet(front + [last]) == ToSet(front) + {last}
    ensures Distinct(front + [last]) <==> Distinct(front) && last !in front
  {
    var order := front + [last];
    if Distinct(order) {
      forall i, j | 0 <= i < j < |front| ensures front[i] != front[j] {
        assert order[i] != order[j];
      }
      forall i | 0 <= i < |front| ensures front[i] != last {
        assert order[i] != order[|front|];
      }
    }
  }

  lemma {:induction false} NumBelowAppend(s: seq<int>, x: int, u: int)
    ensures NumBelow(s + [x], u) == NumBelow(s, u) + (if x < u then 1 else 0)
  {
    assert (s + [x])[..|s|] == s;
  }

  /** In whatever order the map is walked, the usages collected below u are those of the users below u. */
  lemma {:induction false} PositiveCounts(order: seq<UserId>, readings: UserId -> int, u: int)
    requires Distinct(order)
    ensures NumBelow(Positive(order, readings), u) == |PositiveBelow(ToSet(order), readings, u)|
    ensures |Positive(order, readings)| == |PositiveAmong(ToSet(order), readings)|
  {
    if order == [] {
      assert PositiveBelow({}, readings, u) == {} && PositiveAmong({}, readings) == {} && ToSet(order) == {};
    } else {
      hide PositiveBelow, PositiveAmong, ToSet, Distinct;
      var n := |order| - 1;
      var front, last := order[..n], order[n];
      assert order == front + [last];
      OrderSplit(front, last);
      PositiveCounts(front, readings, u);
      assert last !in ToSet(front) by {
        InToSet(front, last);
      }
      OneMore(ToSet(front), last, readings, u);
      NumBelowAppend(Positive(front, readings), readings(last), u);
    }
  }

  lemma {:induction false} InToSet(order: seq<UserId>, id: UserId)
    ensures id in ToSet(order) <==> id in order
  {
  }

  /** The quantile computed from the sorted usages is the share of active users with less usage. */
  lemma {:induction false} QuantileIsRank(order: seq<UserId>, users: map<UserId, User>, readings: UserId -> int, u: int)
    requires Distinct(order) && u > 0
    requires forall id :: id in users ==> id in ToSet(order) && users[id].usage == readings(id)
    requires forall id :: id in ToSet(order) && readings(id) > 0 ==> id in users
    ensures var sorted := Sort(Positive(order, readings));
            Sorted(sorted) && ComputeQuantile(u, sorted) == RankQuantile(users, u)
  {
    hide Round, Search, Sort, Positive, NumBelow, Distinct, ToSet;
    var usages := Positive(order, readings);
    SortSorts(usages, u);
    SearchCountsBelow(Sort(usages), u);
    PositiveCounts(order, readings, u);
    assert PositiveBelow(ToSet(order), readings, u) == Lower(users, u);
    assert PositiveAmong(ToSet(order), readings) == Active(users);
  }

  /** users part way through the first pass of Calibrate, with pending still to be met. */
  ghost function Partway(users: map<UserId, User>, pending: set<UserId>, readings: UserId -> int, cutoff: int)
    : map<UserId, User>
  {
    map id | id in users && (id in pending || !Stale(users[id], readings(id), cutoff)) ::
      if id in pending then users[id] else users[id].(usage := readings(id))
  }

  /** Meeting one more user changes that user only. */
  lemma {:induction false} PartwayStep(
    users: map<UserId, User>, pending: set<UserId>, readings: UserId -> int, cutoff: int, id: UserId)
    requires id in pending && id in users
    ensures var before, after := Partway(users, pending, readings, cutoff), Partway(users, pending - {id}, readings, cutoff);
            && id in before && before[id] == users[id]
            && after == if Stale(users[id], readings(id), cutoff) then before - {id}
                        else before[id := users[id].(usage := readings(id))]
  {
  }

  lemma {:induction false} KeepTwice(lru: seq<UserId>, a: set<UserId>, b: set<UserId>)
    requires b <= a
    ensures Keep(Keep(lru, a), b) == Keep(lru, b)
  {
    if lru != [] {
      KeepTwice(lru[1..], a, b);
      if lru[0] in a {
        assert Keep(lru, a)[1..] == Keep(lru[1..], a);
      } else {
        assert [] + Keep(lru[1..], a) == Keep(lru[1..], a);
      }
    }
  }

  lemma {:induction false} KeepAll(lru: seq<UserId>, keep: set<UserId>)
    requires forall id :: id in lru ==> id in keep
    ensures Keep(lru, keep) == lru
  {
    if lru != [] {
      KeepAll(lru[1..], keep);
    }
  }

  lemma {:induction false} KeepElements(lru: seq<UserId>, keep: set<UserId>)
    ensures forall id :: id in Keep(lru, keep) <==> id in lru && id in keep
  {
    if lru != [] {
      KeepElements(lru[1..], keep);
    }
  }

  lemma {:induction false} IdleQuantile(users: map<UserId, User>, u: int)
    requires u <= 0
    ensures RankQuantile(users, u) == UNCALIBRATED
  {
  }

  lemma {:induction false} NoneMet()
    ensures Distinct<UserId>([]) && ToSet<UserId>([]) == {}
  {
  }

  class UsageTracker {
    const maxUsers: nat
    const expirationDuration: int
    var users: map<UserId, User>
    var lru: seq<UserId>

    ghost function Abs(): Tracker
      reads this
    {
      Tracker(users, lru)
    }

    constructor (maxUsers: nat, expirationDuration: int)
      ensures Abs() == EMPTY && this.maxUsers == maxUsers && this.expirationDuration == expirationDuration
    {
      this.maxUsers, this.expirationDuration := maxUsers, expirationDuration;
      users, lru := map[], [];
    }

    method EvictOldest()
      modifies this
      ensures Abs() == Evicted(old(Abs()))
    {
      if |lru| > 0 {
        users := users - {lru[|lru| - 1]};
        lru := lru[..|lru| - 1];
      }
    }

    method RecordUsage(id: UserId, now: int, total: int)
      modifies this
      ensures Abs() == Used(old(Abs()), maxUsers, id, now, total)
    {
      if id !in users {
        if |users| >= maxUsers {
          EvictOldest();
        }
        users := users[id := User(total, UNCALIBRATED, now)];
        lru := [id] + lru;
      } else {
        lru := [id] + Keep(lru, users.Keys - {id});
        users := users[id := User(total, users[id].quantile, now)];
      }
    }

    /** Reads one user's window, and drops the user if it is stale. */
    method ReadUser(id: UserId, usage: int, cutoff: int)
      requires id in users && (forall i :: i in lru ==> i in users)
      modifies this
      ensures users == if Stale(old(users)[id], usage, cutoff) then old(users) - {id}
                       else old(users)[id := old(users)[id].(usage := usage)]
      ensures lru == Keep(old(lru), users.Keys) && (forall i :: i in lru ==> i in users)
    {
      if usage <= 0 && users[id].lastActive < cutoff {
        users := users - {id};
        lru := Keep(lru, users.Keys);
      } else {
        users := users[id := users[id].(usage := usage)];
        KeepAll(lru, users.Keys);
      }
      KeepElements(old(lru), users.Keys);
    }

    /** The first pass over the users: reads their windows, drops stale users, and collects the usages. */
    method ReadUsages(readings: UserId -> int, cutoff: int) returns (usages: seq<int>, ghost order: seq<UserId>)
      requires forall id :: id in lru ==> id in users
      modifies this
      ensures users == Read(old(users), readings, cutoff) && lru == Keep(old(lru), users.Keys)
      ensures Distinct(order) && ToSet(order) == old(users).Keys && usages == Positive(order, readings)
    {
      hide Keep, Distinct, ToSet, Stale;
      ghost var users0, lru0 := users, lru;
      var pending := users.Keys;
      usages, order := [], [];
      KeepAll(lru, users.Keys);
      NoneMet();
      while pending != {}
        invariant pending <= users0.Keys && users == Partway(users0, pending, readings, cutoff)
        invariant lru == Keep(lru0, users.Keys) && (forall i :: i in lru ==> i in users)
        invariant Distinct(order) && ToSet(order) == users0.Keys - pending
        invariant usages == Positive(order, readings)
        decreases pending
      {
        var id :| id in pending;
        var usage := readings(id);
        PartwayStep(users0, pending, readings, cutoff, id);
        OrderSplit(order, id);
        InToSet(order, id);
        assert (order + [id])[..|order|] == order;
        KeepTwice(lru0, users.Keys, Partway(users0, pending - {id}, readings, cutoff).Keys);
        ReadUser(id, usage, cutoff);
        if usage > 0 {
          usages := usages + [usage];
        }
        order := order + [id];
        pending := pending - {id};
      }
    }

    method Calibrate(now: int, readings: UserId -> int)
      requires forall id :: id in lru ==> id in users
      modifies this
      ensures Abs() == Calibrated(old(Abs()), readings, now - expirationDuration)
    {
      hide Keep, Distinct, Sort, ComputeQuantile, RankQuantile, Positive, Sorted;
      var usages, order := ReadUsages(readings, now - expirationDuration);
      var sorted := Sort(usages);
      SortSorts(usages, 0);
      ghost var read := users;
      forall id | id in read
        ensures RankQuantile(read, read[id].usage)
             == if read[id].usage > 0 then ComputeQuantile(read[id].usage, sorted) else UNCALIBRATED
      {
        if read[id].usage > 0 {
          QuantileIsRank(order, read, readings, read[id].usage);
        } else {
          IdleQuantile(read, read[id].usage);
        }
      }
      users := map id | id in users ::
        users[id].(quantile := if users[id].usage > 0 then ComputeQuantile(users[id].usage, sorted) else UNCALIBRATED);
    }

    /** A level of the priority; its top for whoever has no rank, and no higher for a higher rank. */
    method GetLevel(id: UserId, priority: Priority) returns (level: int)
      ensures level == LevelOf(Abs(), id, priority)
      ensures Ranked(Abs()) ==> priority.Lower() <= level <= priority.Upper()
      ensures Ranked(Abs()) ==> forall other :: other in users && Outranks(users, other, id) ==> LevelOf(Abs(), other, priority) <= level
    {
      RankedLevels(Abs(), id, priority);
      if id !in users || users[id].usage == 0 || users[id].quantile < 0.0 {
        return priority.Upper();
      }
      level := priority.Lower() + (MAX_LEVEL * (1.0 - users[id].quantile)).Floor;
    }
  }

  // ---------------------------------------------------------------- users and recency

  datatype Op = Use(id: UserId, now: int, total: int) | Calibrate(readings: UserId -> int, cutoff: int)

  function Step(t: Tracker, maxUsers: nat, op: Op): Tracker {
    match op
    case Use(id, now, total) => Used(t, maxUsers, id, now, total)
    case Calibrate(readings, cutoff) => Calibrated(t, readings, cutoff)
  }

  function Run(maxUsers: nat, ops: seq<Op>): Tracker {
    if ops == [] then EMPTY else Step(Run(maxUsers, ops[..|ops| - 1]), maxUsers, ops[|ops| - 1])
  }

  /** One more than the place of the last use of id, or zero. */
  function LastUse(ops: seq<Op>, id: UserId): (k: nat)
    ensures k <= |ops|
  {
    if ops == [] then 0
    else if ops[|ops| - 1].Use? && ops[|ops| - 1].id == id then |ops|
    else LastUse(ops[..|ops| - 1], id)
  }

  /** The most recently used come first. */
  ghost predicate Recent(lru: seq<UserId>, ops: seq<Op>) {
    forall i, j :: 0 <= i < j < |lru| ==> LastUse(ops, lru[i]) > LastUse(ops, lru[j])
  }

  /** The list has the users and no one else, no more than maxUsers, the most recently used first. */
  ghost predicate Tracks(t: Tracker, maxUsers: nat, ops: seq<Op>) {
    && (forall id :: id in t.users <==> id in t.lru)
    && |t.users| <= maxUsers
    && Recent(t.lru, ops)
  }

  lemma {:induction false} KeepRecent(lru: seq<UserId>, keep: set<UserId>, ops: seq<Op>)
    requires Recent(lru, ops)
    ensures Recent(Keep(lru, keep), ops)
  {
    hide LastUse;
    if lru != [] {
      var tail := lru[1..];
      forall i, j | 0 <= i < j < |tail| ensures LastUse(ops, tail[i]) > LastUse(ops, tail[j]) {
        assert tail[i] == lru[i + 1] && tail[j] == lru[j + 1];
      }
      KeepRecent(tail, keep, ops);
      KeepElements(tail, keep);
      forall id | id in tail ensures LastUse(ops, lru[0]) > LastUse(ops, id) {
        var j :| 0 <= j < |tail| && tail[j] == id;
        assert tail[j] == lru[j + 1];
      }
    }
  }

  lemma {:induction false} LastUseStep(ops: seq<Op>, op: Op, id: UserId)
    ensures LastUse(ops + [op], id) == if op.Use? && op.id == id then |ops| + 1 else LastUse(ops, id)
  {
    assert (ops + [op])[..|ops|] == ops;
  }

  /** A use puts its user in front. */
  lemma {:induction false} UseInFront(lru: seq<UserId>, ops: seq<Op>, op: Op)
    requires Recent(lru, ops) && op.Use? && op.id !in lru
    ensures Recent([op.id] + lru, ops + [op])
  {
    hide LastUse;
    var lru' := [op.id] + lru;
    forall i, j | 0 <= i < j < |lru'| ensures LastUse(ops + [op], lru'[i]) > LastUse(ops + [op], lru'[j]) {
      LastUseStep(ops, op, lru'[i]);
      LastUseStep(ops, op, lru'[j]);
      assert lru'[j] == lru[j - 1];
    }
  }

  lemma {:induction false} CalibrateKeepsRecent(lru: seq<UserId>, ops: seq<Op>, op: Op)
    requires Recent(lru, ops) && op.Calibrate?
    ensures Recent(lru, ops + [op])
  {
    hide LastUse;
    forall i, j | 0 <= i < j < |lru| ensures LastUse(ops + [op], lru[i]) > LastUse(ops + [op], lru[j]) {
      LastUseStep(ops, op, lru[i]);
      LastUseStep(ops, op, lru[j]);
    }
  }

  /** Evicting makes room by dropping the user whose last use is longest ago. */
  lemma {:induction false} EvictsLeastRecent(t: Tracker, maxUsers: nat, ops: seq<Op>)
    requires Tracks(t, maxUsers, ops) && t.lru != []
    ensures Tracks(Evicted(t), maxUsers - 1, ops)
    ensures var gone := t.lru[|t.lru| - 1];
            && Evicted(t).users == t.users - {gone}
            && forall id :: id in t.users && id != gone ==> LastUse(ops, id) > LastUse(ops, gone)
  {
    hide LastUse, Recent;
    var n := |t.lru| - 1;
    var gone := t.lru[n];
    LastIsLeastRecent(t.lru, ops, n);
    FrontAndLast(t.lru, n);
    RemoveOne(t.users, gone);
  }

  lemma {:induction false} FrontAndLast(lru: seq<UserId>, n: nat)
    requires |lru| == n + 1
    ensures forall id :: id in lru <==> id in lru[..n] || id == lru[n]
  {
    assert lru == lru[..n] + [lru[n]];
  }

  lemma {:induction false} RemoveOne(users: map<UserId, User>, gone: UserId)
    requires gone in users
    ensures |users - {gone}| == |users| - 1
  {
    assert (users - {gone}).Keys == users.Keys - {gone};
  }

  lemma {:induction false} LastIsLeastRecent(lru: seq<UserId>, ops: seq<Op>, n: nat)
    requires Recent(lru, ops) && |lru| == n + 1
    ensures lru[n] !in lru[..n] && Recent(lru[..n], ops)
    ensures forall id :: id in lru[..n] ==> LastUse(ops, id) > LastUse(ops, lru[n])
  {
    hide LastUse;
    forall id | id in lru[..n] ensures LastUse(ops, id) > LastUse(ops, lru[n]) {
      var i :| 0 <= i < n && lru[i] == id;
    }
  }

  lemma {:induction false} NewUserTracked(t: Tracker, maxUsers: nat, ops: seq<Op>, op: Op, u: User)
    requires Tracks(t, maxUsers, ops) && |t.users| < maxUsers && op.Use? && op.id !in t.users
    ensures Tracks(Tracker(t.users[op.id := u], [op.id] + t.lru), maxUsers, ops + [op])
  {
    hide Recent;
    UseInFront(t.lru, ops, op);
    assert t.users[op.id := u].Keys == t.users.Keys + {op.id};
  }

  lemma {:induction false} KnownUserTracked(t: Tracker, maxUsers: nat, ops: seq<Op>, op: Op)
    requires Tracks(t, maxUsers, ops) && op.Use? && op.id in t.users
    ensures Tracks(Used(t, maxUsers, op.id, op.now, op.total), maxUsers, ops + [op])
  {
    hide Recent, Keep;
    var keep := t.users.Keys - {op.id};
    KeepRecent(t.lru, keep, ops);
    KeepElements(t.lru, keep);
    UseInFront(Keep(t.lru, keep), ops, op);
    var t' := Used(t, maxUsers, op.id, op.now, op.total);
    assert t'.users.Keys == t.users.Keys;
  }

  lemma {:induction false} CalibrateTracked(t: Tracker, maxUsers: nat, ops: seq<Op>, op: Op)
    requires Tracks(t, maxUsers, ops) && op.Calibrate?
    ensures Tracks(Calibrated(t, op.readings, op.cutoff), maxUsers, ops + [op])
  {
    hide Recent, Keep, RankQuantile;
    var t' := Calibrated(t, op.readings, op.cutoff);
    var keep := Read(t.users, op.readings, op.cutoff).Keys;
    KeepRecent(t.lru, keep, ops);
    KeepElements(t.lru, keep);
    CalibrateKeepsRecent(Keep(t.lru, keep), ops, op);
    assert t'.users.Keys == keep <= t.users.Keys;
    SubsetSize(t'.users.Keys, t.users.Keys);
  }

  lemma {:induction false} SubsetSize(a: set<UserId>, b: set<UserId>)
    requires a <= b
    ensures |a| <= |b|
  {
    assert b == a + (b - a);
  }

  /** In every run of uses and calibrations with room for at least one user, the map and the list hold the same ids,
      at most maxUsers of them, in the order of their last use. */
  lemma {:induction false} EveryRun(maxUsers: nat, ops: seq<Op>)
    requires maxUsers > 0
    ensures Tracks(Run(maxUsers, ops), maxUsers, ops)
  {
    if ops != [] {
      hide *;
      var n := |ops| - 1;
      var t, op := Run(maxUsers, ops[..n]), ops[n];
      assert ops == ops[..n] + [op];
      EveryRun(maxUsers, ops[..n]);
      RunStep(maxUsers, ops, n);
      StepTracked(t, maxUsers, ops[..n], op);
    }
  }

  lemma {:induction false} RunStep(maxUsers: nat, ops: seq<Op>, n: nat)
    requires |ops| == n + 1
    ensures Run(maxUsers, ops) == Step(Run(maxUsers, ops[..n]), maxUsers, ops[n])
  {
  }

  lemma {:induction false} StepTracked(t: Tracker, maxUsers: nat, ops: seq<Op>, op: Op)
    requires maxUsers > 0 && Tracks(t, maxUsers, ops)
    ensures Tracks(Step(t, maxUsers, op), maxUsers, ops + [op])
  {
    hide Tracks, Calibrated, Used;
    if op.Calibrate? {
      CalibrateTracked(t, maxUsers, ops, op);
    } else if op.id in t.users {
      KnownUserTracked(t, maxUsers, ops, op);
    } else {
      UnknownUserTracked(t, maxUsers, ops, op);
    }
  }

  lemma {:induction false} UnknownUserTracked(t: Tracker, maxUsers: nat, ops: seq<Op>, op: Op)
    requires maxUsers > 0 && Tracks(t, maxUsers, ops) && op.Use? && op.id !in t.users
    ensures Tracks(Used(t, maxUsers, op.id, op.now, op.total), maxUsers, ops + [op])
  {
    hide Recent;
    var u := User(op.total, UNCALIBRATED, op.now);
    if |t.users| >= maxUsers {
      NonEmptyList(t);
      EvictsLeastRecent(t, maxUsers, ops);
      NewUserTracked(Evicted(t), maxUsers, ops, op, u);
    } else {
      NewUserTracked(t, maxUsers, ops, op, u);
    }
  }

  lemma {:induction false} NonEmptyList(t: Tracker)
    requires |t.users| > 0 && forall id :: id in t.users <==> id in t.lru
    ensures t.lru != []
  {
    var id :| id in t.users.Keys;
    assert id in t.lru;
  }

  lemma {:induction false} FullIsNonEmpty(t: Tracker, maxUsers: nat, ops: seq<Op>)
    requires maxUsers > 0 && Tracks(t, maxUsers, ops) && |t.users| >= maxUsers
    ensures t.lru != [] && |t.users| == maxUsers
  {
    NonEmptyList(t);
  }

  /** A use adds its user, who keeps the rank the last calibration gave, and drops no one, except, when a new user finds
      the tracker full, the least recently used. */
  lemma {:induction false} UseChangesOneUser(maxUsers: nat, ops: seq<Op>, op: Op)
    requires maxUsers > 0 && op.Use?
    ensures var t := Run(maxUsers, ops);
            var t' := Step(t, maxUsers, op);
            && op.id in t'.users && t'.users[op.id].lastActive == op.now && t'.users[op.id].usage == op.total
            && t'.users[op.id].quantile == (if op.id in t.users then t.users[op.id].quantile else UNCALIBRATED)
            && (forall id :: id in t'.users && id != op.id ==> id in t.users && t'.users[id] == t.users[id])
            && (forall id :: id in t.users && id !in t'.users ==>
                  && op.id !in t.users && |t.users| == maxUsers
                  && forall other :: other in t.users && other != id ==> LastUse(ops, other) > LastUse(ops, id))
  {
    hide LastUse, Keep, Tracks, Run, Evicted;
    EveryRun(maxUsers, ops);
    var t := Run(maxUsers, ops);
    if op.id !in t.users && |t.users| >= maxUsers {
      FullIsNonEmpty(t, maxUsers, ops);
      EvictsLeastRecent(t, maxUsers, ops);
    }
  }

  /** Calibrating drops exactly the stale users. */
  lemma {:induction false} CalibrateDropsStale(t: Tracker, readings: UserId -> int, cutoff: int, id: UserId)
    ensures id in Calibrated(t, readings, cutoff).users <==>
            id in t.users && !(readings(id) <= 0 && t.users[id].lastActive < cutoff)
    ensures id in Calibrated(t, readings, cutoff).users ==>
            && Calibrated(t, readings, cutoff).users[id].usage == readings(id)
            && Calibrated(t, readings, cutoff).users[id].lastActive == t.users[id].lastActive
  {
    hide RankQuantile, Keep;
  }

  // ---------------------------------------------------------------- fairness

  lemma {:induction false} MoreUsageHigherRank(users: map<UserId, User>, low: int, high: int)
    requires 0 < low <= high && Active(users) != {}
    ensures 0.0 <= RankQuantile(users, low) <= RankQuantile(users, high) <= 1.0
  {
    hide Round;
    var n := |Active(users)| as real;
    SubsetSize(Lower(users, low), Lower(users, high));
    SubsetSize(Lower(users, high), Active(users));
    var a, b := |Lower(users, low)| as real, |Lower(users, high)| as real;
    QuotientOrder(a, b, n);
    RoundMonotone(a / n, b / n);
    RoundInUnit(a / n);
    RoundInUnit(b / n);
  }

  lemma {:induction false} QuotientOrder(a: real, b: real, n: real)
    requires 0.0 <= a <= b <= n && n > 0.0
    ensures 0.0 <= a / n <= b / n <= 1.0
  {
  }

  /** Calibrating does not change usages, and a user's quantile is its rank. */
  lemma {:induction false} CalibratedUser(t: Tracker, readings: UserId -> int, cutoff: int, id: UserId)
    requires id in Calibrated(t, readings, cutoff).users
    ensures var c := Calibrated(t, readings, cutoff);
            c.users[id].quantile == RankQuantile(c.users, c.users[id].usage)
  {
    hide Round;
    var read, c := Read(t.users, readings, cutoff), Calibrated(t, readings, cutoff);
    assert Active(c.users) == Active(read);
    assert forall u :: Lower(c.users, u) == Lower(read, u);
  }

  /** Right after Calibrate, a user with more usage never gets a higher level than one with less, whatever the
      priority, and every level lies in its priority's range. */
  lemma {:induction false} FairLevels(t: Tracker, readings: UserId -> int, cutoff: int, a: UserId, b: UserId, p: Priority)
    requires a in Calibrated(t, readings, cutoff).users && b in Calibrated(t, readings, cutoff).users
    ensures var c := Calibrated(t, readings, cutoff);
            && p.Lower() <= LevelOf(c, a, p) <= p.Upper()
            && (c.users[a].usage >= c.users[b].usage ==> LevelOf(c, a, p) <= LevelOf(c, b, p))
  {
    hide Calibrated, RankQuantile;
    var c := Calibrated(t, readings, cutoff);
    CalibratedUser(t, readings, cutoff, a);
    CalibratedUser(t, readings, cutoff, b);
    CalibrateRanks(t, readings, cutoff);
    RankedLevel(c, a, p);
    RankedLevel(c, b, p);
    var ua, ub := c.users[a].usage, c.users[b].usage;
    if 0 < ub <= ua {
      assert a in Active(c.users);
      MoreUsageHigherRank(c.users, ub, ua);
      LevelInRange(c.users[b].quantile, c.users[a].quantile);
    } else if ub <= 0 {
      IdleQuantile(c.users, ub);
    }
  }

  /** After Calibrate every user is ranked. */
  lemma {:induction false} CalibrateRanks(t: Tracker, readings: UserId -> int, cutoff: int)
    ensures Ranked(Calibrated(t, readings, cutoff))
  {
    hide Calibrated, RankQuantile;
    var c := Calibrated(t, readings, cutoff);
    forall id | id in c.users ensures c.users[id].quantile == UNCALIBRATED || 0.0 <= c.users[id].quantile <= 1.0 {
      CalibratedUser(t, readings, cutoff, id);
      var u := c.users[id].usage;
      if u > 0 {
        assert id in Active(c.users);
        MoreUsageHigherRank(c.users, u, u);
      } else {
        IdleQuantile(c.users, u);
      }
    }
  }

  /** The levels that are tracked are parted among the priorities, a hundred each, the higher priority above the lower. */
  lemma {:induction false} PrioritiesPartLevels(l: int)
    ensures 0 <= l < TOTAL_LEVELS <==>
            exists p: Priority {:trigger p.Lower()} :: p.Lower() <= l <= p.Upper()
    ensures forall p: Priority {:trigger p.Lower()} :: p.Upper() == p.Lower() + 99
    ensures VeryLow.Upper() < Low.Lower() && Low.Upper() < Medium.Lower() && Medium.Upper() < High.Lower()
    ensures High.Upper() < VeryHigh.Lower()
  {
    var p := if l < 100 then VeryLow else if l < 200 then Low else if l < 300 then Medium else if l < 400 then High else VeryHigh;
    if 0 <= l < TOTAL_LEVELS {
      assert p.Lower() <= l <= p.Upper();
    }
  }

  /** In every run, with any number of uses since the last Calibrate, every level lies in its priority's range, for users
      the tracker knows or not. */
  lemma {:induction false} EveryLevel(maxUsers: nat, ops: seq<Op>, id: UserId, p: Priority)
    ensures Ranked(Run(maxUsers, ops)) && p.Lower() <= LevelOf(Run(maxUsers, ops), id, p) <= p.Upper()
  {
    if ops != [] {
      var n := |ops| - 1;
      EveryLevel(maxUsers, ops[..n], id, p);
      if ops[n].Calibrate? {
        CalibrateRanks(Run(maxUsers, ops[..n]), ops[n].readings, ops[n].cutoff);
      }
    }
    RankedLevel(Run(maxUsers, ops), id, p);
  }

  /** The levels do tell users apart: right after Calibrate an active user with no one below it gets the top of the range,
      and a user ranked two hundredths above another gets a strictly lower level. */
  lemma {:induction false} LevelsFollowRanks(t: Tracker, readings: UserId -> int, cutoff: int, a: UserId, b: UserId, p: Priority)
    requires a in Calibrated(t, readings, cutoff).users && b in Calibrated(t, readings, cutoff).users
    requires readings(a) > 0 && readings(b) > 0
    ensures var c := Calibrated(t, readings, cutoff);
            && (Lower(c.users, readings(a)) == {} ==> LevelOf(c, a, p) == p.Upper())
            && (RankQuantile(c.users, readings(a)) >= RankQuantile(c.users, readings(b)) + 0.02 ==>
                  LevelOf(c, a, p) < LevelOf(c, b, p))
  {
    hide Calibrated, RankQuantile, Lower;
    var c := Calibrated(t, readings, cutoff);
    CalibratedUser(t, readings, cutoff, a);
    CalibratedUser(t, readings, cutoff, b);
    CalibrateDropsStale(t, readings, cutoff, a);
    CalibrateDropsStale(t, readings, cutoff, b);
    assert a in Active(c.users);
    MoreUsageHigherRank(c.users, readings(a), readings(a));
    MoreUsageHigherRank(c.users, readings(b), readings(b));
    if Lower(c.users, readings(a)) == {} {
      LowestRank(c.users, readings(a));
    }
    var qa, qb := c.users[a].quantile, c.users[b].quantile;
    if qa >= qb + 0.02 {
      FloorMonotone(MAX_LEVEL * (1.0 - qa) + 1.0, MAX_LEVEL * (1.0 - qb));
    }
  }

  lemma {:induction false} LowestRank(users: map<UserId, User>, u: int)
    requires u > 0 && Active(users) != {} && Lower(users, u) == {}
    ensures RankQuantile(users, u) == 0.0
  {
  }
}
