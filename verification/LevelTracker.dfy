/** windowedLevelTracker: the level at a quantile of the last recorded levels, from a count per level. */
module LevelTracking {
  import opened Prelude
  import opened Rings

  const TOTAL_LEVELS := 500

  // ---------------------------------------------------------------- order statistics

  /** How many elements of w are below l. */
  function NumBelow(w: seq<int>, l: int): (n: nat)
    ensures n <= |w|
  {
    if w == [] then 0 else NumBelow(w[..|w| - 1], l) + (if w[|w| - 1] < l then 1 else 0)
  }

  /** The counts of the levels below l, added up. */
  function CountsBelow(w: seq<int>, l: nat): nat {
    if l == 0 then 0 else CountsBelow(w, l - 1) + Count(w, l - 1)
  }

  predicate Sorted(s: seq<int>) {
    forall i, j :: 0 <= i < j < |s| ==> s[i] <= s[j]
  }

  lemma {:induction false} CountsBelowEmpty(l: nat)
    ensures CountsBelow([], l) == 0
  {
    if l > 0 {
      CountsBelowEmpty(l - 1);
    }
  }

  lemma {:induction false} CountsBelowAppend(w: seq<int>, x: nat, l: nat)
    ensures CountsBelow(w + [x], l) == CountsBelow(w, l) + (if x < l then 1 else 0)
  {
    if l > 0 {
      CountsBelowAppend(w, x, l - 1);
      CountAppend(w, x, l - 1);
    }
  }

  ghost predicate AllLevels(w: seq<int>) {
    forall i :: 0 <= i < |w| ==> 0 <= w[i] < TOTAL_LEVELS
  }

  /** Adding up counts level by level counts the elements below. */
  lemma {:induction false} CountsAreNumBelow(w: seq<int>, l: nat)
    requires AllLevels(w)
    ensures CountsBelow(w, l) == NumBelow(w, l)
  {
    if w == [] {
      CountsBelowEmpty(l);
    } else {
      var n := |w| - 1;
      CountsAreNumBelow(w[..n], l);
      CountsBelowAppend(w[..n], w[n], l);
      assert w == w[..n] + [w[n]];
    }
  }

  lemma {:induction false} AllBelow(w: seq<int>, l: int)
    requires forall i :: 0 <= i < |w| ==> w[i] < l
    ensures NumBelow(w, l) == |w|
  {
    if w != [] {
      AllBelow(w[..|w| - 1], l);
    }
  }

  /** In a sorted sequence, k elements are below l exactly when the k-th is. */
  lemma {:induction false} SortedNumBelow(s: seq<int>, l: int, k: nat)
    requires Sorted(s) && 1 <= k <= |s|
    ensures NumBelow(s, l) >= k <==> s[k - 1] < l
  {
    var n := |s| - 1;
    if s[n] < l {
      AllBelow(s, l);
    } else if k <= n {
      SortedNumBelow(s[..n], l, k);
    }
  }

  lemma {:induction false} CountIsMultiplicity(w: seq<int>, v: int)
    ensures Count(w, v) == multiset(w)[v]
  {
    if w != [] {
      var n := |w| - 1;
      CountIsMultiplicity(w[..n], v);
      assert w == w[..n] + [w[n]];
    }
  }

  lemma {:induction false} CountsOfPermutation(w: seq<int>, s: seq<int>, l: nat)
    requires multiset(w) == multiset(s)
    ensures CountsBelow(w, l) == CountsBelow(s, l)
  {
    if l > 0 {
      CountsOfPermutation(w, s, l - 1);
      CountIsMultiplicity(w, l - 1);
      CountIsMultiplicity(s, l - 1);
    }
  }

  /** The level the scan stops at is the k-th smallest: it stands at place k however the window is sorted. */
  lemma {:induction false} StopsAtKthSmallest(w: seq<int>, k: nat, level: nat, s: seq<int>)
    requires AllLevels(w) && 1 <= k <= |w| && CountsBelow(w, level) < k <= CountsBelow(w, level + 1)
    requires Sorted(s) && multiset(s) == multiset(w)
    ensures |s| == |w| && s[k - 1] == level
  {
    assert |s| == |w| by {
      assert |multiset(s)| == |s| && |multiset(w)| == |w|;
    }
    assert AllLevels(s) by {
      forall i | 0 <= i < |s| ensures 0 <= s[i] < TOTAL_LEVELS {
        assert s[i] in multiset(w);
      }
    }
    CountsOfPermutation(w, s, level);
    CountsOfPermutation(w, s, level + 1);
    CountsAreNumBelow(s, level);
    CountsAreNumBelow(s, level + 1);
    SortedNumBelow(s, level, k);
    SortedNumBelow(s, level + 1, k);
  }

  // ---------------------------------------------------------------- the tracker

  /** How many recorded levels must be found to match the quantile. */
  function Target(size: nat, quantile: real): nat {
    var t := Ceil(size as real * quantile);
    if t < 1 then 1 else t
  }

  class LevelTracker {
    const window: array<int>
    const levelCounts: array<int>
    var head: nat
    var filled: bool

    function Size(): nat
      reads this
    {
      if filled then window.Length else head
    }

    ghost predicate Valid()
      reads this, window, levelCounts
    {
      && window != levelCounts
      && levelCounts.Length == TOTAL_LEVELS
      && Shape(window.Length, Size(), head)
      && AllLevels(Levels())
      && forall l :: 0 <= l < TOTAL_LEVELS ==> levelCounts[l] == Count(Levels(), l)
    }

    /** The levels recorded last, oldest first. */
    ghost function Levels(): (w: seq<int>)
      requires Shape(window.Length, Size(), head)
      reads this, window
      ensures |w| == Size()
    {
      Content(window[..], Size(), head)
    }

    constructor (windowSize: nat)
      requires windowSize > 0
      ensures Valid() && fresh(window) && fresh(levelCounts) && window.Length == windowSize && Levels() == []
    {
      window := new int[windowSize](_ => 0);
      levelCounts := new int[TOTAL_LEVELS](_ => 0);
      head, filled := 0, false;
    }

    /** Takes the oldest level out of the counts when the window is full, and the new one in. */
    method UpdateCounts(level: int)
      requires Valid() && 0 <= level < TOTAL_LEVELS
      modifies levelCounts
      ensures forall l :: 0 <= l < TOTAL_LEVELS ==>
                levelCounts[l] == Count(LastN(Levels() + [level], window.Length), l)
    {
      hide Count, LastN;
      ghost var before := Levels();
      Write(window[..], Size(), head, level);
      forall l | 0 <= l < TOTAL_LEVELS {
        CountSlides(before, window.Length, level, l);
      }
      if filled {
        var oldLevel := window[head];
        levelCounts[oldLevel] := levelCounts[oldLevel] - 1;
      }
      levelCounts[level] := levelCounts[level] + 1;
    }

    /** Slides the window of levels by one. */
    method RecordLevel(level: int)
      requires Valid() && 0 <= level < TOTAL_LEVELS
      modifies this, window, levelCounts
      ensures Valid() && Levels() == LastN(old(Levels()) + [level], window.Length)
    {
      hide Count, LastN;
      Write(window[..], Size(), head, level);
      SlideKeepsLevels(Levels(), window.Length, level);
      UpdateCounts(level);
      window[head] := level;
      assert window[..] == old(window[..])[head := level];
      head := head + 1;
      if head >= window.Length {
        head := 0;
        filled := true;
      }
    }

    /** Zero without levels or for a quantile above one; else the Target-th smallest of the levels recorded last. */
    method GetLevel(quantile: real) returns (level: int)
      requires Valid()
      ensures 0 <= level < TOTAL_LEVELS
      ensures var k := Target(Size(), quantile);
              if Size() < k then level == 0
              else KthSmallest(Levels(), k, level)
    {
      hide Count, Content, KthSmallest, CountsBelow;
      var currentSize := window.Length;
      if !filled {
        currentSize := head;
      }
      CountsAreNumBelow(Levels(), TOTAL_LEVELS);
      AllBelow(Levels(), TOTAL_LEVELS);
      CountsBelowStart(Levels());
      if currentSize > 0 {
        var targetLevels := Target(currentSize, quantile);
        var countedLevels := 0;
        level := 0;
        while level < TOTAL_LEVELS
          invariant 0 <= level <= TOTAL_LEVELS
          invariant countedLevels == CountsBelow(Levels(), level) < targetLevels
        {
          countedLevels := countedLevels + levelCounts[level];
          CountsBelowNext(Levels(), level);
          if countedLevels >= targetLevels {
            CountsBelowMonotone(Levels(), level + 1, TOTAL_LEVELS);
            StopsAt(Levels(), targetLevels, level);
            return level;
          }
          level := level + 1;
        }
      }
      level := 0;
    }
  }

  lemma {:induction false} CountsBelowStart(w: seq<int>)
    ensures CountsBelow(w, 0) == 0
  {
  }

  lemma {:induction false} CountsBelowNext(w: seq<int>, l: nat)
    ensures CountsBelow(w, l + 1) == CountsBelow(w, l) + Count(w, l)
  {
  }

  /** level is the k-th element of w sorted. */
  ghost predicate KthSmallest(w: seq<int>, k: nat, level: int) {
    forall s :: Sorted(s) && multiset(s) == multiset(w) ==> 1 <= k <= |s| == |w| && s[k - 1] == level
  }

  lemma {:induction false} StopsAt(w: seq<int>, k: nat, level: nat)
    requires AllLevels(w) && 1 <= k <= |w| && CountsBelow(w, level) < k <= CountsBelow(w, level + 1)
    ensures KthSmallest(w, k, level)
  {
    hide CountsBelow, AllLevels;
    forall s | Sorted(s) && multiset(s) == multiset(w) ensures |s| == |w| && s[k - 1] == level {
      StopsAtKthSmallest(w, k, level, s);
    }
  }

  lemma {:induction false} SlideKeepsLevels(w: seq<int>, cap: nat, level: int)
    requires AllLevels(w) && 0 <= level < TOTAL_LEVELS
    ensures AllLevels(LastN(w + [level], cap))
  {
  }

  lemma {:induction false} CountsBelowMonotone(w: seq<int>, a: nat, b: nat)
    requires a <= b
    ensures CountsBelow(w, a) <= CountsBelow(w, b)
  {
    if a < b {
      CountsBelowMonotone(w, a, b - 1);
    }
  }

  /** For a quantile above zero and up to one, GetLevel finds one of the levels. */
  lemma {:induction false} TargetInWindow(size: nat, quantile: real)
    requires size > 0 && 0.0 < quantile <= 1.0
    ensures 1 <= Target(size, quantile) <= size
    ensures Target(size, quantile) as real - 1.0 < size as real * quantile <= Target(size, quantile) as real
  {
    var x := size as real * quantile;
    assert 0.0 < x <= size as real;
    assert (-x).Floor as real <= -x < (-x).Floor as real + 1.0;
  }
}
