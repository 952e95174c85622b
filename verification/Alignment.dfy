/** What the correlation window makes of pairs with a single zero: exactly which patterns of zeroes leave its samples and
    its cross-sum right. */
module Alignment {
  import opened Rings
  import opened Correlation

  type Pair = (real, real)

  // ---------------------------------------------------------------- the samples

  lemma {:induction false} LastNOfSlid<T>(s: seq<T>, x: T, cap: nat, k: nat)
    requires 1 <= k <= cap && k - 1 <= |s|
    ensures LastN(LastN(s + [x], cap), k) == LastN(s, k - 1) + [x]
  {
    LastNTwice(s + [x], cap, k);
    LastNAppend(s, x, k);
  }

  lemma {:induction false} RunAppend(cap: nat, pairs: seq<Pair>, p: Pair)
    requires cap > 0
    ensures Run(cap, pairs + [p]) == Step(Run(cap, pairs), cap, p.0, p.1)
  {
    assert (pairs + [p])[..|pairs|] == pairs;
  }

  lemma {:induction false} NonZeroAppend(pairs: seq<Pair>, p: Pair)
    ensures NonZero(pairs + [p]) == if p == (0.0, 0.0) then NonZero(pairs) else NonZero(pairs) + [p]
  {
    assert (pairs + [p])[..|pairs|] == pairs;
    assert NonZero(pairs) + [] == NonZero(pairs);
  }

  lemma {:induction false} WithinCapacity(cap: nat, pairs: seq<Pair>)
    requires cap > 0
    ensures |Run(cap, pairs).xs| <= cap && |Run(cap, pairs).ys| <= cap
  {
    if pairs != [] {
      WithinCapacity(cap, pairs[..|pairs| - 1]);
    }
  }

  /** The newest k samples of both windows are those of the last k pairs. */
  ghost predicate EndsWith(s: State, w: seq<Pair>) {
    && |w| <= |s.xs| && |w| <= |s.ys|
    && LastN(s.xs, |w|) == Firsts(w) && LastN(s.ys, |w|) == Seconds(w)
  }

  lemma {:induction false} SlideEndsWith(s: State, w: seq<Pair>, cap: nat, p: Pair)
    requires |w| < cap && EndsWith(s, w) && p.0 != 0.0 && p.1 != 0.0
    ensures EndsWith(Step(s, cap, p.0, p.1), w + [p])
  {
    hide Dot, Times, Firsts, Seconds, LastN;
    LastNOfSlid(s.xs, p.0, cap, |w| + 1);
    LastNOfSlid(s.ys, p.1, cap, |w| + 1);
    CoordinatesAppend(w, p);
  }

  lemma {:induction false} NothingAtEnd(s: State, w: seq<Pair>)
    ensures LastN(w, 0) == [] && EndsWith(s, LastN(w, 0))
  {
  }

  lemma {:induction false} NonZeroOfEmpty(pairs: seq<Pair>)
    ensures NonZero(pairs) != [] ==> pairs != []
  {
  }

  lemma {:induction false} AlignedEnd(cap: nat, pairs: seq<Pair>, k: nat)
    requires cap > 0 && k <= cap && k <= |NonZero(pairs)| && Aligned(LastN(NonZero(pairs), k))
    ensures EndsWith(Run(cap, pairs), LastN(NonZero(pairs), k))
  {
    hide *;
    if k == 0 {
      NothingAtEnd(Run(cap, pairs), NonZero(pairs));
    } else {
      NonZeroOfEmpty(pairs);
      var front, p := pairs[..|pairs| - 1], pairs[|pairs| - 1];
      assert pairs == front + [p];
      NonZeroAppend(front, p);
      RunAppend(cap, front, p);
      if p == (0.0, 0.0) {
        ZeroPairChangesNothing(Run(cap, front), cap);
        AlignedEnd(cap, front, k);
      } else {
        var nz := NonZero(front);
        LastNAppend(nz, p, k);
        AlignedAppend(LastN(nz, k - 1), p);
        AlignedEnd(cap, front, k - 1);
        SlideEndsWith(Run(cap, front), LastN(nz, k - 1), cap, p);
      }
    }
  }

  /** After every run, the windows hold the last cap non-zero pairs if and only if none of those has a single zero. */
  lemma {:induction false} ContentsExactly(cap: nat, pairs: seq<Pair>)
    requires cap > 0
    ensures var s, w := Run(cap, pairs), LastN(NonZero(pairs), cap);
            s.xs == Firsts(w) && s.ys == Seconds(w) <==> Aligned(w)
  {
    hide Run, NonZero, Dot;
    var s, w := Run(cap, pairs), LastN(NonZero(pairs), cap);
    WindowsHoldNoZero(cap, pairs);
    WithinCapacity(cap, pairs);
    AlignedNonZero(pairs);
    if s.xs == Firsts(w) && s.ys == Seconds(w) {
      forall i | 0 <= i < |w| ensures w[i].0 != 0.0 && w[i].1 != 0.0 {
        assert s.xs[i] == w[i].0 && s.ys[i] == w[i].1;
      }
    }
    if Aligned(w) {
      if |w| < cap {
        RunWindow(cap, pairs);
      } else {
        AlignedEnd(cap, pairs, cap);
      }
    }
  }

  // ---------------------------------------------------------------- the pattern of zeroes

  predicate Misaligned(p: Pair) {
    (p.0 == 0.0) != (p.1 == 0.0)
  }

  /** The number of pairs up to the last with a single zero, that one included. */
  function LastMisaligned(pairs: seq<Pair>): (m: nat)
    ensures m <= |pairs|
    ensures m > 0 ==> Misaligned(pairs[m - 1])
    ensures forall i :: m <= i < |pairs| ==> !Misaligned(pairs[i])
  {
    if pairs == [] then 0
    else if Misaligned(pairs[|pairs| - 1]) then |pairs|
    else LastMisaligned(pairs[..|pairs| - 1])
  }

  predicate NoFirst(pairs: seq<Pair>) {
    forall i :: 0 <= i < |pairs| ==> pairs[i].0 == 0.0
  }

  predicate NoSecond(pairs: seq<Pair>) {
    forall i :: 0 <= i < |pairs| ==> pairs[i].1 == 0.0
  }

  /** None of the last cap non-zero pairs has a single zero, and up to the last pair that has, one coordinate was always
      zero. */
  predicate Sound(cap: nat, pairs: seq<Pair>) {
    && Aligned(LastN(NonZero(pairs), cap))
    && var before := pairs[..LastMisaligned(pairs)];
       NoFirst(before) || NoSecond(before)
  }

  lemma {:induction false} AlignedIsSound(cap: nat, pairs: seq<Pair>)
    requires Aligned(pairs)
    ensures Sound(cap, pairs)
  {
    AlignedNonZero(pairs);
    assert LastMisaligned(pairs) == 0;
  }

  // ---------------------------------------------------------------- sound patterns leave the cross-sum right

  lemma {:induction false} OneSidedRun(cap: nat, pairs: seq<Pair>)
    requires cap > 0
    ensures NoFirst(pairs) ==> Run(cap, pairs).xs == [] && Run(cap, pairs).corrSumXY == 0.0
    ensures NoSecond(pairs) ==> Run(cap, pairs).ys == [] && Run(cap, pairs).corrSumXY == 0.0
  {
    if pairs != [] {
      OneSidedRun(cap, pairs[..|pairs| - 1]);
    }
  }

  /** The state after pairs that follow a state s0 with one window empty: the windows hold what they held and then the
      pairs v, and the cross-sum is that of the last cap of v. */
  ghost predicate Follows(s: State, s0: State, v: seq<Pair>, cap: nat) {
    && s.xs == LastN(s0.xs + Firsts(v), cap) && s.ys == LastN(s0.ys + Seconds(v), cap)
    && s.corrSumXY == Dot(LastN(Firsts(v), cap), LastN(Seconds(v), cap))
  }

  lemma {:induction false} FollowsStep(s: State, s0: State, v: seq<Pair>, cap: nat, p: Pair)
    requires cap > 0 && Follows(s, s0, v, cap) && p.0 != 0.0 && p.1 != 0.0 && (s0.xs == [] || s0.ys == [])
    ensures Follows(Step(s, cap, p.0, p.1), s0, v + [p], cap)
  {
    hide Dot, Times, Firsts, Seconds, LastN;
    var a, b := LastN(Firsts(v), cap), LastN(Seconds(v), cap);
    CoordinatesAppend(v, p);
    SlideAfter(s0.xs, Firsts(v), p.0, cap);
    SlideAfter(s0.ys, Seconds(v), p.1, cap);
    LastNSlides(Firsts(v), p.0, cap);
    LastNSlides(Seconds(v), p.1, cap);
    DotSlides(a, b, cap, p.0, p.1);
    TimesZero(Evicted(s.xs, cap, p.0));
  }

  /** A window slid past what it held before: it gives way to the new part once that fills it. */
  lemma {:induction false} SlideAfter(before: seq<real>, v: seq<real>, x: real, cap: nat)
    requires x != 0.0
    ensures Slide(LastN(before + v, cap), cap, x) == LastN(before + (v + [x]), cap)
    ensures |v| >= cap || before == [] ==> LastN(before + v, cap) == LastN(v, cap)
  {
    hide LastN;
    assert before + (v + [x]) == (before + v) + [x];
    LastNSlides(before + v, x, cap);
    if |v| >= cap {
      LastNOfConcat(before, v, cap);
    } else if before == [] {
      assert before + v == v;
    }
  }

  lemma {:induction false} TimesZero(x: real)
    ensures Times(x, 0.0) == 0.0 && Times(0.0, x) == 0.0
  {
  }

  lemma {:induction false} RunFollows(cap: nat, before: seq<Pair>, rest: seq<Pair>)
    requires cap > 0 && Aligned(rest) && (NoFirst(before) || NoSecond(before))
    ensures Follows(Run(cap, before + rest), Run(cap, before), NonZero(rest), cap)
  {
    if rest == [] {
      OneSidedRun(cap, before);
      WithinCapacity(cap, before);
      var s0 := Run(cap, before);
      assert before + rest == before && s0.xs + [] == s0.xs && s0.ys + [] == s0.ys;
    } else {
      hide Run, NonZero, Follows;
      var front, p := rest[..|rest| - 1], rest[|rest| - 1];
      assert before + rest == (before + front) + [p] && rest == front + [p];
      RunFollows(cap, before, front);
      RunAppend(cap, before + front, p);
      NonZeroAppend(front, p);
      if p.0 == 0.0 {
        ZeroPairChangesNothing(Run(cap, before + front), cap);
      } else {
        OneSidedRun(cap, before);
        FollowsStep(Run(cap, before + front), Run(cap, before), NonZero(front), cap, p);
      }
    }
  }

  lemma {:induction false} NonZeroConcat(a: seq<Pair>, b: seq<Pair>)
    ensures NonZero(a + b) == NonZero(a) + NonZero(b)
  {
    if b == [] {
      assert a + b == a && NonZero(a) + [] == NonZero(a);
    } else {
      var front, p := b[..|b| - 1], b[|b| - 1];
      assert b == front + [p] && a + b == (a + front) + [p];
      NonZeroConcat(a, front);
      NonZeroAppend(a + front, p);
      NonZeroAppend(front, p);
      assert (NonZero(a) + NonZero(front)) + [p] == NonZero(a) + (NonZero(front) + [p]);
    }
  }

  /** A pair with a single zero among the last cap non-zero ones misaligns them; so once they are aligned, cap of them
      have come since. */
  lemma {:induction false} AlignedSince(cap: nat, before: seq<Pair>, rest: seq<Pair>)
    requires before != [] && Misaligned(before[|before| - 1]) && Aligned(LastN(NonZero(before + rest), cap))
    ensures |NonZero(rest)| >= cap && LastN(NonZero(before + rest), cap) == LastN(NonZero(rest), cap)
  {
    hide NonZero, Aligned, Misaligned;
    NonZeroConcat(before, rest);
    if |NonZero(rest)| < cap {
      StillSeen(cap, before, rest);
    } else {
      LastNOfConcat(NonZero(before), NonZero(rest), cap);
    }
  }

  lemma {:induction false} StillSeen(cap: nat, before: seq<Pair>, rest: seq<Pair>)
    requires before != [] && Misaligned(before[|before| - 1]) && |NonZero(rest)| < cap
    ensures !Aligned(LastN(NonZero(before + rest), cap))
  {
    var n := |before| - 1;
    var nb, nr, w := NonZero(before), NonZero(rest), LastN(NonZero(before + rest), cap);
    NonZeroConcat(before, rest);
    assert nb[|nb| - 1] == before[n];
    assert w[|w| - 1 - |nr|] == before[n];
  }

  lemma {:induction false} SoundHolds(cap: nat, pairs: seq<Pair>)
    requires cap > 0 && Sound(cap, pairs)
    ensures Holds(Run(cap, pairs), LastN(NonZero(pairs), cap))
  {
    hide Run, NonZero, Dot, Aligned, NoFirst, NoSecond, Firsts, Seconds, LastN, Misaligned;
    var m := LastMisaligned(pairs);
    var before, rest := pairs[..m], pairs[m..];
    assert pairs == before + rest;
    RestIsAligned(pairs);
    if m == 0 {
      assert pairs == rest;
      RunWindow(cap, pairs);
    } else {
      assert before[m - 1] == pairs[m - 1];
      AlignedSince(cap, before, rest);
      RunFollows(cap, before, rest);
      CoordinatesOfLast(NonZero(rest), cap);
      var s0 := Run(cap, before);
      LastNOfConcat(s0.xs, Firsts(NonZero(rest)), cap);
      LastNOfConcat(s0.ys, Seconds(NonZero(rest)), cap);
    }
  }

  lemma {:induction false} RestIsAligned(pairs: seq<Pair>)
    ensures Aligned(pairs[LastMisaligned(pairs)..])
  {
    var m := LastMisaligned(pairs);
    forall i | 0 <= i < |pairs| - m ensures !Misaligned(pairs[m..][i]) {
      assert !Misaligned(pairs[m + i]);
    }
  }

  // ---------------------------------------------------------------- unsound patterns do not

  /** Zeroes are in the same places. */
  predicate SamePattern(a: seq<Pair>, b: seq<Pair>) {
    && |a| == |b|
    && forall i :: 0 <= i < |a| ==> (a[i].0 == 0.0 <==> b[i].0 == 0.0) && (a[i].1 == 0.0 <==> b[i].1 == 0.0)
  }

  /** Two runs that differ in one first coordinate, u in one and u' in the other, whose sample has j newer ones in its
      window; y is the second coordinate that will be evicted together with it. */
  ghost predicate Near(s: State, s': State, j: nat, u: real, u': real, y: real) {
    && j < |s.xs| && j < |s.ys|
    && s.xs[|s.xs| - 1 - j] == u && s'.xs == s.xs[|s.xs| - 1 - j := u']
    && s'.ys == s.ys && s.ys[|s.ys| - 1 - j] == y
    && s'.corrSumXY == s.corrSumXY
  }

  /** The runs after the differing sample is gone. */
  ghost predicate Drifted(s: State, s': State, u: real, u': real, y: real) {
    s'.xs == s.xs && s'.ys == s.ys && s'.corrSumXY == s.corrSumXY - Times(u', y) + Times(u, y)
  }

  lemma {:induction false} SlideShape(w: seq<real>, cap: nat, x: real)
    requires x != 0.0 && |w| <= cap && cap > 0
    ensures Slide(w, cap, x) == (if |w| < cap then w else w[1..]) + [x]
  {
    LastNAdds(w, x, cap);
  }

  lemma {:induction false} SlidePosition(w: seq<real>, cap: nat, x: real, j: nat)
    requires x != 0.0 && |w| <= cap && j < |w| && j + 1 < cap
    ensures var w' := Slide(w, cap, x);
            j + 1 < |w'| && w'[|w'| - 2 - j] == w[|w| - 1 - j]
  {
    hide Slide;
    SlideShape(w, cap, x);
  }

  lemma {:induction false} SlideChanged(w: seq<real>, cap: nat, x: real, j: nat, u: real)
    requires x != 0.0 && |w| <= cap && j < |w| && j + 1 < cap
    ensures var w' := Slide(w, cap, x);
            j + 1 < |w'| && Slide(w[|w| - 1 - j := u], cap, x) == w'[|w'| - 2 - j := u]
  {
    hide Slide;
    var i := |w| - 1 - j;
    SlideShape(w, cap, x);
    SlideShape(w[i := u], cap, x);
    if |w| == cap {
      assert w[i := u][1..] == w[1..][i - 1 := u];
      assert w[1..][i - 1 := u] + [x] == (w[1..] + [x])[i - 1 := u];
    } else {
      assert w[i := u] + [x] == (w + [x])[i := u];
    }
  }

  lemma {:induction false} NearStep(s: State, s': State, j: nat, u: real, u': real, y: real, cap: nat, p: Pair)
    requires cap > 0 && |s.xs| <= cap && |s.ys| <= cap && j + 1 < cap && p.0 != 0.0 && p.1 != 0.0
    requires Near(s, s', j, u, u', y)
    ensures Near(Step(s, cap, p.0, p.1), Step(s', cap, p.0, p.1), j + 1, u, u', y)
  {
    hide Slide, Times;
    SlidePosition(s.xs, cap, p.0, j);
    SlidePosition(s.ys, cap, p.1, j);
    SlideChanged(s.xs, cap, p.0, j, u');
  }

  lemma {:induction false} NearEvicts(s: State, s': State, u: real, u': real, y: real, cap: nat, p: Pair)
    requires cap > 0 && |s.xs| <= cap && |s.ys| <= cap && p.0 != 0.0 && p.1 != 0.0
    requires Near(s, s', cap - 1, u, u', y)
    ensures Drifted(Step(s, cap, p.0, p.1), Step(s', cap, p.0, p.1), u, u', y)
  {
    hide Times;
    assert LastN(s.xs + [p.0], cap) == s.xs[1..] + [p.0];
    assert LastN(s'.xs + [p.0], cap) == s'.xs[1..] + [p.0];
    assert s'.xs[1..] == s.xs[1..];
  }

  lemma {:induction false} DriftedStep(s: State, s': State, u: real, u': real, y: real, cap: nat, p: Pair)
    requires cap > 0 && Drifted(s, s', u, u', y)
    ensures Drifted(Step(s, cap, p.0, p.1), Step(s', cap, p.0, p.1), u, u', y)
  {
    hide Times;
  }

  /** The two runs after n further non-zero pairs. */
  ghost predicate InStep(s: State, s': State, n: nat, cap: nat, u: real, u': real, y: real) {
    if n < cap then Near(s, s', n, u, u', y) else Drifted(s, s', u, u', y)
  }

  lemma {:induction false} InStepStep(s: State, s': State, n: nat, u: real, u': real, y: real, cap: nat, p: Pair)
    requires cap > 0 && |s.xs| <= cap && |s.ys| <= cap && p.0 != 0.0 && p.1 != 0.0 && InStep(s, s', n, cap, u, u', y)
    ensures InStep(Step(s, cap, p.0, p.1), Step(s', cap, p.0, p.1), n + 1, cap, u, u', y)
  {
    hide Near, Drifted, Step;
    if n + 1 < cap {
      NearStep(s, s', n, u, u', y, cap, p);
    } else if n < cap {
      NearEvicts(s, s', u, u', y, cap, p);
    } else {
      DriftedStep(s, s', u, u', y, cap, p);
    }
  }

  lemma {:induction false} StartInStep(s: State, s': State, cap: nat, u: real, u': real, y: real)
    requires cap > 0 && Near(s, s', 0, u, u', y)
    ensures NonZero([]) == [] && InStep(s, s', 0, cap, u, u', y)
  {
  }

  lemma {:induction false} NearRun(cap: nat, a: seq<Pair>, a': seq<Pair>, rest: seq<Pair>, u: real, u': real, y: real)
    requires cap > 0 && Aligned(rest) && Near(Run(cap, a), Run(cap, a'), 0, u, u', y)
    ensures InStep(Run(cap, a + rest), Run(cap, a' + rest), |NonZero(rest)|, cap, u, u', y)
  {
    hide *;
    if rest == [] {
      assert a + rest == a && a' + rest == a';
      StartInStep(Run(cap, a), Run(cap, a'), cap, u, u', y);
    } else {
      var front, p := rest[..|rest| - 1], rest[|rest| - 1];
      assert rest == front + [p];
      AlignedAppend(front, p);
      NearRun(cap, a, a', front, u, u', y);
      assert a + rest == (a + front) + [p] && a' + rest == (a' + front) + [p];
      RunAppend(cap, a + front, p);
      RunAppend(cap, a' + front, p);
      NonZeroAppend(front, p);
      WithinCapacity(cap, a + front);
      var s, s', n := Run(cap, a + front), Run(cap, a' + front), |NonZero(front)|;
      if p.0 == 0.0 {
        ZeroPairChangesNothing(s, cap);
        ZeroPairChangesNothing(s', cap);
      } else {
        InStepStep(s, s', n, u, u', y, cap, p);
      }
    }
  }

  lemma {:induction false} SecondIsHeld(cap: nat, pairs: seq<Pair>)
    requires cap > 0 && !NoSecond(pairs)
    ensures Run(cap, pairs).ys != []
  {
    if pairs[|pairs| - 1].1 == 0.0 {
      SecondIsHeld(cap, pairs[..|pairs| - 1]);
    }
  }

  /** The newest second coordinate in the window. */
  function NewestSecond(s: State): real {
    if s.ys == [] then 0.0 else s.ys[|s.ys| - 1]
  }

  lemma {:induction false} NearStart(s: State, cap: nat, u: real, u': real)
    requires cap > 0 && |s.xs| <= cap && s.ys != [] && u != 0.0 && u' != 0.0
    ensures Near(Step(s, cap, u, 0.0), Step(s, cap, u', 0.0), 0, u, u', s.ys[|s.ys| - 1])
  {
    hide Times;
    TimesZero(u);
    TimesZero(u');
    TimesZero(Evicted(s.xs, cap, u));
    var xs, xs' := LastN(s.xs + [u], cap), LastN(s.xs + [u'], cap);
    assert xs' == xs[|xs| - 1 := u'];
  }

  /** Where a pair (u, 0) comes after some second coordinate and is followed by cap aligned pairs, the cross-sum ends up
      off by u times that coordinate. */
  lemma {:induction false} FirstDrifts(cap: nat, front: seq<Pair>, u: real, rest: seq<Pair>, u': real)
    requires cap > 0 && u != 0.0 && u' != 0.0 && !NoSecond(front) && Aligned(rest) && |NonZero(rest)| >= cap
    ensures var y := NewestSecond(Run(cap, front));
            && y != 0.0
            && Drifted(Run(cap, front + [(u, 0.0)] + rest), Run(cap, front + [(u', 0.0)] + rest), u, u', y)
  {
    hide Run, NonZero, Aligned, NoSecond, Step, Near, Drifted;
    SecondIsHeld(cap, front);
    WindowsHoldNoZero(cap, front);
    WithinCapacity(cap, front);
    RunAppend(cap, front, (u, 0.0));
    RunAppend(cap, front, (u', 0.0));
    NearStart(Run(cap, front), cap, u, u');
    NearRun(cap, front + [(u, 0.0)], front + [(u', 0.0)], rest, u, u', NewestSecond(Run(cap, front)));
  }

  /** The last non-zero pairs are aligned, but the last pair with a single zero has a first coordinate and comes after
      some second coordinate. */
  predicate FirstUnsound(cap: nat, pairs: seq<Pair>) {
    var m := LastMisaligned(pairs);
    m > 0 && pairs[m - 1].0 != 0.0 && !NoSecond(pairs[..m]) && Aligned(LastN(NonZero(pairs), cap))
  }

  /** The run with that coordinate changed to u. */
  function Varied(pairs: seq<Pair>, u: real): seq<Pair>
    requires LastMisaligned(pairs) > 0
  {
    pairs[LastMisaligned(pairs) - 1 := (u, 0.0)]
  }

  /** The coordinate it is multiplied with. */
  function Partner(cap: nat, pairs: seq<Pair>): real
    requires cap > 0 && LastMisaligned(pairs) > 0
  {
    NewestSecond(Run(cap, pairs[..LastMisaligned(pairs) - 1]))
  }

  lemma {:induction false} VariedDrifts(cap: nat, pairs: seq<Pair>, u: real)
    requires cap > 0 && FirstUnsound(cap, pairs) && u != 0.0
    ensures var q := Varied(pairs, u);
            && SamePattern(pairs, q) && LastN(NonZero(q), cap) == LastN(NonZero(pairs), cap)
            && Partner(cap, pairs) != 0.0
            && Drifted(Run(cap, pairs), Run(cap, q), pairs[LastMisaligned(pairs) - 1].0, u, Partner(cap, pairs))
  {
    hide Run, NonZero, Aligned, Drifted, NoSecond, SamePattern, Misaligned;
    var m := LastMisaligned(pairs);
    var front, p, rest := pairs[..m - 1], pairs[m - 1], pairs[m..];
    VariedPattern(pairs, u);
    RestIsAligned(pairs);
    AlignedSince(cap, front + [p], rest);
    NonZeroConcat(front + [(u, 0.0)], rest);
    LastNOfConcat(NonZero(front + [(u, 0.0)]), NonZero(rest), cap);
    NoSecondFront(front, p);
    FirstDrifts(cap, front, p.0, rest, u);
  }

  lemma {:induction false} VariedPattern(pairs: seq<Pair>, u: real)
    requires var m := LastMisaligned(pairs); m > 0 && pairs[m - 1].0 != 0.0 && u != 0.0
    ensures var m := LastMisaligned(pairs);
            var front, p, rest := pairs[..m - 1], pairs[m - 1], pairs[m..];
            && p == (p.0, 0.0) && pairs[..m] == front + [p]
            && pairs == front + [p] + rest && Varied(pairs, u) == front + [(u, 0.0)] + rest
            && SamePattern(pairs, Varied(pairs, u))
  {
  }

  lemma {:induction false} NoSecondFront(front: seq<Pair>, p: Pair)
    requires p.1 == 0.0 && !NoSecond(front + [p])
    ensures !NoSecond(front)
  {
    var i :| 0 <= i < |front + [p]| && (front + [p])[i].1 != 0.0;
    assert front[i].1 != 0.0;
  }

  lemma {:induction false} DriftBreaks(s: State, s': State, w: seq<Pair>, u: real, u': real, y: real)
    requires Drifted(s, s', u, u', y) && u != u' && y != 0.0
    ensures !(Holds(s, w) && Holds(s', w))
  {
    assert Times(u', y) - Times(u, y) == Times(u' - u, y);
    assert Times(u' - u, y) != 0.0;
  }

  /** Whether the window is right about the last non-zero pairs: samples and cross-sum. */
  ghost predicate Right(cap: nat, pairs: seq<Pair>)
    requires cap > 0
  {
    Holds(Run(cap, pairs), LastN(NonZero(pairs), cap))
  }

  lemma {:induction false} FirstUnsoundFails(cap: nat, pairs: seq<Pair>)
    requires cap > 0 && FirstUnsound(cap, pairs)
    ensures exists q :: SamePattern(pairs, q) && !Right(cap, q)
  {
    hide Run, NonZero, Drifted, SamePattern, Holds;
    var u := pairs[LastMisaligned(pairs) - 1].0;
    var q := Varied(pairs, u + u);
    VariedDrifts(cap, pairs, u + u);
    DriftBreaks(Run(cap, pairs), Run(cap, q), LastN(NonZero(pairs), cap), u, u + u, Partner(cap, pairs));
    SameAsItself(pairs);
    assert !Right(cap, pairs) || !Right(cap, q);
  }

  lemma {:induction false} SameAsItself(pairs: seq<Pair>)
    ensures SamePattern(pairs, pairs)
  {
  }

  // ---------------------------------------------------------------- the two coordinates play the same part

  function Swap(pairs: seq<Pair>): (r: seq<Pair>)
    ensures |r| == |pairs|
  {
    seq(|pairs|, i requires 0 <= i < |pairs| => (pairs[i].1, pairs[i].0))
  }

  function SwapState(s: State): State {
    State(s.ys, s.xs, s.corrSumXY)
  }

  lemma {:induction false} StepSwap(s: State, cap: nat, x: real, y: real)
    requires cap > 0
    ensures Step(SwapState(s), cap, y, x) == SwapState(Step(s, cap, x, y))
  {
    hide Slide;
    TimesZero(Evicted(s.xs, cap, x));
    TimesZero(Evicted(s.ys, cap, y));
    TimesCommutes(Evicted(s.xs, cap, x), Evicted(s.ys, cap, y));
    TimesCommutes(x, y);
  }

  lemma {:induction false} TimesCommutes(x: real, y: real)
    ensures Times(x, y) == Times(y, x)
  {
  }

  lemma {:induction false} DotCommutes(a: seq<real>, b: seq<real>)
    requires |a| == |b|
    ensures Dot(a, b) == Dot(b, a)
  {
    if a != [] {
      DotCommutes(a[..|a| - 1], b[..|b| - 1]);
    }
  }

  lemma {:induction false} SwapAppend(front: seq<Pair>, p: Pair)
    ensures Swap(front + [p]) == Swap(front) + [(p.1, p.0)]
  {
  }

  lemma {:induction false} RunSwap(cap: nat, pairs: seq<Pair>)
    requires cap > 0
    ensures Run(cap, Swap(pairs)) == SwapState(Run(cap, pairs)) && NonZero(Swap(pairs)) == Swap(NonZero(pairs))
  {
    if pairs == [] {
      assert Swap(pairs) == [];
    } else {
      hide Run, NonZero, Swap, Step;
      var front, p := pairs[..|pairs| - 1], pairs[|pairs| - 1];
      assert pairs == front + [p];
      RunSwap(cap, front);
      SwapAppend(front, p);
      SwapAppend(NonZero(front), p);
      RunAppend(cap, front, p);
      RunAppend(cap, Swap(front), (p.1, p.0));
      NonZeroAppend(front, p);
      NonZeroAppend(Swap(front), (p.1, p.0));
      StepSwap(Run(cap, front), cap, p.0, p.1);
    }
  }

  lemma {:induction false} SwapKeeps(pairs: seq<Pair>, cap: nat)
    ensures Aligned(Swap(pairs)) == Aligned(pairs) && LastN(Swap(pairs), cap) == Swap(LastN(pairs, cap))
    ensures Firsts(Swap(pairs)) == Seconds(pairs) && Seconds(Swap(pairs)) == Firsts(pairs)
    ensures NoFirst(Swap(pairs)) == NoSecond(pairs) && NoSecond(Swap(pairs)) == NoFirst(pairs)
  {
    var r := Swap(pairs);
    assert forall i :: 0 <= i < |pairs| ==> r[i] == (pairs[i].1, pairs[i].0);
    assert NoSecond(pairs) ==> NoFirst(r);
    assert NoFirst(pairs) ==> NoSecond(r);
    assert NoFirst(r) ==> NoSecond(pairs) by {
      assert forall i :: 0 <= i < |pairs| ==> pairs[i].1 == r[i].0;
    }
    assert NoSecond(r) ==> NoFirst(pairs) by {
      assert forall i :: 0 <= i < |pairs| ==> pairs[i].0 == r[i].1;
    }
    SwapKeepsAligned(pairs);
  }

  lemma {:induction false} SwapKeepsAligned(pairs: seq<Pair>)
    ensures Aligned(Swap(pairs)) == Aligned(pairs)
  {
    var r := Swap(pairs);
    assert forall i :: 0 <= i < |pairs| ==> r[i] == (pairs[i].1, pairs[i].0);
    if Aligned(r) {
      forall i | 0 <= i < |pairs| ensures pairs[i].0 == 0.0 <==> pairs[i].1 == 0.0 {
        assert r[i].0 == 0.0 <==> r[i].1 == 0.0;
      }
    }
  }

  lemma {:induction false} LastMisalignedSwap(pairs: seq<Pair>)
    ensures LastMisaligned(Swap(pairs)) == LastMisaligned(pairs)
  {
    if pairs != [] {
      var front, p := pairs[..|pairs| - 1], pairs[|pairs| - 1];
      assert pairs == front + [p];
      SwapAppend(front, p);
      assert (Swap(front) + [(p.1, p.0)])[..|front|] == Swap(front);
      LastMisalignedSwap(front);
    }
  }

  lemma {:induction false} RightSwap(cap: nat, pairs: seq<Pair>)
    requires cap > 0
    ensures Right(cap, Swap(pairs)) <==> Right(cap, pairs)
  {
    hide Run, NonZero, Swap, LastN, Dot;
    RunSwap(cap, pairs);
    SwapKeeps(NonZero(pairs), cap);
    var w, s := LastN(NonZero(pairs), cap), Run(cap, pairs);
    SwapKeeps(w, cap);
    if |s.xs| == |s.ys| {
      DotCommutes(s.xs, s.ys);
    }
  }

  lemma {:induction false} SwapTwice(pairs: seq<Pair>)
    ensures Swap(Swap(pairs)) == pairs
  {
  }

  lemma {:induction false} SamePatternSwap(a: seq<Pair>, b: seq<Pair>)
    requires SamePattern(a, b)
    ensures SamePattern(Swap(a), Swap(b))
  {
  }

  // ---------------------------------------------------------------- exactly the sound patterns

  /** A pattern that is not sound though its last non-zero pairs are aligned is unsound in one coordinate or the other. */
  lemma {:induction false} UnsoundCases(cap: nat, pairs: seq<Pair>)
    requires cap > 0 && !Sound(cap, pairs) && Aligned(LastN(NonZero(pairs), cap))
    ensures FirstUnsound(cap, pairs) || FirstUnsound(cap, Swap(pairs))
  {
    hide NonZero, Swap, NoFirst, NoSecond, Aligned, LastN;
    var m := LastMisaligned(pairs);
    if m == 0 {
      NothingBefore(pairs);
    } else if pairs[m - 1].0 == 0.0 {
      LastMisalignedSwap(pairs);
      SwapPrefix(pairs, m);
      SwapKeeps(pairs[..m], cap);
      RunSwap(cap, pairs);
      SwapKeeps(NonZero(pairs), cap);
      SwapKeeps(LastN(NonZero(pairs), cap), cap);
    }
  }

  lemma {:induction false} NothingBefore(pairs: seq<Pair>)
    ensures NoFirst(pairs[..0])
  {
  }

  lemma {:induction false} SwapPrefix(pairs: seq<Pair>, m: nat)
    requires 0 < m <= |pairs|
    ensures Swap(pairs)[..m] == Swap(pairs[..m]) && Swap(pairs)[m - 1].0 == pairs[m - 1].1
  {
  }

  lemma {:induction false} UnsoundFails(cap: nat, pairs: seq<Pair>)
    requires cap > 0 && !Sound(cap, pairs)
    ensures exists q :: SamePattern(pairs, q) && !Right(cap, q)
  {
    hide Sound, FirstUnsound, SamePattern, Run, NonZero, Swap;
    if !Aligned(LastN(NonZero(pairs), cap)) {
      ContentsExactly(cap, pairs);
      SameAsItself(pairs);
    } else {
      UnsoundCases(cap, pairs);
      if FirstUnsound(cap, pairs) {
        FirstUnsoundFails(cap, pairs);
      } else {
        FirstUnsoundFails(cap, Swap(pairs));
        var q :| SamePattern(Swap(pairs), q) && !Right(cap, q);
        SamePatternSwap(Swap(pairs), q);
        SwapTwice(pairs);
        RightSwap(cap, q);
      }
    }
  }

  lemma {:induction false} PatternOfNonZero(a: seq<Pair>, b: seq<Pair>)
    requires SamePattern(a, b)
    ensures SamePattern(NonZero(a), NonZero(b)) && LastMisaligned(a) == LastMisaligned(b)
  {
    if a != [] {
      var n := |a| - 1;
      assert SamePattern(a[..n], b[..n]);
      PatternOfNonZero(a[..n], b[..n]);
      assert (a[n].0 == 0.0 <==> b[n].0 == 0.0) && (a[n].1 == 0.0 <==> b[n].1 == 0.0);
    }
  }

  lemma {:induction false} PatternDecides(a: seq<Pair>, b: seq<Pair>)
    requires SamePattern(a, b)
    ensures Aligned(a) ==> Aligned(b)
    ensures NoFirst(a) ==> NoFirst(b)
    ensures NoSecond(a) ==> NoSecond(b)
  {
  }

  lemma {:induction false} PatternOfPart(a: seq<Pair>, b: seq<Pair>, n: nat)
    requires SamePattern(a, b)
    ensures SamePattern(LastN(a, n), LastN(b, n)) && (n <= |a| ==> SamePattern(a[..n], b[..n]))
  {
    assert |a| == |b|;
    hide SamePattern;
    if n <= |a| {
      PatternOfSlice(a, b, 0, n);
      assert a[0..n] == a[..n] && b[0..n] == b[..n];
      PatternOfSlice(a, b, |a| - n, |a|);
      assert a[|a| - n..|a|] == LastN(a, n) && b[|a| - n..|a|] == LastN(b, n);
    } else {
      assert LastN(a, n) == a && LastN(b, n) == b;
    }
  }

  lemma {:induction false} PatternOfSlice(a: seq<Pair>, b: seq<Pair>, from: nat, to: nat)
    requires SamePattern(a, b) && from <= to <= |a|
    ensures SamePattern(a[from..to], b[from..to])
  {
    forall i | 0 <= i < to - from
      ensures (a[from..to][i].0 == 0.0 <==> b[from..to][i].0 == 0.0) && (a[from..to][i].1 == 0.0 <==> b[from..to][i].1 == 0.0)
    {
      assert a[from..to][i] == a[from + i] && b[from..to][i] == b[from + i];
    }
  }

  lemma {:induction false} SoundPattern(cap: nat, pairs: seq<Pair>, q: seq<Pair>)
    requires Sound(cap, pairs) && SamePattern(pairs, q)
    ensures Sound(cap, q)
  {
    hide SamePattern, NonZero, LastN, Aligned, NoFirst, NoSecond;
    PatternOfNonZero(pairs, q);
    PatternOfPart(NonZero(pairs), NonZero(q), cap);
    PatternDecides(LastN(NonZero(pairs), cap), LastN(NonZero(q), cap));
    PatternOfPart(pairs, q, LastMisaligned(pairs));
    PatternDecides(pairs[..LastMisaligned(pairs)], q[..LastMisaligned(pairs)]);
  }

  /** Exactly the sound patterns of zeroes leave the windows and the cross-sum right, whatever the other values are. */
  lemma {:induction false} SoundExactly(cap: nat, pairs: seq<Pair>)
    requires cap > 0
    ensures Sound(cap, pairs) <==> forall q :: SamePattern(pairs, q) ==> Right(cap, q)
  {
    hide Sound, SamePattern, Right;
    if Sound(cap, pairs) {
      forall q | SamePattern(pairs, q) ensures Right(cap, q) {
        SoundPattern(cap, pairs, q);
        SoundIsRight(cap, q);
      }
    } else {
      UnsoundFails(cap, pairs);
    }
  }

  lemma {:induction false} SoundIsRight(cap: nat, pairs: seq<Pair>)
    requires cap > 0 && Sound(cap, pairs)
    ensures Right(cap, pairs)
  {
    SoundHolds(cap, pairs);
  }
}
