/** What the correlation window reads: the Pearson coefficient, and exactly when it stays between -1 and 1. */
module Readings {
  import opened Rings
  import opened Correlation
  import opened Alignment

  // ---------------------------------------------------------------- sound and unsound patterns

  /** Over every run with a sound pattern the correlation read lies between -1 and 1 and is the Pearson coefficient of the
      last cap non-zero pairs, once past the warmup and with enough variation. */
  lemma {:induction false} SoundReading(cap: nat, pairs: seq<Pair>, warmup: nat, sqrt: real -> real)
    requires cap > 0 && Sound(cap, pairs) && IsSquareRoot(sqrt)
    ensures var r := Read(Run(cap, pairs), warmup, sqrt).correlation;
            -1.0 <= r <= 1.0 && ReadsPearson(r, LastN(NonZero(pairs), cap), warmup, sqrt)
  {
    hide *;
    SoundHolds(cap, pairs);
    HeldPairsRead(Run(cap, pairs), LastN(NonZero(pairs), cap), warmup, sqrt);
  }

  /** Over any aligned run the correlation returned is the Pearson coefficient of the last cap non-zero pairs once they
      are past the warmup and both sides vary enough, and zero until then; it always lies between -1 and 1. */
  lemma {:induction false} CorrelationOfRun(cap: nat, pairs: seq<Pair>, warmup: nat, sqrt: real -> real)
    requires cap > 0 && Aligned(pairs) && IsSquareRoot(sqrt)
    ensures var r := Read(Run(cap, pairs), warmup, sqrt).correlation;
            -1.0 <= r <= 1.0 && ReadsPearson(r, LastN(NonZero(pairs), cap), warmup, sqrt)
  {
    hide *;
    AlignedIsSound(cap, pairs);
    SoundReading(cap, pairs, warmup, sqrt);
  }

  /** Past the warmup and with both sides varying, a correlation is read. */
  ghost predicate Readable(w: seq<Pair>, warmup: nat, sqrt: real -> real) {
    |w| >= warmup && Varies(Firsts(w), sqrt) && Varies(Seconds(w), sqrt)
  }

  /** The reading from n samples with cross-sum c, product of means m and product of deviations d. */
  function Ratio(c: real, n: real, m: real, d: real): real
    requires n > 0.0 && d > 0.0
  {
    (c / n - m) / d
  }

  /** The reading of two windows that vary enough, of whatever sizes. */
  lemma {:induction false} ReadFormula(s: State, warmup: nat, sqrt: real -> real)
    requires IsSquareRoot(sqrt) && |s.xs| >= warmup && Varies(s.xs, sqrt) && Varies(s.ys, sqrt)
    ensures var d := Times(sqrt(Variance(s.xs)), sqrt(Variance(s.ys)));
            && d > 0.0
            && Read(s, warmup, sqrt).correlation == Ratio(s.corrSumXY, |s.xs| as real, Times(Mean(s.xs), Mean(s.ys)), d)
  {
    hide Mean, Variance;
    PositiveCv(s.xs, sqrt);
    PositiveCv(s.ys, sqrt);
    PositiveProduct(sqrt(Variance(s.xs)), sqrt(Variance(s.ys)), Times(sqrt(Variance(s.xs)), sqrt(Variance(s.ys))));
  }

  lemma {:induction false} ReadingIsRatio(s: State, w: seq<Pair>, warmup: nat, sqrt: real -> real)
    requires IsSquareRoot(sqrt) && Readable(w, warmup, sqrt) && s.xs == Firsts(w) && s.ys == Seconds(w)
    ensures |w| > 0
    ensures var d := Times(sqrt(Variance(Firsts(w))), sqrt(Variance(Seconds(w))));
            && d > 0.0
            && Read(s, warmup, sqrt).correlation
               == Ratio(s.corrSumXY, |w| as real, Times(Mean(Firsts(w)), Mean(Seconds(w))), d)
  {
    hide Mean, Variance, Ratio, Read, IsSquareRoot;
    ReadFormula(s, warmup, sqrt);
  }

  /** The cross-sum that makes the reading r. */
  function Target(n: real, m: real, d: real, r: real): real {
    Times(n, Times(r, d) + m)
  }

  lemma {:induction false} TargetReads(n: real, m: real, d: real, r: real)
    requires n > 0.0 && d > 0.0
    ensures Ratio(Target(n, m, d, r), n, m, d) == r
  {
    var x := r * d + m;
    assert Times(n, x) / n == x;
    assert (r * d) / d == r;
  }

  /** The coordinate u' in place of u that moves the cross-sum from c to t. */
  lemma {:induction false} Solve(c: real, t: real, u: real, y: real) returns (u': real)
    requires y != 0.0
    ensures c - Times(u', y) + Times(u, y) == t
    ensures u' == u + (c - t) / y
  {
    u' := u + (c - t) / y;
    assert ((c - t) / y) * y == c - t;
    assert u' * y == u * y + ((c - t) / y) * y;
  }

  /** Of two targets one is reached with a coordinate other than zero. */
  lemma {:induction false} SolveEither(c: real, t: real, t': real, u: real, y: real) returns (u': real)
    requires y != 0.0 && t != t'
    ensures u' != 0.0 && (c - Times(u', y) + Times(u, y) == t || c - Times(u', y) + Times(u, y) == t')
  {
    u' := Solve(c, t, u, y);
    if u' == 0.0 {
      u' := Solve(c, t', u, y);
    }
  }

  lemma {:induction false} TargetsDiffer(n: real, m: real, d: real)
    requires n > 0.0 && d > 0.0
    ensures Target(n, m, d, 2.0) != Target(n, m, d, 3.0)
  {
    PositiveProduct(n, d, n * d);
    assert Target(n, m, d, 3.0) - Target(n, m, d, 2.0) == n * d;
  }

  lemma {:induction false} FirstUnsoundReads(cap: nat, pairs: seq<Pair>, warmup: nat, sqrt: real -> real)
    returns (q: seq<Pair>)
    requires cap > 0 && FirstUnsound(cap, pairs) && IsSquareRoot(sqrt)
    requires Readable(LastN(NonZero(pairs), cap), warmup, sqrt)
    ensures SamePattern(pairs, q) && LastN(NonZero(q), cap) == LastN(NonZero(pairs), cap)
    ensures Read(Run(cap, q), warmup, sqrt).correlation > 1.0
  {
    hide Run, NonZero, Read, SamePattern, Readable, Aligned, NoSecond, Mean, Variance, Ratio, Target, IsSquareRoot;
    var w, s, u, y := LastN(NonZero(pairs), cap), Run(cap, pairs), pairs[LastMisaligned(pairs) - 1].0, Partner(cap, pairs);
    ContentsExactly(cap, pairs);
    ReadingIsRatio(s, w, warmup, sqrt);
    VariedDrifts(cap, pairs, 1.0);
    var n, m := |w| as real, Times(Mean(Firsts(w)), Mean(Seconds(w)));
    var d := Times(sqrt(Variance(Firsts(w))), sqrt(Variance(Seconds(w))));
    TargetsDiffer(n, m, d);
    TargetReads(n, m, d, 2.0);
    TargetReads(n, m, d, 3.0);
    var u' := SolveEither(s.corrSumXY, Target(n, m, d, 2.0), Target(n, m, d, 3.0), u, y);
    VariedDrifts(cap, pairs, u');
    q := Varied(pairs, u');
    ReadingIsRatio(Run(cap, q), w, warmup, sqrt);
  }

  lemma {:induction false} ReadSwap(s: State, warmup: nat, sqrt: real -> real)
    requires IsSquareRoot(sqrt) && |s.xs| == |s.ys|
    ensures Read(SwapState(s), warmup, sqrt).correlation == Read(s, warmup, sqrt).correlation
  {
    hide Mean, Variance, IsSquareRoot;
    if s.xs != [] {
      TimesCommutes(Mean(s.xs), Mean(s.ys));
      TimesCommutes(sqrt(Variance(s.xs)), sqrt(Variance(s.ys)));
    }
  }

  /** Once the windows hold aligned pairs that give a reading, a pattern that is not sound has values, with the very same
      pairs in the windows, for which the reading is above 1. */
  lemma {:induction false} UnsoundReading(cap: nat, pairs: seq<Pair>, warmup: nat, sqrt: real -> real)
    returns (q: seq<Pair>)
    requires cap > 0 && IsSquareRoot(sqrt) && !Sound(cap, pairs)
    requires Aligned(LastN(NonZero(pairs), cap)) && Readable(LastN(NonZero(pairs), cap), warmup, sqrt)
    ensures SamePattern(pairs, q) && LastN(NonZero(q), cap) == LastN(NonZero(pairs), cap)
    ensures Read(Run(cap, q), warmup, sqrt).correlation > 1.0
  {
    hide Sound, FirstUnsound, SamePattern, Run, NonZero, Swap, Read, Aligned, IsSquareRoot, LastN;
    UnsoundCases(cap, pairs);
    if FirstUnsound(cap, pairs) {
      q := FirstUnsoundReads(cap, pairs, warmup, sqrt);
    } else {
      var w := LastN(NonZero(pairs), cap);
      RunSwap(cap, pairs);
      SwapKeeps(NonZero(pairs), cap);
      SwapKeeps(w, cap);
      var q' := FirstUnsoundReads(cap, Swap(pairs), warmup, sqrt);
      q := Swap(q');
      SamePatternSwap(Swap(pairs), q');
      SwapTwice(pairs);
      RunSwap(cap, q');
      SwapKeeps(NonZero(q'), cap);
      SwapTwice(w);
      ContentsExactly(cap, q');
      ReadSwap(Run(cap, q'), warmup, sqrt);
    }
  }
}
