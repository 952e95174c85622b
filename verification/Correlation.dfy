/** MovingSum and CorrelationWindow: running sums over the last capacity non-zero samples. */
module Correlation {
  import opened Rings

  // ---------------------------------------------------------------- sums over sequences

  function Sum(s: seq<real>): real {
    if s == [] then 0.0 else Sum(s[..|s| - 1]) + s[|s| - 1]
  }

  function Times(x: real, y: real): real {
    x * y
  }

  function Dot(a: seq<real>, b: seq<real>): real
    requires |a| == |b|
  {
    if a == [] then 0.0 else Dot(a[..|a| - 1], b[..|b| - 1]) + Times(a[|a| - 1], b[|b| - 1])
  }

  /** Every element of s less d. */
  function Minus(s: seq<real>, d: real): (r: seq<real>)
    ensures |r| == |s|
  {
    seq(|s|, i requires 0 <= i < |s| => s[i] - d)
  }

  lemma {:induction false} SumDropFirst(s: seq<real>)
    requires s != []
    ensures Sum(s) == s[0] + Sum(s[1..])
  {
    if |s| > 1 {
      SumDropFirst(s[..|s| - 1]);
      assert s[..|s| - 1][1..] == s[1..][..|s| - 2];
    }
  }

  lemma {:induction false} SumAppend(s: seq<real>, x: real)
    ensures Sum(s + [x]) == Sum(s) + x
  {
    assert (s + [x])[..|s|] == s;
  }

  /** A sum over a window that slides: the newest element comes in, the oldest goes out when the window is full. */
  lemma {:induction false} SumSlides(s: seq<real>, cap: nat, x: real)
    requires cap > 0 && |s| <= cap
    ensures Sum(LastN(s + [x], cap)) == Sum(s) - (if |s| == cap then s[0] else 0.0) + x
  {
    SumAppend(s, x);
    if |s| == cap {
      SumDropFirst(s + [x]);
    }
  }

  lemma {:induction false} DotDropFirst(a: seq<real>, b: seq<real>)
    requires |a| == |b| && a != []
    ensures Dot(a, b) == Times(a[0], b[0]) + Dot(a[1..], b[1..])
  {
    hide Times;
    if |a| > 1 {
      DotDropFirst(a[..|a| - 1], b[..|b| - 1]);
      assert a[..|a| - 1][1..] == a[1..][..|a| - 2];
      assert b[..|b| - 1][1..] == b[1..][..|b| - 2];
    }
  }

  lemma {:induction false} DotAppend(a: seq<real>, b: seq<real>, x: real, y: real)
    requires |a| == |b|
    ensures Dot(a + [x], b + [y]) == Dot(a, b) + Times(x, y)
  {
    hide Times;
    assert (a + [x])[..|a|] == a && (b + [y])[..|b|] == b;
  }

  lemma {:induction false} DotSlides(a: seq<real>, b: seq<real>, cap: nat, x: real, y: real)
    requires cap > 0 && |a| == |b| <= cap
    ensures Dot(LastN(a + [x], cap), LastN(b + [y], cap))
         == Dot(a, b) - (if |a| == cap then Times(a[0], b[0]) else 0.0) + Times(x, y)
  {
    hide Times, Dot;
    DotAppend(a, b, x, y);
    if |a| == cap {
      DotDropFirst(a + [x], b + [y]);
    }
  }

  lemma {:induction false} PositiveProduct(x: real, y: real, k: real)
    requires x > 0.0 && y > 0.0 && k == x * y
    ensures k > 0.0
  {
  }

  lemma {:induction false} SquareSign(x: real, k: real)
    requires k == x * x
    ensures k >= 0.0
    ensures x != 0.0 ==> k > 0.0
  {
    var y := if x < 0.0 then -x else x;
    assert k == y * y;
    if x != 0.0 {
      PositiveProduct(y, y, k);
    }
  }

  lemma {:induction false} DotSquareNonNegative(a: seq<real>)
    ensures Dot(a, a) >= 0.0
    ensures Dot(a, a) == 0.0 ==> forall i :: 0 <= i < |a| ==> a[i] == 0.0
  {
    if a != [] {
      var n := |a| - 1;
      DotSquareNonNegative(a[..n]);
      var k := Times(a[n], a[n]);
      SquareSign(a[n], k);
      if Dot(a, a) == 0.0 {
        assert forall i :: 0 <= i < n ==> a[i] == a[..n][i];
      }
    }
  }

  /** c is the dot product of two sequences of length n, with dot product d and sums sa and sb, less p and q. */
  ghost predicate Centred(c: real, d: real, sa: real, sb: real, n: real, p: real, q: real) {
    c == d - q * sa - p * sb + n * p * q
  }

  lemma {:induction false} CentredStep(c: real, d: real, sa: real, sb: real, n: real, p: real, q: real, x: real, y: real)
    requires Centred(c, d, sa, sb, n, p, q)
    ensures Centred(c + Times(x - p, y - q), d + Times(x, y), sa + x, sb + y, n + 1.0, p, q)
  {
  }

  lemma {:induction false} MinusAppend(s: seq<real>, x: real, d: real)
    ensures Minus(s + [x], d) == Minus(s, d) + [x - d]
  {
  }

  /** Centring both sequences, in terms of the plain sums. */
  lemma {:induction false} DotMinus(a: seq<real>, b: seq<real>, p: real, q: real)
    requires |a| == |b|
    ensures Centred(Dot(Minus(a, p), Minus(b, q)), Dot(a, b), Sum(a), Sum(b), |a| as real, p, q)
  {
    if a != [] {
      hide *;
      var n := |a| - 1;
      var a', x, b', y := a[..n], a[n], b[..n], b[n];
      assert a == a' + [x] && b == b' + [y];
      DotMinus(a', b', p, q);
      MinusAppend(a', x, p);
      MinusAppend(b', y, q);
      DotAppend(Minus(a', p), Minus(b', q), x - p, y - q);
      DotAppend(a', b', x, y);
      SumAppend(a', x);
      SumAppend(b', y);
      CentredStep(Dot(Minus(a', p), Minus(b', q)), Dot(a', b'), Sum(a'), Sum(b'), n as real, p, q, x, y);
    }
  }

  /** The quadratic aa - 2*t*ab + t*t*bb is not negative at t. */
  ghost predicate NonNegativeAt(aa: real, ab: real, bb: real, t: real) {
    aa - 2.0 * t * ab + t * t * bb >= 0.0
  }

  lemma {:induction false} NonNegativeStep(aa: real, ab: real, bb: real, x: real, y: real, t: real)
    requires NonNegativeAt(aa, ab, bb, t)
    ensures NonNegativeAt(aa + Times(x, x), ab + Times(x, y), bb + Times(y, y), t)
  {
    var z := x - t * y;
    assert z * z >= 0.0;
    assert z * z == x * x - 2.0 * t * (x * y) + t * t * (y * y);
  }

  /** The square of a - t*b, expanded, is never negative. */
  lemma {:induction false} DotOfDifference(a: seq<real>, b: seq<real>, t: real)
    requires |a| == |b|
    ensures NonNegativeAt(Dot(a, a), Dot(a, b), Dot(b, b), t)
  {
    if a != [] {
      hide Times, NonNegativeAt;
      var n := |a| - 1;
      DotOfDifference(a[..n], b[..n], t);
      NonNegativeStep(Dot(a[..n], a[..n]), Dot(a[..n], b[..n]), Dot(b[..n], b[..n]), a[n], b[n], t);
    }
  }

  lemma {:induction false} ZeroSquareZeroDot(a: seq<real>, b: seq<real>)
    requires |a| == |b| && forall i :: 0 <= i < |b| ==> b[i] == 0.0
    ensures Dot(a, b) == 0.0
  {
    if a != [] {
      var n := |a| - 1;
      ZeroSquareZeroDot(a[..n], b[..n]);
    }
  }

  lemma {:induction false} QuadraticDiscriminant(aa: real, ab: real, bb: real, t: real)
    requires bb > 0.0 && t == ab / bb
    requires NonNegativeAt(aa, ab, bb, t)
    ensures ab * ab <= aa * bb
  {
    assert t * bb == ab;
    assert t * t * bb == t * ab;
    assert (aa - t * ab) * bb >= 0.0;
    assert (t * ab) * bb == ab * ab;
  }

  /** Cauchy-Schwarz. */
  lemma {:induction false} CauchySchwarz(a: seq<real>, b: seq<real>)
    requires |a| == |b|
    ensures Dot(a, b) * Dot(a, b) <= Dot(a, a) * Dot(b, b)
  {
    DotSquareNonNegative(b);
    if Dot(b, b) == 0.0 {
      ZeroSquareZeroDot(a, b);
    } else {
      var t := Dot(a, b) / Dot(b, b);
      DotOfDifference(a, b, t);
      QuadraticDiscriminant(Dot(a, a), Dot(a, b), Dot(b, b), t);
    }
  }

  // ---------------------------------------------------------------- the window as a value

  /** The samples of the two windows, oldest first, and the running cross-sum. */
  datatype State = State(xs: seq<real>, ys: seq<real>, corrSumXY: real)

  const EMPTY := State([], [], 0.0)

  /** The window w after value is added: zeroes are ignored, and the oldest sample gives way when w is full. */
  function Slide(w: seq<real>, cap: nat, value: real): seq<real> {
    if value == 0.0 then w else LastN(w + [value], cap)
  }

  predicate Evicts(w: seq<real>, cap: nat, value: real) {
    value != 0.0 && |w| == cap
  }

  function Evicted(w: seq<real>, cap: nat, value: real): real
    requires cap > 0
  {
    if Evicts(w, cap, value) then w[0] else 0.0
  }

  function Step(s: State, cap: nat, x: real, y: real): State
    requires cap > 0
  {
    State(Slide(s.xs, cap, x), Slide(s.ys, cap, y),
          s.corrSumXY - (if Evicts(s.xs, cap, x) then Times(Evicted(s.xs, cap, x), Evicted(s.ys, cap, y)) else 0.0) + Times(x, y))
  }

  /** A coefficient of variation with the mean and variance it comes from; NaN as CalculateCV returns it. */
  datatype Variation = NaN | Variation(cv: real, mean: real, variance: real)

  function Mean(w: seq<real>): real
    requires w != []
  {
    Sum(w) / |w| as real
  }

  /** The population variance, by its definition over the whole window. */
  function Variance(w: seq<real>): real
    requires w != []
  {
    Dot(Minus(w, Mean(w)), Minus(w, Mean(w))) / |w| as real
  }

  function Covariance(a: seq<real>, b: seq<real>): real
    requires |a| == |b| && a != []
  {
    Dot(Minus(a, Mean(a)), Minus(b, Mean(b))) / |a| as real
  }

  ghost predicate IsSquareRoot(sqrt: real -> real) {
    forall v :: v >= 0.0 ==> sqrt(v) >= 0.0 && sqrt(v) * sqrt(v) == v
  }

  /** What CalculateCV returns for a window with the sums of w. */
  function VariationOf(w: seq<real>, sqrt: real -> real): Variation {
    if |w| < 2 || Mean(w) == 0.0 then NaN else Variation(sqrt(Variance(w)) / Mean(w), Mean(w), Variance(w))
  }

  const MIN_CV := 0.01

  /** What CorrelationWindow.Add returns once the samples are in. */
  datatype Reading = Reading(correlation: real, cvX: real, cvY: real)

  const NO_READING := Reading(0.0, 0.0, 0.0)

  function Read(s: State, warmup: nat, sqrt: real -> real): Reading
    requires IsSquareRoot(sqrt)
  {
    var vx, vy := VariationOf(s.xs, sqrt), VariationOf(s.ys, sqrt);
    if vx.NaN? || vy.NaN? || |s.xs| < warmup then NO_READING
    else if vx.cv < MIN_CV || vy.cv < MIN_CV then Reading(0.0, vx.cv, vy.cv)
    else
      var covariance := s.corrSumXY / |s.xs| as real - Times(vx.mean, vy.mean);
      var roots := Times(sqrt(vx.variance), sqrt(vy.variance));
      PositiveCv(s.xs, sqrt);
      PositiveCv(s.ys, sqrt);
      Reading(covariance / roots, vx.cv, vy.cv)
  }

  // ---------------------------------------------------------------- running sums are the sums of the window

  /** d/n - p*q is the centred dot product over n, when p and q are the means. */
  lemma {:induction false} CentredOverN(c: real, d: real, sa: real, sb: real, n: real)
    requires n > 0.0 && Centred(c, d, sa, sb, n, sa / n, sb / n)
    ensures c / n == d / n - Times(sa / n, sb / n)
  {
    var p, q := sa / n, sb / n;
    assert p * n == sa && q * n == sb;
    assert c == d - n * p * q by {
      assert q * sa == n * p * q;
      assert p * sb == n * p * q;
    }
    assert (d / n - p * q) * n == c by {
      assert d / n * n == d;
    }
  }

  /** The textbook covariance, from the running sums. */
  lemma {:induction false} CovarianceFromSums(a: seq<real>, b: seq<real>)
    requires |a| == |b| && a != []
    ensures Covariance(a, b) == Dot(a, b) / |a| as real - Times(Mean(a), Mean(b))
  {
    hide Dot, Sum, Times, Centred;
    DotMinus(a, b, Mean(a), Mean(b));
    CentredOverN(Dot(Minus(a, Mean(a)), Minus(b, Mean(b))), Dot(a, b), Sum(a), Sum(b), |a| as real);
  }

  lemma {:induction false} VarianceFromSums(w: seq<real>)
    requires w != []
    ensures Variance(w) == Dot(w, w) / |w| as real - Times(Mean(w), Mean(w))
  {
    CovarianceFromSums(w, w);
  }

  lemma {:induction false} VarianceNonNegative(w: seq<real>)
    requires w != []
    ensures Variance(w) >= 0.0
  {
    DotSquareNonNegative(Minus(w, Mean(w)));
  }

  lemma {:induction false} QuotientBound(c: real, vx: real, vy: real, n: real)
    requires n > 0.0 && c * c <= vx * vy
    ensures (c / n) * (c / n) <= (vx / n) * (vy / n)
  {
    var x, u, v := c / n, vx / n, vy / n;
    assert c == x * n && vx == u * n && vy == v * n;
    ProductOfScaled(x, x, n);
    ProductOfScaled(u, v, n);
    var k := n * n;
    PositiveProduct(n, n, k);
    ScaleDown(x * x, u * v, k, c * c, vx * vy);
  }

  lemma {:induction false} ProductOfScaled(x: real, y: real, n: real)
    ensures (x * n) * (y * n) == (x * y) * (n * n)
  {
  }

  lemma {:induction false} ScaleDown(u: real, v: real, k: real, uk: real, vk: real)
    requires k > 0.0 && uk == u * k && vk == v * k && uk <= vk
    ensures u <= v
  {
  }

  /** The covariance never exceeds the product of the standard deviations. */
  lemma {:induction false} CovarianceBound(a: seq<real>, b: seq<real>)
    requires |a| == |b| && a != []
    ensures Covariance(a, b) * Covariance(a, b) <= Variance(a) * Variance(b)
  {
    hide Dot;
    var ca, cb := Minus(a, Mean(a)), Minus(b, Mean(b));
    CauchySchwarz(ca, cb);
    QuotientBound(Dot(ca, cb), Dot(ca, ca), Dot(cb, cb), |a| as real);
  }

  lemma {:induction false} BoundedByRoot(c: real, r: real, cc: real, rr: real)
    requires r > 0.0 && cc == c * c && rr == r * r && cc <= rr
    ensures c <= r
  {
    var d, e := r - c, r + c;
    assert d * e == rr - cc;
    if e > 0.0 {
      assert d >= 0.0;
    }
  }

  /** A covariance bounded by two variances, over the product of their roots. */
  lemma {:induction false} RatioInUnit(c: real, rx: real, ry: real, vx: real, vy: real)
    requires rx >= 0.0 && ry >= 0.0 && rx * rx == vx && ry * ry == vy && rx * ry > 0.0 && c * c <= vx * vy
    ensures -1.0 <= c / (rx * ry) <= 1.0
  {
    var r := rx * ry;
    var q := c / r;
    ProductOfScaled(rx, rx, ry);
    BoundedByRoot(c, r, c * c, r * r);
    BoundedByRoot(-c, r, (-c) * (-c), r * r);
    assert q * r == c;
    ScaleDown(q, 1.0, r, c, r);
    ScaleDown(-1.0, q, r, -r, c);
  }

  lemma {:induction false} PositiveCv(w: seq<real>, sqrt: real -> real)
    requires IsSquareRoot(sqrt)
    requires VariationOf(w, sqrt).Variation? && VariationOf(w, sqrt).cv >= MIN_CV
    ensures VariationOf(w, sqrt).variance == Variance(w) && sqrt(Variance(w)) > 0.0
  {
    VarianceNonNegative(w);
  }

  // ---------------------------------------------------------------- whole runs

  /** The window after a run of finite pairs. */
  function Run(cap: nat, pairs: seq<(real, real)>): State
    requires cap > 0
  {
    if pairs == [] then EMPTY
    else
      var last := pairs[|pairs| - 1];
      Step(Run(cap, pairs[..|pairs| - 1]), cap, last.0, last.1)
  }

  /** Both coordinates are zero, or neither is. */
  predicate Aligned(pairs: seq<(real, real)>) {
    forall i :: 0 <= i < |pairs| ==> (pairs[i].0 == 0.0 <==> pairs[i].1 == 0.0)
  }

  /** The pairs that are not (0, 0), in order. */
  function NonZero(pairs: seq<(real, real)>): seq<(real, real)> {
    if pairs == [] then []
    else
      var last := pairs[|pairs| - 1];
      NonZero(pairs[..|pairs| - 1]) + (if last.0 == 0.0 && last.1 == 0.0 then [] else [last])
  }

  function Firsts(pairs: seq<(real, real)>): (r: seq<real>)
    ensures |r| == |pairs|
  {
    seq(|pairs|, i requires 0 <= i < |pairs| => pairs[i].0)
  }

  function Seconds(pairs: seq<(real, real)>): (r: seq<real>)
    ensures |r| == |pairs|
  {
    seq(|pairs|, i requires 0 <= i < |pairs| => pairs[i].1)
  }

  /** The state holds exactly the pairs w. */
  ghost predicate Holds(s: State, w: seq<(real, real)>) {
    s.xs == Firsts(w) && s.ys == Seconds(w) && s.corrSumXY == Dot(s.xs, s.ys)
  }

  lemma {:induction false} CoordinatesAppend(w: seq<(real, real)>, p: (real, real))
    ensures Firsts(w + [p]) == Firsts(w) + [p.0] && Seconds(w + [p]) == Seconds(w) + [p.1]
  {
  }

  lemma {:induction false} CoordinatesOfLast(w: seq<(real, real)>, cap: nat)
    ensures Firsts(LastN(w, cap)) == LastN(Firsts(w), cap) && Seconds(LastN(w, cap)) == LastN(Seconds(w), cap)
  {
  }

  lemma {:induction false} StepHolds(s: State, w: seq<(real, real)>, cap: nat, x: real, y: real)
    requires cap > 0 && |w| <= cap && Holds(s, w) && x != 0.0 && y != 0.0
    ensures Holds(Step(s, cap, x, y), LastN(w + [(x, y)], cap))
  {
    hide Dot, Times, Firsts, Seconds, LastN;
    DotSlides(s.xs, s.ys, cap, x, y);
    CoordinatesAppend(w, (x, y));
    CoordinatesOfLast(w + [(x, y)], cap);
  }

  /** Over any aligned run the windows hold the last cap non-zero pairs, and the cross-sum is theirs. */
  lemma {:induction false} RunWindow(cap: nat, pairs: seq<(real, real)>)
    requires cap > 0 && Aligned(pairs)
    ensures Holds(Run(cap, pairs), LastN(NonZero(pairs), cap))
  {
    hide Dot, LastN, Firsts, Seconds, Holds, Step;
    if pairs == [] {
      NothingHeld(cap);
    } else {
      var n := |pairs| - 1;
      var (x, y) := pairs[n];
      RunWindow(cap, pairs[..n]);
      var s, nz := Run(cap, pairs[..n]), NonZero(pairs[..n]);
      if x != 0.0 {
        LastNSlides(nz, (x, y), cap);
        StepHolds(s, LastN(nz, cap), cap, x, y);
      } else {
        ZeroPairChangesNothing(s, cap);
        assert nz + [] == nz;
      }
    }
  }

  lemma {:induction false} NothingHeld(cap: nat)
    ensures Holds(EMPTY, LastN([], cap))
  {
  }

  lemma {:induction false} ZeroPairChangesNothing(s: State, cap: nat)
    requires cap > 0
    ensures Step(s, cap, 0.0, 0.0) == s
  {
  }

  /** Zeroes never enter the windows. */
  lemma {:induction false} WindowsHoldNoZero(cap: nat, pairs: seq<(real, real)>)
    requires cap > 0
    ensures var s := Run(cap, pairs); 0.0 !in s.xs && 0.0 !in s.ys
  {
    if pairs != [] {
      WindowsHoldNoZero(cap, pairs[..|pairs| - 1]);
    }
  }

  lemma {:induction false} AlignedAppend(front: seq<(real, real)>, last: (real, real))
    ensures Aligned(front + [last]) <==> Aligned(front) && (last.0 == 0.0 <==> last.1 == 0.0)
  {
    var s := front + [last];
    assert s[|front|] == last && forall i :: 0 <= i < |front| ==> front[i] == s[i];
  }

  lemma {:induction false} AlignedNonZero(pairs: seq<(real, real)>)
    ensures Aligned(NonZero(pairs)) <==> Aligned(pairs)
  {
    if pairs != [] {
      var n := |pairs| - 1;
      AlignedNonZero(pairs[..n]);
      assert pairs == pairs[..n] + [pairs[n]];
      AlignedAppend(pairs[..n], pairs[n]);
      AlignedAppend(NonZero(pairs[..n]), pairs[n]);
      assert NonZero(pairs[..n]) + [] == NonZero(pairs[..n]);
    }
  }

  /** The Pearson coefficient by its definition. */
  ghost predicate IsPearson(r: real, a: seq<real>, b: seq<real>, sqrt: real -> real) {
    && |a| == |b| && a != []
    && sqrt(Variance(a)) * sqrt(Variance(b)) > 0.0
    && r == Covariance(a, b) / (sqrt(Variance(a)) * sqrt(Variance(b)))
  }

  lemma {:induction false} Root(sqrt: real -> real, v: real)
    requires IsSquareRoot(sqrt) && v >= 0.0
    ensures sqrt(v) >= 0.0 && sqrt(v) * sqrt(v) == v
  {
  }

  lemma {:induction false} PearsonInUnit(r: real, a: seq<real>, b: seq<real>, sqrt: real -> real)
    requires IsSquareRoot(sqrt) && IsPearson(r, a, b, sqrt)
    ensures -1.0 <= r <= 1.0
  {
    hide Variance, Covariance, IsSquareRoot;
    var va, vb := Variance(a), Variance(b);
    CovarianceBound(a, b);
    VarianceNonNegative(a);
    VarianceNonNegative(b);
    Root(sqrt, va);
    Root(sqrt, vb);
    RatioInUnit(Covariance(a, b), sqrt(va), sqrt(vb), va, vb);
  }

  /** w has two samples or more and a positive mean, and varies by one percent of it or more. */
  ghost predicate Varies(w: seq<real>, sqrt: real -> real) {
    |w| >= 2 && Mean(w) != 0.0 && sqrt(Variance(w)) / Mean(w) >= 0.01
  }

  /** The two coefficients of variation that are read are the windows' own, each in its place, once both windows have two
      samples and a mean and the first is past the warmup; zero until then. */
  lemma {:induction false} ReadVariations(s: State, warmup: nat, sqrt: real -> real)
    requires IsSquareRoot(sqrt)
    ensures var r := Read(s, warmup, sqrt);
            if |s.xs| >= 2 && |s.ys| >= 2 && Mean(s.xs) != 0.0 && Mean(s.ys) != 0.0 && |s.xs| >= warmup
            then r.cvX == sqrt(Variance(s.xs)) / Mean(s.xs) && r.cvY == sqrt(Variance(s.ys)) / Mean(s.ys)
            else r.cvX == 0.0 && r.cvY == 0.0
  {
    hide Mean, Variance, IsSquareRoot;
  }

  lemma {:induction false} ReadIsPearson(s: State, warmup: nat, sqrt: real -> real)
    requires IsSquareRoot(sqrt) && |s.xs| == |s.ys| && s.corrSumXY == Dot(s.xs, s.ys)
    ensures var r := Read(s, warmup, sqrt).correlation;
            if |s.xs| >= warmup && Varies(s.xs, sqrt) && Varies(s.ys, sqrt)
            then IsPearson(r, s.xs, s.ys, sqrt) else r == 0.0
  {
    hide Variance, Covariance, Dot, Sum;
    var vx, vy := VariationOf(s.xs, sqrt), VariationOf(s.ys, sqrt);
    if vx.Variation? && vy.Variation? && vx.cv >= MIN_CV && vy.cv >= MIN_CV {
      PositiveCv(s.xs, sqrt);
      PositiveCv(s.ys, sqrt);
      var roots := sqrt(Variance(s.xs)) * sqrt(Variance(s.ys));
      PositiveProduct(sqrt(Variance(s.xs)), sqrt(Variance(s.ys)), roots);
      CovarianceFromSums(s.xs, s.ys);
    }
  }

  /** The reading r is the Pearson coefficient of the pairs w once they are past the warmup and both sides vary enough,
      and zero until then. */
  ghost predicate ReadsPearson(r: real, w: seq<(real, real)>, warmup: nat, sqrt: real -> real) {
    if |w| >= warmup && Varies(Firsts(w), sqrt) && Varies(Seconds(w), sqrt)
    then IsPearson(r, Firsts(w), Seconds(w), sqrt) else r == 0.0
  }

  lemma {:induction false} HeldPairsRead(s: State, w: seq<(real, real)>, warmup: nat, sqrt: real -> real)
    requires Holds(s, w) && IsSquareRoot(sqrt)
    ensures var r := Read(s, warmup, sqrt).correlation; -1.0 <= r <= 1.0 && ReadsPearson(r, w, warmup, sqrt)
  {
    hide Varies;
    ReadIsPearson(s, warmup, sqrt);
    var r := Read(s, warmup, sqrt).correlation;
    if r != 0.0 {
      PearsonInUnit(r, s.xs, s.ys, sqrt);
    }
  }

  /** Alignment matters: one pair with a single zero leaves the cross-sum behind the windows,
      and the "correlation" read next is -5. */
  lemma {:induction false} MisalignedPairBreaksCorrelation(sqrt: real -> real)
    requires IsSquareRoot(sqrt)
    ensures Read(Run(2, [(1.0, 1.0), (2.0, 2.0), (3.0, 0.0)]), 0, sqrt).correlation == -5.0
  {
    hide Variance, Mean, Run;
    MisalignedRun();
    TwoSamples(2.0, 3.0);
    TwoSamples(1.0, 2.0);
    RootOfQuarter(sqrt(0.25));
  }

  lemma {:induction false} MisalignedRun()
    ensures Run(2, [(1.0, 1.0), (2.0, 2.0), (3.0, 0.0)]) == State([2.0, 3.0], [1.0, 2.0], 5.0)
  {
    hide Step;
    var p1, p2, p3 := (1.0, 1.0), (2.0, 2.0), (3.0, 0.0);
    assert [p1, p2][..1] == [p1] && [p1, p2, p3][..2] == [p1, p2];
    MisalignedSteps();
    assert Run(2, [p1]) == Step(EMPTY, 2, 1.0, 1.0);
    assert Run(2, [p1, p2]) == Step(Run(2, [p1]), 2, 2.0, 2.0);
  }

  lemma {:induction false} MisalignedSteps()
    ensures Step(EMPTY, 2, 1.0, 1.0) == State([1.0], [1.0], 1.0)
    ensures Step(State([1.0], [1.0], 1.0), 2, 2.0, 2.0) == State([1.0, 2.0], [1.0, 2.0], 5.0)
    ensures Step(State([1.0, 2.0], [1.0, 2.0], 5.0), 2, 3.0, 0.0) == State([2.0, 3.0], [1.0, 2.0], 5.0)
  {
    hide Slide;
    MisalignedSlides();
  }

  lemma {:induction false} MisalignedSlides()
    ensures Slide([], 2, 1.0) == [1.0]
    ensures Slide([1.0], 2, 2.0) == [1.0, 2.0]
    ensures Slide([1.0, 2.0], 2, 3.0) == [2.0, 3.0] && Slide([1.0, 2.0], 2, 0.0) == [1.0, 2.0]
  {
    assert LastN([] + [1.0], 2) == [1.0];
    assert LastN([1.0] + [2.0], 2) == [1.0, 2.0];
    assert LastN([1.0, 2.0] + [3.0], 2) == [2.0, 3.0];
  }

  /** The mean and variance of two samples. */
  lemma {:induction false} TwoSamples(x: real, y: real)
    ensures Mean([x, y]) == (x + y) / 2.0
    ensures Variance([x, y]) == (x - y) * (x - y) / 4.0
  {
    var m := (x + y) / 2.0;
    assert [x, y][..1] == [x];
    assert Sum([x]) == x;
    assert Mean([x, y]) == m;
    var c := Minus([x, y], m);
    assert c == [x - m, y - m];
    assert c[..1] == [x - m];
    assert Dot([x - m], [x - m]) == (x - m) * (x - m);
    assert x - m == (x - y) / 2.0 && y - m == -((x - y) / 2.0);
  }

  lemma {:induction false} RootOfQuarter(r: real)
    requires r >= 0.0 && r * r == 0.25
    ensures r == 0.5
  {
    var d, e := r - 0.5, r + 0.5;
    assert d * e == 0.0;
    assert d == (d * e) / e;
  }
}
