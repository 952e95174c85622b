/** Exactly which patterns of zeroes keep the correlation read between -1 and 1, for all values and every run. */
module ReadingRange {
  import opened Rings
  import opened Correlation
  import opened Alignment
  import opened Readings

  // ---------------------------------------------------------------- the windows of a run

  /** The values that are not zero, in order. */
  function Kept(v: seq<real>): seq<real> {
    if v == [] then []
    else Kept(v[..|v| - 1]) + (if v[|v| - 1] == 0.0 then [] else [v[|v| - 1]])
  }

  lemma {:induction false} KeptAppend(v: seq<real>, x: real)
    ensures Kept(v + [x]) == if x == 0.0 then Kept(v) else Kept(v) + [x]
  {
    assert (v + [x])[..|v|] == v && Kept(v) + [] == Kept(v);
  }

  lemma {:induction false} KeptPrepend(x: real, v: seq<real>)
    ensures Kept([x] + v) == if x == 0.0 then Kept(v) else [x] + Kept(v)
  {
    hide Kept;
    if v == [] {
      assert [x] + v == [] + [x] && v + [] == v && [x] + v == [x];
      KeptAppend([], x);
      KeptOfNone();
    } else {
      var front, last := v[..|v| - 1], v[|v| - 1];
      assert v == front + [last] && [x] + v == ([x] + front) + [last];
      KeptPrepend(x, front);
      KeptAppend([x] + front, last);
      KeptAppend(front, last);
      assert ([x] + Kept(front)) + [last] == [x] + (Kept(front) + [last]);
    }
  }

  lemma {:induction false} KeptOfNone()
    ensures Kept([]) == []
  {
  }

  /** Each window holds the last cap values of its coordinate that are not zero. */
  lemma {:induction false} RunKeeps(cap: nat, pairs: seq<Pair>)
    requires cap > 0
    ensures var s := Run(cap, pairs);
            s.xs == LastN(Kept(Firsts(pairs)), cap) && s.ys == LastN(Kept(Seconds(pairs)), cap)
  {
    if pairs == [] {
      assert Firsts(pairs) == [] && Seconds(pairs) == [];
    } else {
      hide Run, Kept, Firsts, Seconds, LastN, Times;
      var front, p := pairs[..|pairs| - 1], pairs[|pairs| - 1];
      assert pairs == front + [p];
      RunKeeps(cap, front);
      RunAppend(cap, front, p);
      CoordinatesAppend(front, p);
      KeptAppend(Firsts(front), p.0);
      KeptAppend(Seconds(front), p.1);
      LastNSlides(Kept(Firsts(front)), p.0, cap);
      LastNSlides(Kept(Seconds(front)), p.1, cap);
    }
  }

  // ---------------------------------------------------------------- samples with and without a partner

  /** Of a run: its non-zero first and second coordinates, and among those in the windows at its end, the pairs with both
      and the coordinates without the other. */
  datatype Census = Census(x: nat, y: nat, both: nat, onlyX: nat, onlyY: nat)

  const NO_PAIRS := Census(0, 0, 0, 0, 0)

  /** Whether the coordinate v, followed by n non-zero ones, is in its window at the end. */
  predicate Stays(v: real, n: nat, cap: nat) {
    v != 0.0 && n < cap
  }

  /** The census with pair p in front of the run counted by c. */
  function Counted(c: Census, p: Pair, cap: nat): Census {
    var x, y := Stays(p.0, c.x, cap), Stays(p.1, c.y, cap);
    Census(c.x + (if p.0 != 0.0 then 1 else 0), c.y + (if p.1 != 0.0 then 1 else 0),
           c.both + (if x && y then 1 else 0), c.onlyX + (if x && !y then 1 else 0), c.onlyY + (if y && !x then 1 else 0))
  }

  function CensusOf(cap: nat, pairs: seq<Pair>): (c: Census)
    ensures c.both + c.onlyX == (if c.x < cap then c.x else cap) && c.both + c.onlyY == (if c.y < cap then c.y else cap)
  {
    if pairs == [] then NO_PAIRS else Counted(CensusOf(cap, pairs[1..]), pairs[0], cap)
  }

  lemma {:induction false} CensusWithin(cap: nat, pairs: seq<Pair>)
    ensures CensusOf(cap, pairs).x <= |NonZero(pairs)| && CensusOf(cap, pairs).y <= |NonZero(pairs)|
  {
    if pairs != [] {
      hide NonZero;
      var p, rest := pairs[0], pairs[1..];
      assert pairs == [p] + rest;
      CensusWithin(cap, rest);
      NonZeroConcat([p], rest);
      NonZeroOne(p);
    }
  }

  /** When every sample in the windows has its partner there, the last non-zero pairs are aligned. */
  lemma {:induction false} AllPartneredAligned(cap: nat, pairs: seq<Pair>)
    requires CensusOf(cap, pairs).onlyX == 0 && CensusOf(cap, pairs).onlyY == 0
    ensures Aligned(LastN(NonZero(pairs), cap))
  {
    if pairs == [] {
      assert LastN(NonZero(pairs), cap) == [];
    } else {
      hide NonZero, LastN, Aligned;
      var p, rest := pairs[0], pairs[1..];
      assert pairs == [p] + rest;
      AllPartneredAligned(cap, rest);
      CensusWithin(cap, rest);
      NonZeroConcat([p], rest);
      NonZeroOne(p);
      if |NonZero(rest)| >= cap {
        LastNOfConcat(NonZero([p]), NonZero(rest), cap);
      } else {
        WholeWindow(NonZero([p]), NonZero(rest), cap);
        AlignedOne(p);
        AlignedConcat(NonZero([p]), NonZero(rest));
      }
    }
  }

  lemma {:induction false} AlignedOne(p: Pair)
    requires p.0 == 0.0 <==> p.1 == 0.0
    ensures Aligned([]) && Aligned([p])
  {
  }

  lemma {:induction false} NonZeroOne(p: Pair)
    ensures NonZero([p]) == if p == (0.0, 0.0) then [] else [p]
  {
    NonZeroAppend([], p);
    assert [] + [p] == [p];
  }

  lemma {:induction false} WholeWindow(a: seq<Pair>, b: seq<Pair>, cap: nat)
    requires |a| <= 1 && |b| < cap
    ensures LastN(a + b, cap) == a + b && LastN(b, cap) == b
  {
  }

  lemma {:induction false} AlignedConcat(a: seq<Pair>, b: seq<Pair>)
    requires Aligned(b) && Aligned(a)
    ensures Aligned(a + b)
  {
  }

  // ---------------------------------------------------------------- values that spoil the reading

  /** The first coordinate of the j-th pair in the windows, counted from the newest: ones and threes in turn, after a two
      when their number is odd. The second coordinate is what is missing to four. */
  function Partnered(j: nat, odd: bool): int {
    if odd && j == 0 then 2 else if (j % 2 == 0) == odd then 3 else 1
  }

  /** The j-th coordinate without a partner: threes and twos in turn. */
  function Lone(j: nat): int {
    if j % 2 == 0 then 3 else 2
  }

  /** The pair at p's place in front of the run counted by c; what has left its window by the end is eps. */
  function Filled(p: Pair, c: Census, cap: nat, odd: bool, eps: real): Pair {
    var x, y := Stays(p.0, c.x, cap), Stays(p.1, c.y, cap);
    (if p.0 == 0.0 then 0.0 else if !x then eps else if y then Partnered(c.both, odd) as real else Lone(c.onlyX) as real,
     if p.1 == 0.0 then 0.0 else if !y then eps else if x then (4 - Partnered(c.both, odd)) as real else Lone(c.onlyY) as real)
  }

  function Fill(cap: nat, pairs: seq<Pair>, odd: bool, eps: real): (r: seq<Pair>)
    ensures |r| == |pairs|
  {
    if pairs == [] then []
    else [Filled(pairs[0], CensusOf(cap, pairs[1..]), cap, odd, eps)] + Fill(cap, pairs[1..], odd, eps)
  }

  /** Zeroes stay where they are, and nothing is negative. */
  lemma {:induction false} FillPattern(cap: nat, pairs: seq<Pair>, odd: bool, eps: real)
    requires eps > 0.0
    ensures SamePattern(pairs, Fill(cap, pairs, odd, eps))
    ensures NonNegative(Firsts(Fill(cap, pairs, odd, eps))) && NonNegative(Seconds(Fill(cap, pairs, odd, eps)))
  {
    hide *;
    if pairs == [] {
      NothingToFill(cap, odd, eps);
    } else {
      var c, rest := CensusOf(cap, pairs[1..]), Fill(cap, pairs[1..], odd, eps);
      var p := Filled(pairs[0], c, cap, odd, eps);
      assert pairs == [pairs[0]] + pairs[1..];
      FillPattern(cap, pairs[1..], odd, eps);
      FillStep(cap, pairs, odd, eps);
      FilledAlike(pairs[0], c, cap, odd, eps);
      PatternPrepend(pairs[0], p, pairs[1..], rest);
      FirstsPrepend(p, rest);
      NonNegativePrepend(p.0, Firsts(rest));
      NonNegativePrepend(p.1, Seconds(rest));
    }
  }

  lemma {:induction false} NothingToFill(cap: nat, odd: bool, eps: real)
    ensures SamePattern([], Fill(cap, [], odd, eps))
    ensures NonNegative(Firsts(Fill(cap, [], odd, eps))) && NonNegative(Seconds(Fill(cap, [], odd, eps)))
  {
  }

  lemma {:induction false} FilledAlike(p: Pair, c: Census, cap: nat, odd: bool, eps: real)
    requires eps > 0.0
    ensures var q := Filled(p, c, cap, odd, eps);
            (p.0 == 0.0 <==> q.0 == 0.0) && (p.1 == 0.0 <==> q.1 == 0.0) && q.0 >= 0.0 && q.1 >= 0.0
  {
  }

  lemma {:induction false} PatternPrepend(p: Pair, q: Pair, a: seq<Pair>, b: seq<Pair>)
    requires SamePattern(a, b) && (p.0 == 0.0 <==> q.0 == 0.0) && (p.1 == 0.0 <==> q.1 == 0.0)
    ensures SamePattern([p] + a, [q] + b)
  {
    assert forall i :: 0 < i <= |a| ==> ([p] + a)[i] == a[i - 1] && ([q] + b)[i] == b[i - 1];
  }

  lemma {:induction false} NonNegativePrepend(x: real, w: seq<real>)
    requires NonNegative(w) && x >= 0.0
    ensures NonNegative([x] + w)
  {
  }

  // ---------------------------------------------------------------- the sums of those values

  function Square(v: int): int {
    v * v
  }

  lemma {:induction false} SmallSquare(v: int)
    requires 1 <= v <= 3
    ensures Times(v as real, v as real) == Square(v) as real
    ensures Square(4 - v) == 16 - 8 * v + Square(v)
    ensures Times(v as real, (4 - v) as real) == (4 * v - Square(v)) as real
  {
    if v == 1 {
    } else if v == 2 {
    } else {
    }
  }

  function PartneredSum(b: nat, odd: bool): int {
    if b == 0 then 0 else PartneredSum(b - 1, odd) + Partnered(b - 1, odd)
  }

  function PartneredSquares(b: nat, odd: bool): int {
    if b == 0 then 0 else PartneredSquares(b - 1, odd) + Square(Partnered(b - 1, odd))
  }

  function LoneSum(h: nat): int {
    if h == 0 then 0 else LoneSum(h - 1) + Lone(h - 1)
  }

  function LoneSquares(h: nat): int {
    if h == 0 then 0 else LoneSquares(h - 1) + Square(Lone(h - 1))
  }

  lemma {:induction false} LoneTotals(h: nat)
    ensures LoneSum(h) == 5 * (h / 2) + 3 * (h % 2) && LoneSquares(h) == 13 * (h / 2) + 9 * (h % 2)
  {
    if h > 0 {
      LoneTotals(h - 1);
    }
  }

  lemma {:induction false} PartneredTotals(b: nat, odd: bool)
    ensures odd && b > 0 ==>
              && PartneredSum(b, odd) == 2 * b - (if b % 2 == 0 then 1 else 0)
              && PartneredSquares(b, odd) == (if b % 2 == 1 then 4 + 5 * (b - 1) else 5 + 5 * (b - 2))
    ensures !odd ==>
              && PartneredSum(b, odd) == 2 * b - (if b % 2 == 1 then 1 else 0)
              && PartneredSquares(b, odd) == (if b % 2 == 0 then 5 * b else 1 + 5 * (b - 1))
  {
    if b > 0 {
      PartneredTotals(b - 1, odd);
    }
  }

  /** k has n values, and the sum and the sum of squares of its last cap are these. */
  ghost predicate Totals(k: seq<real>, cap: nat, n: nat, sum: int, squares: int) {
    && |k| == n && Sum(LastN(k, cap)) == sum as real && Dot(LastN(k, cap), LastN(k, cap)) == squares as real
  }

  /** One more value in front, which the window still reaches. */
  lemma {:induction false} InWindow(k: seq<real>, cap: nat, n: nat, sum: int, squares: int, v: int)
    requires Totals(k, cap, n, sum, squares) && n < cap && 1 <= v <= 3
    ensures Totals([v as real] + k, cap, n + 1, sum + v, squares + Square(v))
  {
    hide Sum, Dot, Times, Square, LastN;
    SmallSquare(v);
    var w := [v as real] + k;
    assert LastN(w, cap) == w && LastN(k, cap) == k && w[1..] == k;
    SumDropFirst(w);
    DotDropFirst(w, w);
  }

  /** One more value in front, which the window no longer reaches. */
  lemma {:induction false} OutOfWindow(k: seq<real>, cap: nat, n: nat, sum: int, squares: int, x: real)
    requires Totals(k, cap, n, sum, squares) && n >= cap
    ensures Totals([x] + k, cap, n + 1, sum, squares)
  {
    LastNOfConcat([x], k, cap);
  }

  function FirstSum(c: Census, odd: bool): int {
    PartneredSum(c.both, odd) + LoneSum(c.onlyX)
  }

  function FirstSquares(c: Census, odd: bool): int {
    PartneredSquares(c.both, odd) + LoneSquares(c.onlyX)
  }

  function SecondSum(c: Census, odd: bool): int {
    4 * c.both - PartneredSum(c.both, odd) + LoneSum(c.onlyY)
  }

  function SecondSquares(c: Census, odd: bool): int {
    16 * c.both - 8 * PartneredSum(c.both, odd) + PartneredSquares(c.both, odd) + LoneSquares(c.onlyY)
  }

  lemma {:induction false} FillStep(cap: nat, pairs: seq<Pair>, odd: bool, eps: real)
    requires pairs != []
    ensures var c := CensusOf(cap, pairs[1..]);
            && CensusOf(cap, pairs) == Counted(c, pairs[0], cap)
            && Fill(cap, pairs, odd, eps) == [Filled(pairs[0], c, cap, odd, eps)] + Fill(cap, pairs[1..], odd, eps)
  {
  }

  lemma {:induction false} FirstStep(k: seq<real>, c: Census, p: Pair, cap: nat, odd: bool, eps: real)
    requires eps > 0.0 && Totals(k, cap, c.x, FirstSum(c, odd), FirstSquares(c, odd))
    ensures var x, c' := Filled(p, c, cap, odd, eps).0, Counted(c, p, cap);
            Totals(if x == 0.0 then k else [x] + k, cap, c'.x, FirstSum(c', odd), FirstSquares(c', odd))
  {
    hide Totals, Partnered, Lone, Square;
    PartneredRange(c.both, odd);
    LoneRange(c.onlyX);
    if p.0 != 0.0 {
      if c.x >= cap {
        OutOfWindow(k, cap, c.x, FirstSum(c, odd), FirstSquares(c, odd), eps);
      } else if Stays(p.1, c.y, cap) {
        InWindow(k, cap, c.x, FirstSum(c, odd), FirstSquares(c, odd), Partnered(c.both, odd));
      } else {
        InWindow(k, cap, c.x, FirstSum(c, odd), FirstSquares(c, odd), Lone(c.onlyX));
      }
    }
  }

  lemma {:induction false} SecondStep(k: seq<real>, c: Census, p: Pair, cap: nat, odd: bool, eps: real)
    requires eps > 0.0 && Totals(k, cap, c.y, SecondSum(c, odd), SecondSquares(c, odd))
    ensures var y, c' := Filled(p, c, cap, odd, eps).1, Counted(c, p, cap);
            Totals(if y == 0.0 then k else [y] + k, cap, c'.y, SecondSum(c', odd), SecondSquares(c', odd))
  {
    hide Totals, Partnered, Lone, Square;
    PartneredRange(c.both, odd);
    LoneRange(c.onlyY);
    if p.1 != 0.0 {
      if c.y >= cap {
        OutOfWindow(k, cap, c.y, SecondSum(c, odd), SecondSquares(c, odd), eps);
      } else if Stays(p.0, c.x, cap) {
        SmallSquare(Partnered(c.both, odd));
        InWindow(k, cap, c.y, SecondSum(c, odd), SecondSquares(c, odd), 4 - Partnered(c.both, odd));
      } else {
        InWindow(k, cap, c.y, SecondSum(c, odd), SecondSquares(c, odd), Lone(c.onlyY));
      }
    }
  }

  /** The totals of the two windows after the filled run. */
  lemma {:induction false} FilledTotals(cap: nat, pairs: seq<Pair>, odd: bool, eps: real)
    requires eps > 0.0
    ensures var c, q := CensusOf(cap, pairs), Fill(cap, pairs, odd, eps);
            && Totals(Kept(Firsts(q)), cap, c.x, FirstSum(c, odd), FirstSquares(c, odd))
            && Totals(Kept(Seconds(q)), cap, c.y, SecondSum(c, odd), SecondSquares(c, odd))
  {
    hide *;
    if pairs == [] {
      NothingFilled(cap, odd, eps);
    } else {
      var c, rest := CensusOf(cap, pairs[1..]), Fill(cap, pairs[1..], odd, eps);
      var p := Filled(pairs[0], c, cap, odd, eps);
      FilledTotals(cap, pairs[1..], odd, eps);
      FillStep(cap, pairs, odd, eps);
      FirstsPrepend(p, rest);
      KeptPrepend(p.0, Firsts(rest));
      KeptPrepend(p.1, Seconds(rest));
      FirstStep(Kept(Firsts(rest)), c, pairs[0], cap, odd, eps);
      SecondStep(Kept(Seconds(rest)), c, pairs[0], cap, odd, eps);
    }
  }

  lemma {:induction false} NothingFilled(cap: nat, odd: bool, eps: real)
    ensures var c, q := CensusOf(cap, []), Fill(cap, [], odd, eps);
            && Totals(Kept(Firsts(q)), cap, c.x, FirstSum(c, odd), FirstSquares(c, odd))
            && Totals(Kept(Seconds(q)), cap, c.y, SecondSum(c, odd), SecondSquares(c, odd))
            && c.both == 0 && Dot(Firsts(q), Seconds(q)) == 0.0
  {
    assert Firsts([]) == [] && Seconds([]) == [] && LastN<real>([], cap) == [];
  }

  lemma {:induction false} FirstsOfNone()
    ensures Firsts([]) == [] && Seconds([]) == []
  {
  }

  lemma {:induction false} FirstsPrepend(p: Pair, rest: seq<Pair>)
    ensures Firsts([p] + rest) == [p.0] + Firsts(rest) && Seconds([p] + rest) == [p.1] + Seconds(rest)
  {
  }

  lemma {:induction false} PartneredRange(j: nat, odd: bool)
    ensures 1 <= Partnered(j, odd) <= 3
  {
  }

  lemma {:induction false} LoneRange(j: nat)
    ensures 2 <= Lone(j) <= 3
  {
  }

  // ---------------------------------------------------------------- their cross-sum

  lemma {:induction false} ProductNonNegative(x: real, y: real)
    requires x >= 0.0 && y >= 0.0
    ensures Times(x, y) >= 0.0
  {
  }

  ghost predicate NonNegative(w: seq<real>) {
    forall i :: 0 <= i < |w| ==> w[i] >= 0.0
  }

  lemma {:induction false} SlideNonNegative(w: seq<real>, cap: nat, x: real)
    requires cap > 0 && NonNegative(w) && x >= 0.0
    ensures NonNegative(Slide(w, cap, x)) && Evicted(w, cap, x) >= 0.0
  {
  }

  lemma {:induction false} StepAtMost(s: State, cap: nat, p: Pair)
    requires cap > 0 && NonNegative(s.xs) && NonNegative(s.ys) && p.0 >= 0.0 && p.1 >= 0.0
    ensures var s' := Step(s, cap, p.0, p.1);
            NonNegative(s'.xs) && NonNegative(s'.ys) && s'.corrSumXY <= s.corrSumXY + Times(p.0, p.1)
  {
    hide Slide, Evicted, NonNegative, Times;
    SlideNonNegative(s.xs, cap, p.0);
    SlideNonNegative(s.ys, cap, p.1);
    ProductNonNegative(Evicted(s.xs, cap, p.0), Evicted(s.ys, cap, p.1));
  }

  /** With nothing negative, evictions only lower the cross-sum. */
  lemma {:induction false} CrossSumAtMost(cap: nat, pairs: seq<Pair>)
    requires cap > 0 && NonNegative(Firsts(pairs)) && NonNegative(Seconds(pairs))
    ensures var s := Run(cap, pairs);
            s.corrSumXY <= Dot(Firsts(pairs), Seconds(pairs)) && NonNegative(s.xs) && NonNegative(s.ys)
  {
    if pairs == [] {
      FirstsOfNone();
    } else {
      var front, p := pairs[..|pairs| - 1], pairs[|pairs| - 1];
      assert pairs == front + [p];
      CoordinatesAppend(front, p);
      NonNegativeFront(Firsts(front), p.0);
      NonNegativeFront(Seconds(front), p.1);
      hide *;
      CrossSumAtMost(cap, front);
      RunAppend(cap, front, p);
      StepAtMost(Run(cap, front), cap, p);
      DotAppend(Firsts(front), Seconds(front), p.0, p.1);
    }
  }

  lemma {:induction false} NonNegativeFront(w: seq<real>, x: real)
    ensures NonNegative(w + [x]) <==> NonNegative(w) && x >= 0.0
  {
    var v := w + [x];
    assert v[|w|] == x && forall i :: 0 <= i < |w| ==> w[i] == v[i];
  }

  function Products(c: Census, odd: bool): int {
    4 * PartneredSum(c.both, odd) - PartneredSquares(c.both, odd)
  }

  lemma {:induction false} ProductStep(c: Census, p: Pair, cap: nat, odd: bool, eps: real)
    requires 0.0 < eps <= 1.0
    ensures var q := Filled(p, c, cap, odd, eps);
            Times(q.0, q.1) <= (Products(Counted(c, p, cap), odd) - Products(c, odd)) as real + 3.0 * eps
  {
    hide Square, Partnered, Times, Filled;
    FilledProduct(p, c, cap, odd, eps);
  }

  /** The products of the pairs in the windows, and next to nothing from the others. */
  lemma {:induction false} FilledProducts(cap: nat, pairs: seq<Pair>, odd: bool, eps: real)
    requires 0.0 < eps <= 1.0
    ensures var c, q := CensusOf(cap, pairs), Fill(cap, pairs, odd, eps);
            Dot(Firsts(q), Seconds(q)) <= Products(c, odd) as real + Times(3.0 * |pairs| as real, eps)
  {
    hide *;
    if pairs == [] {
      NothingFilled(cap, odd, eps);
      NoProducts(cap, odd, eps);
    } else {
      var c, rest := CensusOf(cap, pairs[1..]), Fill(cap, pairs[1..], odd, eps);
      FilledProducts(cap, pairs[1..], odd, eps);
      FillStep(cap, pairs, odd, eps);
      DotPrepend(Filled(pairs[0], c, cap, odd, eps), rest);
      ProductStep(c, pairs[0], cap, odd, eps);
      OneMoreEps(|pairs| - 1, eps);
    }
  }

  lemma {:induction false} NoProducts(cap: nat, odd: bool, eps: real)
    ensures Products(CensusOf(cap, []), odd) == 0 && Times(3.0 * 0 as real, eps) == 0.0
  {
  }

  lemma {:induction false} DotPrepend(p: Pair, rest: seq<Pair>)
    ensures Dot(Firsts([p] + rest), Seconds([p] + rest)) == Times(p.0, p.1) + Dot(Firsts(rest), Seconds(rest))
  {
    hide Dot, Times, Firsts, Seconds;
    FirstsPrepend(p, rest);
    var a, b := [p.0] + Firsts(rest), [p.1] + Seconds(rest);
    assert a[1..] == Firsts(rest) && b[1..] == Seconds(rest);
    DotDropFirst(a, b);
  }

  lemma {:induction false} FilledProduct(p: Pair, c: Census, cap: nat, odd: bool, eps: real)
    requires 0.0 < eps <= 1.0
    ensures var q, m := Filled(p, c, cap, odd, eps), Partnered(c.both, odd);
            Times(q.0, q.1) <= if Stays(p.0, c.x, cap) && Stays(p.1, c.y, cap) then (4 * m - Square(m)) as real else 3.0 * eps
  {
    hide Partnered, Lone, Square, Times;
    PartneredRange(c.both, odd);
    LoneRange(c.onlyX);
    LoneRange(c.onlyY);
    SmallSquare(Partnered(c.both, odd));
    var q := Filled(p, c, cap, odd, eps);
    if q.0 == 0.0 || q.1 == 0.0 {
      TimesZero(q.0);
      TimesZero(q.1);
    } else if !Stays(p.0, c.x, cap) {
      ScaleBy(eps, q.1, 3.0);
    } else if !Stays(p.1, c.y, cap) {
      ScaleBy(eps, q.0, 3.0);
    }
  }

  lemma {:induction false} ScaleBy(k: real, a: real, b: real)
    requires k >= 0.0 && a <= b
    ensures Times(k, a) <= k * b && Times(a, k) <= k * b
  {
  }

  lemma {:induction false} OneMoreEps(n: nat, eps: real)
    ensures Times(3.0 * (n + 1) as real, eps) == Times(3.0 * n as real, eps) + 3.0 * eps
  {
  }

  // ---------------------------------------------------------------- arithmetic of the totals

  /** e pairs of a one and a three, o twos, f of a three and a two, and p threes: how many, their sum and their squares. */
  datatype Mix = Mix(e: real, o: real, f: real, p: real) {
    predicate Valid() {
      && 0.0 <= e && 0.0 <= f && (o == 0.0 || o == 1.0) && (p == 0.0 || p == 1.0)
      && (e == 0.0 || e >= 1.0) && (f == 0.0 || f >= 1.0) && Size() >= 2.0
    }

    function Size(): real {
      2.0 * e + o + 2.0 * f + p
    }

    function Total(): real {
      4.0 * e + 2.0 * o + 5.0 * f + 3.0 * p
    }

    function TotalSquares(): real {
      10.0 * e + 4.0 * o + 13.0 * f + 9.0 * p
    }

    /** The variance times the square of the size. */
    function Spread(): real {
      Size() * TotalSquares() - Total() * Total()
    }
  }

  lemma {:induction false} SpreadOf(h: Mix)
    requires h.Valid()
    ensures h.Size() * h.Size() <= 16.0 * h.Spread() && h.Spread() <= h.Size() * h.Size()
    ensures 2.0 * h.Size() <= h.Total() <= 3.0 * h.Size()
    ensures h.f == 0.0 && h.p == 0.0 ==> h.Spread() == h.Size() * h.Size() - (if h.o == 1.0 then h.Size() else 0.0)
  {
    hide *;
    MixParts(h);
    SpreadInTimes(h);
    TimesIs(h.Size(), h.Size());
  }

  lemma {:induction false} SpreadInTimes(h: Mix)
    requires h.Valid()
    ensures var nn := Times(h.Size(), h.Size());
            && nn <= 16.0 * h.Spread() && h.Spread() <= nn
            && (h.f == 0.0 && h.p == 0.0 ==> h.Spread() == nn - (if h.o == 1.0 then h.Size() else 0.0))
  {
    hide *;
    MixParts(h);
    var n, ee, ef, ff := h.Size(), Times(h.e, h.e), Times(h.e, h.f), Times(h.f, h.f);
    SpreadFormula(h, ee, ef, ff);
    SquareParts(h.e, h.f, ee, ef, ff);
    SpreadBounds(h.e, h.f, h.o, h.p, ee, ef, ff, Times(n, n), h.Spread());
  }

  lemma {:induction false} TimesIs(x: real, y: real)
    ensures Times(x, y) == x * y
  {
  }

  /** The size squared and the spread of a mix, in terms of the squares and the product of e and f. */
  predicate Expanded(e: real, f: real, o: real, p: real, ee: real, ef: real, ff: real, nn: real, spread: real) {
    if o == 0.0 && p == 0.0 then nn == 4.0 * ee + 8.0 * ef + 4.0 * ff && spread == 4.0 * ee + 6.0 * ef + ff
    else if p == 0.0 then
      && nn == 4.0 * ee + 8.0 * ef + 4.0 * ff + 4.0 * e + 4.0 * f + 1.0
      && spread == 4.0 * ee + 6.0 * ef + ff + 2.0 * e + f
    else if o == 0.0 then
      && nn == 4.0 * ee + 8.0 * ef + 4.0 * ff + 4.0 * e + 4.0 * f + 1.0
      && spread == 4.0 * ee + 6.0 * ef + ff + 4.0 * e + f
    else
      && nn == 4.0 * ee + 8.0 * ef + 4.0 * ff + 8.0 * e + 8.0 * f + 4.0
      && spread == 4.0 * ee + 6.0 * ef + ff + 6.0 * e + 2.0 * f + 1.0
  }

  lemma {:induction false} SpreadBounds(
    e: real, f: real, o: real, p: real, ee: real, ef: real, ff: real, nn: real, spread: real)
    requires e >= 0.0 && f >= 0.0 && (o == 0.0 || o == 1.0) && (p == 0.0 || p == 1.0)
    requires 2.0 * e + o + 2.0 * f + p >= 2.0 && (e + f == 0.0 || e + f >= 1.0)
    requires ee >= 0.0 && ef >= 0.0 && ff >= 0.0 && (e + f >= 1.0 ==> ee + 2.0 * ef + ff >= e + f)
    requires Expanded(e, f, o, p, ee, ef, ff, nn, spread)
    ensures nn <= 16.0 * spread && spread <= nn
    ensures f == 0.0 && p == 0.0 && ef == 0.0 && ff == 0.0 ==> spread == nn - (if o == 1.0 then 2.0 * e + 1.0 else 0.0)
  {
  }

  lemma {:induction false} MixParts(h: Mix)
    requires h.Valid()
    ensures 0.0 <= h.e && 0.0 <= h.f && (h.o == 0.0 || h.o == 1.0) && (h.p == 0.0 || h.p == 1.0)
    ensures h.Size() == 2.0 * h.e + h.o + 2.0 * h.f + h.p >= 2.0 && (h.e + h.f == 0.0 || h.e + h.f >= 1.0)
    ensures 2.0 * h.Size() <= h.Total() <= 3.0 * h.Size()
    ensures h.f == 0.0 ==> Times(h.e, h.f) == 0.0 && Times(h.f, h.f) == 0.0
  {
  }

  lemma {:induction false} SquareParts(e: real, f: real, ee: real, ef: real, ff: real)
    requires e >= 0.0 && f >= 0.0 && ee == Times(e, e) && ef == Times(e, f) && ff == Times(f, f)
    ensures ee >= 0.0 && ef >= 0.0 && ff >= 0.0
    ensures e + f >= 1.0 ==> ee + 2.0 * ef + ff >= e + f
  {
    ScaleUp(e, 0.0, e);
    ScaleUp(e, 0.0, f);
    ScaleUp(f, 0.0, f);
    var k := e + f;
    assert k * k == ee + 2.0 * ef + ff;
    if k >= 1.0 {
      ScaleUp(k, 1.0, k);
    }
  }

  lemma {:induction false} SpreadFormula(h: Mix, ee: real, ef: real, ff: real)
    requires h.Valid() && ee == Times(h.e, h.e) && ef == Times(h.e, h.f) && ff == Times(h.f, h.f)
    ensures Expanded(h.e, h.f, h.o, h.p, ee, ef, ff, Times(h.Size(), h.Size()), h.Spread())
  {
    hide *;
    MixParts(h);
    var e, f, n, t, q := h.e, h.f, h.Size(), h.Total(), h.TotalSquares();
    MixLinear(h);
    if h.o == 0.0 {
      if h.p == 0.0 {
        ExpandPairs(e, f, n, t, q, ee, ef, ff);
      } else {
        ExpandWithThree(e, f, n, t, q, ee, ef, ff);
      }
    } else if h.p == 0.0 {
      ExpandWithTwo(e, f, n, t, q, ee, ef, ff);
    } else {
      ExpandWithBoth(e, f, n, t, q, ee, ef, ff);
    }
  }

  lemma {:induction false} MixLinear(h: Mix)
    ensures h.Size() == 2.0 * h.e + 2.0 * h.f + (h.o + h.p)
    ensures h.Total() == 4.0 * h.e + 5.0 * h.f + (2.0 * h.o + 3.0 * h.p)
    ensures h.TotalSquares() == 10.0 * h.e + 13.0 * h.f + (4.0 * h.o + 9.0 * h.p)
    ensures h.Spread() == Times(h.Size(), h.TotalSquares()) - Times(h.Total(), h.Total())
  {
  }

  lemma {:induction false} ExpandPairs(e: real, f: real, n: real, t: real, q: real, ee: real, ef: real, ff: real)
    requires ee == Times(e, e) && ef == Times(e, f) && ff == Times(f, f)
    requires n == 2.0 * e + 2.0 * f && t == 4.0 * e + 5.0 * f && q == 10.0 * e + 13.0 * f
    ensures Expanded(e, f, 0.0, 0.0, ee, ef, ff, Times(n, n), Times(n, q) - Times(t, t))
  {
    assert n * n == 4.0 * ee + 8.0 * ef + 4.0 * ff;
    assert n * q == 20.0 * ee + 46.0 * ef + 26.0 * ff;
    assert t * t == 16.0 * ee + 40.0 * ef + 25.0 * ff;
  }

  lemma {:induction false} ExpandWithTwo(e: real, f: real, n: real, t: real, q: real, ee: real, ef: real, ff: real)
    requires ee == Times(e, e) && ef == Times(e, f) && ff == Times(f, f)
    requires n == 2.0 * e + 2.0 * f + 1.0 && t == 4.0 * e + 5.0 * f + 2.0 && q == 10.0 * e + 13.0 * f + 4.0
    ensures Expanded(e, f, 1.0, 0.0, ee, ef, ff, Times(n, n), Times(n, q) - Times(t, t))
  {
    assert n * n == 4.0 * ee + 8.0 * ef + 4.0 * ff + 4.0 * e + 4.0 * f + 1.0;
    assert n * q == 20.0 * ee + 46.0 * ef + 26.0 * ff + 18.0 * e + 21.0 * f + 4.0;
    assert t * t == 16.0 * ee + 40.0 * ef + 25.0 * ff + 16.0 * e + 20.0 * f + 4.0;
  }

  lemma {:induction false} ExpandWithThree(e: real, f: real, n: real, t: real, q: real, ee: real, ef: real, ff: real)
    requires ee == Times(e, e) && ef == Times(e, f) && ff == Times(f, f)
    requires n == 2.0 * e + 2.0 * f + 1.0 && t == 4.0 * e + 5.0 * f + 3.0 && q == 10.0 * e + 13.0 * f + 9.0
    ensures Expanded(e, f, 0.0, 1.0, ee, ef, ff, Times(n, n), Times(n, q) - Times(t, t))
  {
    assert n * n == 4.0 * ee + 8.0 * ef + 4.0 * ff + 4.0 * e + 4.0 * f + 1.0;
    assert n * q == 20.0 * ee + 46.0 * ef + 26.0 * ff + 28.0 * e + 31.0 * f + 9.0;
    assert t * t == 16.0 * ee + 40.0 * ef + 25.0 * ff + 24.0 * e + 30.0 * f + 9.0;
  }

  lemma {:induction false} ExpandWithBoth(e: real, f: real, n: real, t: real, q: real, ee: real, ef: real, ff: real)
    requires ee == Times(e, e) && ef == Times(e, f) && ff == Times(f, f)
    requires n == 2.0 * e + 2.0 * f + 2.0 && t == 4.0 * e + 5.0 * f + 5.0 && q == 10.0 * e + 13.0 * f + 13.0
    ensures Expanded(e, f, 1.0, 1.0, ee, ef, ff, Times(n, n), Times(n, q) - Times(t, t))
  {
    assert n * n == 4.0 * ee + 8.0 * ef + 4.0 * ff + 8.0 * e + 8.0 * f + 4.0;
    assert n * q == 20.0 * ee + 46.0 * ef + 26.0 * ff + 46.0 * e + 52.0 * f + 26.0;
    assert t * t == 16.0 * ee + 40.0 * ef + 25.0 * ff + 40.0 * e + 50.0 * f + 25.0;
  }

  lemma {:induction false} ScaleUp(k: real, a: real, b: real)
    requires k >= 0.0 && a <= b
    ensures k * a <= k * b
  {
  }

  lemma {:induction false} QuotientAtLeast(a: real, b: real, low: real, n: real, t: real)
    requires n > 0.0 && a >= 0.0 && b >= low * n && t * n == a * b
    ensures t >= a * low
  {
    ScaleUp(a, low * n, b);
    var p := a * low;
    assert a * (low * n) == p * n;
    ScaleDown(p, t, n, p * n, t * n);
  }

  lemma {:induction false} RootAtMost(r: real, n: real, spread: real)
    requires n > 0.0 && r * r == spread <= n * n
    ensures r <= n
  {
    BoundedByRoot(r, n, r * r, n * n);
  }

  /** Why the reading of windows with lone samples is below -1: the product of the totals over the second size exceeds
      the products in the windows by more than the root of the first spread. First, with a lone first sample. */
  lemma {:induction false} LoneFirstGap(x: Mix, y: Mix, r: real, t: real)
    requires x.Valid() && y.Valid() && x.f + x.p > 0.0
    requires r * r == x.Spread() && t * y.Size() == x.Total() * y.Total()
    ensures t - (6.0 * x.e + 4.0 * x.o) > r
  {
    hide *;
    SpreadOf(x);
    SpreadOf(y);
    SizeOf(x);
    SizeOf(y);
    QuotientAtLeast(x.Total(), y.Total(), 2.0, y.Size(), t);
    RootAtMost(r, x.Size(), x.Spread());
  }

  lemma {:induction false} SizeOf(h: Mix)
    requires h.Valid()
    ensures h.Size() >= 2.0
    ensures h.f + h.p > 0.0 ==> 2.0 * h.Total() - (6.0 * h.e + 4.0 * h.o) > h.Size()
  {
  }

  /** Then with every first sample in a pair, and a lone second sample. */
  lemma {:induction false} LoneSecondGap(x: Mix, y: Mix, r: real, t: real)
    requires x.Valid() && y.Valid() && x.f + x.p == 0.0 && y.f + y.p > 0.0 && y.e == x.e && y.o == x.o
    requires r * r == x.Spread() && t * y.Size() == x.Total() * y.Total()
    ensures t - (6.0 * x.e + 4.0 * x.o) > r
  {
    var n, h, o := x.Size(), 2.0 * y.f + y.p, x.o;
    SpreadOf(x);
    assert n >= 2.0 && (o == 1.0 ==> n >= 3.0) && h >= 1.0;
    assert y.Size() == n + h && x.Total() == 2.0 * n && y.Total() >= 2.0 * (n + h) + 0.5 * h;
    assert 6.0 * x.e + 4.0 * o == 3.0 * n + o;
    var sy, spread := y.Total(), x.Spread();
    assert spread == n * n - (if o == 1.0 then n else 0.0);
    hide *;
    LoneSecondExcess(n, h, sy, t);
    if o == 0.0 {
      RootAtMost(r, n, spread);
    } else {
      assert (n - 0.5) * (n - 0.5) == n * n - n + 0.25;
      RootAtMost(r, n - 0.5, spread);
    }
  }

  lemma {:induction false} LoneSecondExcess(n: real, h: real, sy: real, t: real)
    requires n >= 2.0 && h >= 1.0 && sy >= 2.0 * (n + h) + 0.5 * h && t * (n + h) == 2.0 * n * sy
    ensures t - 4.0 * n > 0.0 && (n >= 3.0 ==> t - 4.0 * n > 0.5)
  {
    var z, m, nh := t - 4.0 * n, n + h, n * h;
    ScaleUp(2.0 * n, 2.0 * m + 0.5 * h, sy);
    assert 2.0 * n * (2.0 * m + 0.5 * h) == 4.0 * n * m + nh;
    assert z * m == t * m - 4.0 * n * m;
    assert z * m >= nh;
    ScaleUp(h, 2.0, n);
    PositiveProduct(n, h, nh);
    assert 0.0 * m == 0.0;
    Strictly(0.0, z, m);
    if n >= 3.0 {
      ScaleUp(n - 0.5, 1.0, h);
      assert (n - 0.5) * h == nh - 0.5 * h;
      assert nh > 0.5 * m;
      Strictly(0.5, z, m);
    }
  }

  lemma {:induction false} Strictly(a: real, z: real, m: real)
    requires m > 0.0 && a * m < z * m
    ensures a < z
  {
    ScaleDown(a, z, m, a * m, z * m);
  }

  // ---------------------------------------------------------------- the windows of the filled run

  lemma {:induction false} MeanTimesSize(w: seq<real>, n: real)
    requires w != [] && n == |w| as real
    ensures Mean(w) * n == Sum(w)
  {
  }

  /** A window has the size, sum and squares of h. */
  ghost predicate HasMix(w: seq<real>, h: Mix) {
    |w| as real == h.Size() && Sum(w) == h.Total() && Dot(w, w) == h.TotalSquares()
  }

  lemma {:induction false} MixOf(w: seq<real>, h: Mix)
    requires h.Valid() && HasMix(w, h)
    ensures |w| >= 2 && |w| as real == h.Size() && Sum(w) == h.Total() && Dot(w, w) == h.TotalSquares()
  {
    hide Sum, Dot;
  }

  lemma {:induction false} MixVariance(w: seq<real>, h: Mix)
    requires h.Valid() && HasMix(w, h)
    ensures |w| >= 2 && 2.0 <= Mean(w) <= 3.0 && Mean(w) * h.Size() == h.Total()
    ensures 0.0625 <= Variance(w) <= 1.0 && Variance(w) * (h.Size() * h.Size()) == h.Spread()
  {
    hide *;
    MixOf(w, h);
    SizeOf(h);
    SpreadOf(h);
    var n := |w| as real;
    MeanTimesSize(w, n);
    VarianceFromSums(w);
    DotOverSize(Dot(w, w), n);
    SpreadIsVariance(h, n, Mean(w), Dot(w, w) / n, Variance(w));
    VarianceRange(Variance(w), n, h.Spread());
    MeanRange(Mean(w), n, h.Total());
  }

  lemma {:induction false} DotOverSize(d: real, n: real)
    requires n > 0.0
    ensures (d / n) * n == d
  {
  }

  /** A window with the totals of h varies by more than one percent. */
  lemma {:induction false} MixVaries(w: seq<real>, h: Mix, sqrt: real -> real)
    requires h.Valid() && HasMix(w, h) && IsSquareRoot(sqrt)
    ensures |w| >= 2 && Varies(w, sqrt) && 0.0 < sqrt(Variance(w)) <= 1.0
  {
    hide Variance, Mean, HasMix, IsSquareRoot;
    MixVariance(w, h);
    Root(sqrt, Variance(w));
    RootRange(Variance(w), sqrt(Variance(w)), Mean(w));
  }

  lemma {:induction false} RootRange(v: real, r: real, m: real)
    requires 0.0625 <= v <= 1.0 && r >= 0.0 && r * r == v && 2.0 <= m <= 3.0
    ensures 0.0 < r <= 1.0 && r / m >= MIN_CV
  {
    RootAtMost(r, 1.0, v);
    assert r > 0.0;
    BoundedByRoot(0.25, r, 0.0625, v);
    assert (r / m) * m == r;
    ScaleDown(MIN_CV, r / m, m, MIN_CV * m, (r / m) * m);
  }

  lemma {:induction false} SpreadIsVariance(h: Mix, n: real, m: real, a: real, v: real)
    requires n == h.Size() > 0.0 && m * n == h.Total() && a * n == h.TotalSquares() && v == a - Times(m, m)
    ensures v * (n * n) == h.Spread()
  {
    assert a * (n * n) == (a * n) * n;
    assert (m * m) * (n * n) == (m * n) * (m * n);
  }

  lemma {:induction false} VarianceRange(v: real, n: real, spread: real)
    requires n >= 2.0 && v * (n * n) == spread && n * n <= 16.0 * spread && spread <= n * n
    ensures 0.0625 <= v <= 1.0
  {
    var nn := n * n;
    PositiveProduct(n, n, nn);
    ScaleDown(0.0625, v, nn, 0.0625 * nn, v * nn);
    ScaleDown(v, 1.0, nn, v * nn, 1.0 * nn);
  }

  lemma {:induction false} MeanRange(m: real, n: real, total: real)
    requires n >= 2.0 && m * n == total && 2.0 * n <= total <= 3.0 * n
    ensures 2.0 <= m <= 3.0
  {
    ScaleDown(2.0, m, n, 2.0 * n, m * n);
    ScaleDown(m, 3.0, n, m * n, 3.0 * n);
  }

  function MixOfCounts(both: nat, lone: nat): Mix {
    Mix((both / 2) as real, (both % 2) as real, (lone / 2) as real, (lone % 2) as real)
  }

  lemma {:induction false} CountsAreMix(both: nat, lone: nat)
    requires both + lone >= 2
    ensures var h, odd := MixOfCounts(both, lone), both % 2 == 1;
            && h.Valid() && h.Size() == (both + lone) as real
            && h.Total() == (PartneredSum(both, odd) + LoneSum(lone)) as real
            && h.TotalSquares() == (PartneredSquares(both, odd) + LoneSquares(lone)) as real
            && PartneredSum(both, odd) == 2 * both
            && (4 * PartneredSum(both, odd) - PartneredSquares(both, odd)) as real == 6.0 * h.e + 4.0 * h.o
            && (h.f + h.p > 0.0 <==> lone > 0)
  {
    hide PartneredSum, PartneredSquares, LoneSum, LoneSquares;
    var odd := both % 2 == 1;
    PartneredTotals(both, odd);
    LoneTotals(lone);
    if both == 0 {
      NonePartnered(odd);
    }
    assert both == 2 * (both / 2) + both % 2 && lone == 2 * (lone / 2) + lone % 2;
  }

  lemma {:induction false} NonePartnered(odd: bool)
    ensures PartneredSum(0, odd) == 0 && PartneredSquares(0, odd) == 0
  {
  }

  /** Enough samples in both windows for a reading. */
  predicate Enough(c: Census, warmup: nat) {
    c.both + c.onlyX >= 2 && c.both + c.onlyY >= 2 && c.both + c.onlyX >= warmup
  }

  /** The run filled so that its pairs balance. */
  function Balanced(cap: nat, pairs: seq<Pair>, eps: real): seq<Pair> {
    Fill(cap, pairs, CensusOf(cap, pairs).both % 2 == 1, eps)
  }

  lemma {:induction false} BalancedMix(cap: nat, pairs: seq<Pair>, eps: real)
    requires cap > 0 && eps > 0.0 && Enough(CensusOf(cap, pairs), 0)
    ensures var c, s := CensusOf(cap, pairs), Run(cap, Balanced(cap, pairs, eps));
            && HasMix(s.xs, MixOfCounts(c.both, c.onlyX)) && HasMix(s.ys, MixOfCounts(c.both, c.onlyY))
            && |s.xs| == c.both + c.onlyX && |s.ys| == c.both + c.onlyY
  {
    hide Sum, Dot, Kept, Run, CensusOf, Fill, LastN, Firsts, Seconds, PartneredSum, PartneredSquares, LoneSum, LoneSquares;
    var c, q := CensusOf(cap, pairs), Balanced(cap, pairs, eps);
    FilledTotals(cap, pairs, c.both % 2 == 1, eps);
    RunKeeps(cap, q);
    CountsAreMix(c.both, c.onlyX);
    CountsAreMix(c.both, c.onlyY);
  }

  /** And so that its windows vary. */
  lemma {:induction false} BalancedVaries(cap: nat, pairs: seq<Pair>, eps: real, sqrt: real -> real)
    requires cap > 0 && eps > 0.0 && Enough(CensusOf(cap, pairs), 0) && IsSquareRoot(sqrt)
    ensures var s := Run(cap, Balanced(cap, pairs, eps)); Varies(s.xs, sqrt) && Varies(s.ys, sqrt)
  {
    var c, s := CensusOf(cap, pairs), Run(cap, Balanced(cap, pairs, eps));
    assert c.both + c.onlyX >= 2 && c.both + c.onlyY >= 2;
    hide *;
    BalancedMix(cap, pairs, eps);
    CountsAreMix(c.both, c.onlyX);
    CountsAreMix(c.both, c.onlyY);
    MixVaries(s.xs, MixOfCounts(c.both, c.onlyX), sqrt);
    MixVaries(s.ys, MixOfCounts(c.both, c.onlyY), sqrt);
  }

  lemma {:induction false} RatioBelow(c: real, nx: real, ny: real, mx: real, my: real, dx: real, dy: real, t: real)
    requires nx > 0.0 && ny > 0.0 && dx > 0.0 && 0.0 < dy <= 1.0 && Times(dx, dy) > 0.0
    requires t * ny == (mx * nx) * (my * ny) && c < t - dx * nx
    ensures Ratio(c, nx, Times(mx, my), Times(dx, dy)) < -1.0
  {
    var m, d, u := mx * my, dx * dy, c / nx - mx * my;
    assert m * nx == t by {
      assert (m * nx) * ny == t * ny;
      Cancel(m * nx, t, ny);
    }
    assert u * nx == c - t by {
      assert (c / nx) * nx == c;
    }
    ScaleUp(dx, dy, 1.0);
    ScaleUp(nx, d, dx);
    assert u * nx < (-d) * nx;
    Strictly(u, -d, nx);
    assert (u / d) * d == u;
    Strictly(u / d, -1.0, d);
  }

  lemma {:induction false} Cancel(a: real, b: real, k: real)
    requires k > 0.0 && a * k == b * k
    ensures a == b
  {
    ScaleDown(a, b, k, a * k, b * k);
    ScaleDown(b, a, k, b * k, a * k);
  }

  // ---------------------------------------------------------------- windows with a lone sample

  lemma {:induction false} SmallEnough(n: real, gap: real) returns (eps: real)
    requires n >= 0.0 && gap > 0.0
    ensures 0.0 < eps <= 1.0 && Times(n, eps) < gap
  {
    var a := gap / (n + 1.0);
    assert a * (n + 1.0) == gap;
    assert a > 0.0;
    eps := if a < 1.0 then a else 1.0;
    ScaleUp(n, eps, a);
    assert n * a == gap - a;
  }

  /** The cross-sum of the balanced run is as near to the products in its windows as eps makes it. */
  lemma {:induction false} BalancedCrossSum(cap: nat, pairs: seq<Pair>, eps: real)
    requires cap > 0 && 0.0 < eps <= 1.0 && Enough(CensusOf(cap, pairs), 0)
    ensures var h := FirstMix(cap, pairs);
            Run(cap, Balanced(cap, pairs, eps)).corrSumXY <= 6.0 * h.e + 4.0 * h.o + Times(3.0 * |pairs| as real, eps)
  {
    hide Run, Dot, Firsts, Seconds, CensusOf, Fill, PartneredSum, PartneredSquares, LoneSum, LoneSquares, Times;
    var c := CensusOf(cap, pairs);
    FillPattern(cap, pairs, c.both % 2 == 1, eps);
    CrossSumAtMost(cap, Balanced(cap, pairs, eps));
    FilledProducts(cap, pairs, c.both % 2 == 1, eps);
    CountsAreMix(c.both, c.onlyX);
  }

  /** The gap that makes the reading fall below -1, for a variance v of the first window with root d. */
  lemma {:induction false} GapOf(x: Mix, y: Mix, d: real, v: real, t: real)
    requires x.Valid() && y.Valid() && x.f + x.p + y.f + y.p > 0.0 && y.e == x.e && y.o == x.o
    requires d * d == v && v * (x.Size() * x.Size()) == x.Spread() && t * y.Size() == x.Total() * y.Total()
    ensures t - (6.0 * x.e + 4.0 * x.o) > d * x.Size()
  {
    hide *;
    NoNegativeLone(x);
    ProductOfScaled(d, d, x.Size());
    if x.f + x.p > 0.0 {
      LoneFirstGap(x, y, d * x.Size(), t);
    } else {
      LoneSecondGap(x, y, d * x.Size(), t);
    }
  }

  lemma {:induction false} NoNegativeLone(h: Mix)
    requires h.Valid()
    ensures h.f + h.p >= 0.0
  {
  }

  lemma {:induction false} SameVariance(a: seq<real>, b: seq<real>, h: Mix)
    requires h.Valid() && HasMix(a, h) && HasMix(b, h)
    ensures a != [] && b != [] && Variance(a) == Variance(b)
  {
    hide *;
    MixVariance(a, h);
    MixVariance(b, h);
    SizeOf(h);
    var n := h.Size();
    PositiveProduct(n, n, n * n);
    Cancel(Variance(a), Variance(b), n * n);
  }

  /** The mixes of the two windows. */
  function FirstMix(cap: nat, pairs: seq<Pair>): Mix {
    MixOfCounts(CensusOf(cap, pairs).both, CensusOf(cap, pairs).onlyX)
  }

  function SecondMix(cap: nat, pairs: seq<Pair>): Mix {
    MixOfCounts(CensusOf(cap, pairs).both, CensusOf(cap, pairs).onlyY)
  }

  lemma {:induction false} WindowMixes(cap: nat, pairs: seq<Pair>, eps: real)
    requires cap > 0 && eps > 0.0 && Enough(CensusOf(cap, pairs), 0)
    ensures var x, y, s := FirstMix(cap, pairs), SecondMix(cap, pairs), Run(cap, Balanced(cap, pairs, eps));
            && x.Valid() && y.Valid() && y.e == x.e && y.o == x.o && HasMix(s.xs, x) && HasMix(s.ys, y)
            && (x.f + x.p + y.f + y.p > 0.0 <==> CensusOf(cap, pairs).onlyX + CensusOf(cap, pairs).onlyY > 0)
            && |s.xs| == CensusOf(cap, pairs).both + CensusOf(cap, pairs).onlyX
  {
    hide HasMix, Run, Balanced, CensusOf;
    var c := CensusOf(cap, pairs);
    BalancedMix(cap, pairs, eps);
    CountsAreMix(c.both, c.onlyX);
    CountsAreMix(c.both, c.onlyY);
    NoNegativeLone(FirstMix(cap, pairs));
    NoNegativeLone(SecondMix(cap, pairs));
  }

  /** A cross-sum short of the gap reads below -1. */
  lemma {:induction false} ShortOfGap(s: State, x: Mix, y: Mix, d: real, t: real, warmup: nat, sqrt: real -> real)
    requires IsSquareRoot(sqrt) && x.Valid() && y.Valid() && HasMix(s.xs, x) && HasMix(s.ys, y)
    requires |s.xs| >= warmup && s.xs != [] && d == sqrt(Variance(s.xs))
    requires t * y.Size() == x.Total() * y.Total() && s.corrSumXY < t - d * x.Size()
    ensures Read(s, warmup, sqrt).correlation < -1.0
  {
    hide *;
    MixOf(s.xs, x);
    MixVariance(s.xs, x);
    MixVariance(s.ys, y);
    MixVaries(s.xs, x, sqrt);
    MixVaries(s.ys, y, sqrt);
    SizeOf(x);
    SizeOf(y);
    ReadFormula(s, warmup, sqrt);
    RatioBelow(s.corrSumXY, x.Size(), y.Size(), Mean(s.xs), Mean(s.ys), d, sqrt(Variance(s.ys)), t);
  }

  /** Where some sample in the windows has no partner there, values with that pattern read below -1. */
  lemma {:induction false} LoneReads(cap: nat, pairs: seq<Pair>, warmup: nat, sqrt: real -> real) returns (q: seq<Pair>)
    requires cap > 0 && IsSquareRoot(sqrt) && Enough(CensusOf(cap, pairs), warmup)
    requires CensusOf(cap, pairs).onlyX + CensusOf(cap, pairs).onlyY > 0
    ensures SamePattern(pairs, q) && Read(Run(cap, q), warmup, sqrt).correlation < -1.0
  {
    hide *;
    var x, y := FirstMix(cap, pairs), SecondMix(cap, pairs);
    EnoughAnyway(CensusOf(cap, pairs), warmup);
    WindowMixes(cap, pairs, 1.0);
    var w := Run(cap, Balanced(cap, pairs, 1.0)).xs;
    MixVariance(w, x);
    Root(sqrt, Variance(w));
    SizeOf(y);
    var d, t := sqrt(Variance(w)), x.Total() * y.Total() / y.Size();
    DotOverSize(x.Total() * y.Total(), y.Size());
    GapOf(x, y, d, Variance(w), t);
    var eps := SmallEnough(3.0 * |pairs| as real, t - (6.0 * x.e + 4.0 * x.o) - d * x.Size());
    q := Balanced(cap, pairs, eps);
    BalancedPattern(cap, pairs, eps);
    WindowMixes(cap, pairs, eps);
    BalancedCrossSum(cap, pairs, eps);
    SameVariance(w, Run(cap, q).xs, x);
    ShortOfGap(Run(cap, q), x, y, d, t, warmup, sqrt);
  }

  lemma {:induction false} EnoughAnyway(c: Census, warmup: nat)
    requires Enough(c, warmup)
    ensures Enough(c, 0) && c.both + c.onlyX >= warmup
  {
  }

  lemma {:induction false} BalancedPattern(cap: nat, pairs: seq<Pair>, eps: real)
    requires eps > 0.0
    ensures SamePattern(pairs, Balanced(cap, pairs, eps))
  {
    FillPattern(cap, pairs, CensusOf(cap, pairs).both % 2 == 1, eps);
  }

  // ---------------------------------------------------------------- exactly when the reading stays in range

  lemma {:induction false} CensusCounts(cap: nat, pairs: seq<Pair>)
    ensures |Kept(Firsts(pairs))| == CensusOf(cap, pairs).x && |Kept(Seconds(pairs))| == CensusOf(cap, pairs).y
  {
    if pairs == [] {
      assert Firsts(pairs) == [] && Seconds(pairs) == [];
    } else {
      hide Kept, Firsts, Seconds;
      var p, rest := pairs[0], pairs[1..];
      assert pairs == [p] + rest;
      CensusCounts(cap, rest);
      FirstsPrepend(p, rest);
      KeptPrepend(p.0, Firsts(rest));
      KeptPrepend(p.1, Seconds(rest));
    }
  }

  /** The windows have two samples each, and the first has reached the warmup. */
  predicate Reads(s: State, warmup: nat) {
    |s.xs| >= 2 && |s.ys| >= 2 && |s.xs| >= warmup
  }

  lemma {:induction false} EnoughIsReads(cap: nat, pairs: seq<Pair>, warmup: nat)
    requires cap > 0
    ensures Enough(CensusOf(cap, pairs), warmup) <==> Reads(Run(cap, pairs), warmup)
  {
    hide Kept, Run, CensusOf, Firsts, Seconds;
    RunKeeps(cap, pairs);
    CensusCounts(cap, pairs);
  }

  lemma {:induction false} PatternOfFirst(a: seq<Pair>, b: seq<Pair>)
    requires SamePattern(a, b)
    ensures |a| == |b|
    ensures a != [] ==> && (a[0].0 == 0.0 <==> b[0].0 == 0.0) && (a[0].1 == 0.0 <==> b[0].1 == 0.0)
                        && SamePattern(a[1..], b[1..])
  {
    if a != [] {
      PatternOfSlice(a, b, 1, |a|);
      assert a[1..|a|] == a[1..] && b[1..|a|] == b[1..];
    }
  }

  lemma {:induction false} CountedAlike(c: Census, p: Pair, q: Pair, cap: nat)
    requires (p.0 == 0.0 <==> q.0 == 0.0) && (p.1 == 0.0 <==> q.1 == 0.0)
    ensures Counted(c, p, cap) == Counted(c, q, cap)
  {
  }

  lemma {:induction false} PatternCensus(cap: nat, a: seq<Pair>, b: seq<Pair>)
    requires SamePattern(a, b)
    ensures CensusOf(cap, a) == CensusOf(cap, b)
  {
    hide SamePattern, Counted;
    PatternOfFirst(a, b);
    if a != [] {
      PatternCensus(cap, a[1..], b[1..]);
      CountedAlike(CensusOf(cap, a[1..]), a[0], b[0], cap);
    }
  }

  lemma {:induction false} TooFewReadZero(s: State, warmup: nat, sqrt: real -> real)
    requires IsSquareRoot(sqrt) && !Reads(s, warmup)
    ensures Read(s, warmup, sqrt) == NO_READING
  {
  }

  lemma {:induction false} PatternTurns(a: seq<Pair>, b: seq<Pair>, c: seq<Pair>)
    requires SamePattern(a, b)
    ensures SamePattern(b, a) && (SamePattern(b, c) ==> SamePattern(a, c))
  {
  }

  /** Where every sample in the windows has its partner there but the pattern is not sound, values with that pattern read
      above 1. */
  lemma {:induction false} PartneredReads(cap: nat, pairs: seq<Pair>, warmup: nat, sqrt: real -> real)
    returns (q: seq<Pair>)
    requires cap > 0 && IsSquareRoot(sqrt) && Enough(CensusOf(cap, pairs), warmup) && !Sound(cap, pairs)
    requires CensusOf(cap, pairs).onlyX == 0 && CensusOf(cap, pairs).onlyY == 0
    ensures SamePattern(pairs, q) && Read(Run(cap, q), warmup, sqrt).correlation > 1.0
  {
    hide *;
    EnoughAnyway(CensusOf(cap, pairs), warmup);
    var q0 := Balanced(cap, pairs, 1.0);
    BalancedPattern(cap, pairs, 1.0);
    PatternTurns(pairs, q0, q0);
    if Sound(cap, q0) {
      SoundPattern(cap, q0, pairs);
    }
    PatternCensus(cap, pairs, q0);
    AllPartneredAligned(cap, q0);
    BalancedVaries(cap, pairs, 1.0, sqrt);
    WindowMixes(cap, pairs, 1.0);
    HeldReadable(cap, q0, warmup, sqrt);
    q := UnsoundReading(cap, q0, warmup, sqrt);
    PatternTurns(pairs, q0, q);
  }

  lemma {:induction false} HeldReadable(cap: nat, pairs: seq<Pair>, warmup: nat, sqrt: real -> real)
    requires cap > 0 && Aligned(LastN(NonZero(pairs), cap)) && |Run(cap, pairs).xs| >= warmup
    requires Varies(Run(cap, pairs).xs, sqrt) && Varies(Run(cap, pairs).ys, sqrt)
    ensures Readable(LastN(NonZero(pairs), cap), warmup, sqrt)
  {
    hide Run, NonZero, Varies, LastN, Aligned;
    ContentsExactly(cap, pairs);
  }

  /** The reading lies between -1 and 1. */
  ghost predicate InUnit(cap: nat, pairs: seq<Pair>, warmup: nat, sqrt: real -> real)
    requires cap > 0 && IsSquareRoot(sqrt)
  {
    -1.0 <= Read(Run(cap, pairs), warmup, sqrt).correlation <= 1.0
  }

  /** For every run: the reading lies between -1 and 1, whatever values stand in place of those that are not zero, if and
      only if the pattern of zeroes is sound, or there are too few samples for any reading but zero. */
  lemma {:induction false} ReadingExactly(cap: nat, pairs: seq<Pair>, warmup: nat, sqrt: real -> real)
    requires cap > 0 && IsSquareRoot(sqrt)
    ensures (forall q :: SamePattern(pairs, q) ==> InUnit(cap, q, warmup, sqrt))
            <==> Sound(cap, pairs) || !Reads(Run(cap, pairs), warmup)
  {
    hide Sound, Reads, Run, CensusOf, SamePattern, Enough, InUnit;
    EnoughIsReads(cap, pairs, warmup);
    if Sound(cap, pairs) || !Reads(Run(cap, pairs), warmup) {
      forall q | SamePattern(pairs, q) ensures InUnit(cap, q, warmup, sqrt) {
        StaysInUnit(cap, pairs, q, warmup, sqrt);
      }
    } else {
      var q := LeavesUnit(cap, pairs, warmup, sqrt);
    }
  }

  lemma {:induction false} StaysInUnit(cap: nat, pairs: seq<Pair>, q: seq<Pair>, warmup: nat, sqrt: real -> real)
    requires cap > 0 && IsSquareRoot(sqrt) && SamePattern(pairs, q)
    requires Sound(cap, pairs) || !Reads(Run(cap, pairs), warmup)
    ensures InUnit(cap, q, warmup, sqrt)
  {
    hide Sound, Reads, Run, CensusOf, SamePattern, Enough, Read, IsSquareRoot;
    if Sound(cap, pairs) {
      SoundPattern(cap, pairs, q);
      SoundReading(cap, q, warmup, sqrt);
    } else {
      EnoughIsReads(cap, pairs, warmup);
      EnoughIsReads(cap, q, warmup);
      PatternCensus(cap, pairs, q);
      TooFewReadZero(Run(cap, q), warmup, sqrt);
    }
  }

  lemma {:induction false} LeavesUnit(cap: nat, pairs: seq<Pair>, warmup: nat, sqrt: real -> real) returns (q: seq<Pair>)
    requires cap > 0 && IsSquareRoot(sqrt) && !Sound(cap, pairs) && Enough(CensusOf(cap, pairs), warmup)
    ensures SamePattern(pairs, q) && !InUnit(cap, q, warmup, sqrt)
  {
    hide Sound, Run, CensusOf, SamePattern, Enough, Read, IsSquareRoot;
    if CensusOf(cap, pairs).onlyX + CensusOf(cap, pairs).onlyY > 0 {
      q := LoneReads(cap, pairs, warmup, sqrt);
    } else {
      q := PartneredReads(cap, pairs, warmup, sqrt);
    }
  }
}
