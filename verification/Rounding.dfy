/** util.Round. */
module Rounding {

  /** To two decimals; halves go up, as they do for the rates and quantiles it is used on, which are not negative. */
  function Round(v: real): real {
    (v * 100.0 + 0.5).Floor as real / 100.0
  }

  lemma {:induction false} RoundMonotone(a: real, b: real)
    requires a <= b
    ensures Round(a) <= Round(b)
  {
    FloorMonotone(a * 100.0 + 0.5, b * 100.0 + 0.5);
  }

  lemma {:induction false} FloorMonotone(x: real, y: real)
    requires x <= y
    ensures x.Floor <= y.Floor
  {
    assert x.Floor as real <= x < x.Floor as real + 1.0;
    assert y.Floor as real <= y < y.Floor as real + 1.0;
  }

  lemma {:induction false} RoundInUnit(v: real)
    requires 0.0 <= v <= 1.0
    ensures 0.0 <= Round(v) <= 1.0
  {
  }
}
