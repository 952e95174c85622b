/** Integer division by a positive number, in the few forms the rate limiters and windows need. */
module Division {

  lemma {:induction false} MulMonotone(k: nat, a: int, b: int)
    requires a <= b
    ensures k * a <= k * b
  {
  }

  lemma {:induction false} Distribute(k: nat, a: int, b: int)
    ensures k * (a + b) == k * a + k * b
  {
  }

  /** The defining property of the quotient, with the successor multiplied out. */
  lemma {:induction false} Quotient(t: int, k: nat)
    requires k > 0
    ensures k * (t / k) <= t < k * (t / k) + k
    ensures t - t % k == k * (t / k)
    ensures k * (t / k + 1) == k * (t / k) + k
  {
  }

  /** The quotient is the only number with that property. */
  lemma {:induction false} QuotientUnique(t: int, k: nat, q: int)
    requires k > 0 && k * q <= t < k * q + k
    ensures t / k == q
  {
    Quotient(t, k);
    if t / k < q {
      MulMonotone(k, t / k + 1, q);
    } else if t / k > q {
      MulMonotone(k, q + 1, t / k);
    }
  }

  lemma {:induction false} QuotientOfMultiple(k: nat, q: int)
    requires k > 0
    ensures (k * q) / k == q
  {
    QuotientUnique(k * q, k, q);
  }

  lemma {:induction false} QuotientMonotone(a: int, b: int, k: nat)
    requires k > 0 && a <= b
    ensures a / k <= b / k
  {
    Quotient(a, k);
    Quotient(b, k);
    if a / k > b / k {
      MulMonotone(k, b / k + 1, a / k);
    }
  }

  /** t has reached the multiple k*q exactly when its quotient has reached q. */
  lemma {:induction false} ReachesMultiple(t: int, k: nat, q: int)
    requires k > 0
    ensures t >= k * q <==> t / k >= q
  {
    QuotientOfMultiple(k, q);
    Quotient(t, k);
    if t >= k * q {
      QuotientMonotone(k * q, t, k);
    } else if t / k >= q {
      MulMonotone(k, q, t / k);
    }
  }

  lemma {:induction false} ModuloShift(a: int, k: nat)
    requires k > 0
    ensures (a - k) % k == a % k
  {
    Quotient(a, k);
    Distribute(k, a / k, -1);
    QuotientUnique(a - k, k, a / k - 1);
    Quotient(a - k, k);
  }

  /** Numbers less than k apart have different remainders. */
  lemma {:induction false} ModuloDistinct(a: int, b: int, k: nat)
    requires k > 0 && a < b < a + k
    ensures a % k != b % k
  {
    Quotient(a, k);
    Quotient(b, k);
    QuotientMonotone(a, b, k);
    if a % k == b % k {
      if a / k < b / k {
        MulMonotone(k, a / k + 1, b / k);
      }
    }
  }
}
