/** countingStats: the results of the last executions in a ring of bits, with running counts. */
module CountingStatistics {
  import opened Rings

  function Successes(w: seq<bool>): nat {
    Count(w, true)
  }

  function Failures(w: seq<bool>): nat {
    Count(w, false)
  }

  /** ExecutionCount, SuccessCount and FailureCount. */
  datatype Tally = Tally(executions: nat, successes: nat, failures: nat)

  function TallyOf(w: seq<bool>): Tally {
    Tally(|w|, Successes(w), Failures(w))
  }

  lemma {:induction false} SuccessesAndFailures(w: seq<bool>)
    ensures Successes(w) + Failures(w) == |w|
  {
    if w != [] {
      var n := |w| - 1;
      SuccessesAndFailures(w[..n]);
      CountAppend(w[..n], w[n], true);
      CountAppend(w[..n], w[n], false);
      assert w == w[..n] + [w[n]];
    }
  }

  /** A longer history never counts fewer. */
  lemma {:induction false} CountGrows(w: seq<bool>, more: seq<bool>, v: bool)
    ensures Count(w, v) <= Count(w + more, v)
    decreases |more|
  {
    if more == [] {
      assert w + more == w;
    } else {
      CountGrows(w, more[..|more| - 1], v);
      assert (w + more)[..|w + more| - 1] == w + more[..|more| - 1];
    }
  }

  class CountingStats {
    const bits: array<bool>
    var head: nat
    var occupiedBits: nat
    var successes: nat
    var failures: nat

    ghost predicate Valid()
      reads this, bits
    {
      && Shape(bits.Length, occupiedBits, head)
      && successes == Successes(Window())
      && failures == Failures(Window())
    }

    /** The results held, oldest first. */
    ghost function Window(): (w: seq<bool>)
      requires Shape(bits.Length, occupiedBits, head)
      reads this, bits
      ensures |w| == occupiedBits
    {
      Content(bits[..], occupiedBits, head)
    }

    constructor (size: nat)
      requires size > 0
      ensures Valid() && fresh(bits) && bits.Length == size && Window() == []
    {
      bits := new bool[size](_ => false);
      head, occupiedBits, successes, failures := 0, 0, 0, 0;
    }

    /** Slides the window; returns the bit that gave way as 0 or 1, or -1 if there was room. */
    method SetNext(value: bool) returns (previous: int)
      requires Valid()
      modifies this, bits
      ensures Valid()
      ensures Window() == LastN(old(Window()) + [value], bits.Length)
      ensures previous == if |old(Window())| < bits.Length then -1 else if old(Window())[0] then 1 else 0
    {
      hide Count, LastN;
      ghost var before := Window();
      Write(bits[..], occupiedBits, head, value);
      NextIsModulo(head, bits.Length);
      CountSlides(before, bits.Length, value, true);
      CountSlides(before, bits.Length, value, false);
      OldestIsCounted(before);
      previous := -1;
      if occupiedBits < bits.Length {
        occupiedBits := occupiedBits + 1;
      } else if bits[head] {
        previous := 1;
        successes := successes - 1;
      } else {
        previous := 0;
        failures := failures - 1;
      }
      if value {
        successes := successes + 1;
      } else {
        failures := failures + 1;
      }
      bits[head] := value;
      assert bits[..] == old(bits[..])[head := value];
      head := (head + 1) % bits.Length;
    }

    method Counts() returns (t: Tally)
      requires Valid()
      ensures t == TallyOf(Window())
    {
      t := Tally(occupiedBits, successes, failures);
    }

    method Reset()
      requires Valid()
      modifies this, bits
      ensures Valid() && Window() == []
    {
      forall i | 0 <= i < bits.Length {
        bits[i] := false;
      }
      head, occupiedBits, successes, failures := 0, 0, 0, 0;
    }
  }
}
