/** The mutable MovingSum and CorrelationWindow, proved against the value-level window of Correlation. */
module CorrelationWindows {
  import opened Rings
  import opened Correlation

  /** A ring of the last non-zero samples with their running sum and sum of squares. */
  class MovingSum {
    const samples: array<real>
    var size: nat
    var index: nat
    var sumY: real
    var sumSquares: real

    ghost predicate Valid()
      reads this, samples
    {
      && Shape(samples.Length, size, index)
      && sumY == Sum(Window())
      && sumSquares == Dot(Window(), Window())
    }

    /** The samples held, oldest first. */
    ghost function Window(): (w: seq<real>)
      requires Shape(samples.Length, size, index)
      reads this, samples
      ensures |w| == size
    {
      Content(samples[..], size, index)
    }

    constructor (capacity: nat)
      requires capacity > 0
      ensures Valid() && fresh(samples) && samples.Length == capacity && Window() == []
    {
      samples := new real[capacity](i => 0.0);
      size, index, sumY, sumSquares := 0, 0, 0.0, 0.0;
    }

    /** Writes value over the oldest slot and moves the index on; the sums are the caller's. */
    method Store(value: real)
      requires Shape(samples.Length, size, index)
      modifies this`size, this`index, samples
      ensures Shape(samples.Length, size, index)
      ensures Window() == LastN(old(Window()) + [value], samples.Length)
    {
      hide Content, LastN;
      Write(samples[..], size, index, value);
      NextIsModulo(index, samples.Length);
      if size != samples.Length {
        size := size + 1;
      }
      samples[index] := value;
      assert samples[..] == old(samples[..])[index := value];
      index := (index + 1) % samples.Length;
    }

    /** Slides the window unless value is zero; returns the sample that gave way, if the window was full. */
    method Add(value: real) returns (oldValue: real, full: bool)
      requires Valid()
      modifies this, samples
      ensures Valid()
      ensures Window() == Slide(old(Window()), samples.Length, value)
      ensures full == Evicts(old(Window()), samples.Length, value)
      ensures oldValue == Evicted(old(Window()), samples.Length, value)
    {
      hide Sum, Dot, Times, LastN;
      oldValue, full := 0.0, false;
      if value != 0.0 {
        ghost var before := Window();
        assert size == samples.Length ==> samples[index] == before[0] by {
          Write(samples[..], size, index, value);
        }
        SumSlides(before, samples.Length, value);
        DotSlides(before, before, samples.Length, value, value);
        if size == samples.Length {
          full := true;
          oldValue := samples[index];
          sumY := sumY - oldValue;
          sumSquares := sumSquares - Times(oldValue, oldValue);
        }
        sumY := sumY + value;
        sumSquares := sumSquares + Times(value, value);
        Store(value);
      }
    }

    /** NaN for fewer than two samples or a zero mean, else the window's coefficient of variation, mean and variance. */
    method CalculateCV(sqrt: real -> real) returns (v: Variation)
      requires Valid() && IsSquareRoot(sqrt)
      ensures v == VariationOf(Window(), sqrt)
    {
      hide Variance, Sum, Dot, IsSquareRoot, Times, Content;
      if size < 2 {
        return NaN;
      }
      var mean := sumY / size as real;
      var variance := sumSquares / size as real - Times(mean, mean);
      VarianceFromSums(Window());
      VarianceNonNegative(Window());
      if variance < 0.0 || mean == 0.0 {
        return NaN;
      }
      v := Variation(sqrt(variance) / mean, mean, variance);
    }

    method Reset()
      requires Valid()
      modifies this, samples
      ensures Valid() && Window() == []
    {
      forall i | 0 <= i < samples.Length {
        samples[i] := 0.0;
      }
      size, index, sumY, sumSquares := 0, 0, 0.0, 0.0;
    }
  }

  /** A sample as CorrelationWindow.Add receives it: infinities are turned away, NaN is taken in. */
  datatype Sample = Finite(value: real) | Infinite | NotANumber

  class CorrelationWindow {
    const warmupSamples: nat
    const xSamples: MovingSum
    const ySamples: MovingSum
    var corrSumXY: real
    /** A sum of a window has become NaN. It stays NaN whatever is added and evicted, and then nothing is read from either
        window; their samples are no longer tracked. */
    var poisoned: bool

    ghost predicate Valid()
      reads this, xSamples, xSamples.samples, ySamples, ySamples.samples
    {
      && xSamples != ySamples && xSamples.samples != ySamples.samples
      && xSamples.samples.Length == ySamples.samples.Length
      && xSamples.Valid() && ySamples.Valid()
    }

    ghost function Abs(): State
      requires Valid()
      reads this, xSamples, xSamples.samples, ySamples, ySamples.samples
    {
      State(xSamples.Window(), ySamples.Window(), corrSumXY)
    }

    constructor (capacity: nat, warmup: nat)
      requires capacity > 0
      ensures Valid() && Abs() == EMPTY && !poisoned && warmupSamples == warmup && xSamples.samples.Length == capacity
      ensures fresh(xSamples) && fresh(ySamples) && fresh(xSamples.samples) && fresh(ySamples.samples)
    {
      warmupSamples := warmup;
      xSamples := new MovingSum(capacity);
      ySamples := new MovingSum(capacity);
      corrSumXY, poisoned := 0.0, false;
    }

    /** Takes both samples in and brings the cross-sum up to date. */
    method Update(x: real, y: real)
      requires Valid()
      modifies this, xSamples, xSamples.samples, ySamples, ySamples.samples
      ensures Valid() && poisoned == old(poisoned)
      ensures Abs() == Step(old(Abs()), xSamples.samples.Length, x, y)
    {
      hide Sum, Dot, Slide, LastN, Content, Times;
      ghost var before := Abs();
      var oldX, full := xSamples.Add(x);
      var oldY, _ := ySamples.Add(y);
      var product := Times(oldX, oldY);
      if full {
        corrSumXY := corrSumXY - product;
      }
      corrSumXY := corrSumXY + Times(x, y);
    }

    /** Takes one step of the value-level window and returns its reading; after a NaN, zero until the next reset. */
    method Add(x: Sample, y: Sample, sqrt: real -> real) returns (r: Reading)
      requires Valid() && IsSquareRoot(sqrt)
      modifies this, xSamples, xSamples.samples, ySamples, ySamples.samples
      ensures Valid()
      ensures x.Infinite? || y.Infinite? ==> Abs() == old(Abs()) && r == NO_READING
      ensures poisoned == (old(poisoned) || (!x.Infinite? && !y.Infinite? && (x.NotANumber? || y.NotANumber?)))
      ensures poisoned ==> r == NO_READING
      ensures !poisoned && x.Finite? && y.Finite? ==>
                && Abs() == Step(old(Abs()), xSamples.samples.Length, x.value, y.value)
                && r == Read(Abs(), warmupSamples, sqrt)
    {
      if x.Infinite? || y.Infinite? {
        return NO_READING;
      }
      if poisoned || x.NotANumber? || y.NotANumber? {
        poisoned := true;
        return NO_READING;
      }
      Update(x.value, y.value);
      r := Correlate(sqrt);
    }

    /** The reading of the samples now held. */
    method Correlate(sqrt: real -> real) returns (r: Reading)
      requires Valid() && IsSquareRoot(sqrt)
      ensures r == Read(Abs(), warmupSamples, sqrt)
    {
      hide Sum, Dot, Variance, Mean, IsSquareRoot;
      var cvX := xSamples.CalculateCV(sqrt);
      var cvY := ySamples.CalculateCV(sqrt);
      if cvX.NaN? || cvY.NaN? {
        return NO_READING;
      }
      if xSamples.size < warmupSamples {
        return NO_READING;
      }
      if cvX.cv < MIN_CV || cvY.cv < MIN_CV {
        return Reading(0.0, cvX.cv, cvY.cv);
      }
      var covariance := corrSumXY / xSamples.size as real - Times(cvX.mean, cvY.mean);
      PositiveCv(xSamples.Window(), sqrt);
      PositiveCv(ySamples.Window(), sqrt);
      var roots := Times(sqrt(cvX.variance), sqrt(cvY.variance));
      PositiveProduct(sqrt(cvX.variance), sqrt(cvY.variance), roots);
      r := Reading(covariance / roots, cvX.cv, cvY.cv);
    }

    method Reset()
      requires Valid()
      modifies this, xSamples, xSamples.samples, ySamples, ySamples.samples
      ensures Valid() && Abs() == EMPTY && !poisoned
    {
      xSamples.Reset();
      ySamples.Reset();
      corrSumXY, poisoned := 0.0, false;
    }
  }
}
