/** The running mean of `bin/src/util.rs`, at both types it is used with: machine words, where each
    step truncates, and 32-bit floats, taken here as exact reals. */
module MovingAverage {

  // ---------------------------------------------------------------- machine words

  /** The two fields of the struct. */
  datatype Avg = Avg(val: nat, interval: nat)

  function Times(a: nat, b: nat): nat {
    a * b
  }

  /** Truncating division. */
  function Quotient(v: nat, n: nat): nat
    requires n > 0
  {
    v / n
  }

  function Push(a: Avg, x: nat): Avg {
    Avg(Quotient(Times(a.val, a.interval) + x, a.interval + 1), a.interval + 1)
  }

  /** The struct after `new(start)` and one `next` per sample. */
  function AvgOf(start: nat, samples: seq<nat>): (a: Avg)
    ensures a.interval == |samples|
  {
    if samples == [] then Avg(start, 0)
    else Push(AvgOf(start, samples[..|samples| - 1]), samples[|samples| - 1])
  }

  lemma AvgOneMore(start: nat, samples: seq<nat>, x: nat)
    ensures AvgOf(start, samples + [x]) == Push(AvgOf(start, samples), x)
  {
    assert (samples + [x])[..|samples|] == samples;
  }

  class MovingAvg {
    var val: nat
    var interval: nat

    ghost function Value(): Avg
      reads this
    {
      Avg(val, interval)
    }

    constructor (start: nat)
      ensures Value() == Avg(start, 0)
    {
      val, interval := start, 0;
    }

    method Next(x: nat) returns (r: nat)
      modifies this
      ensures Value() == Push(old(Value()), x)
      ensures r == val
    {
      interval := interval + 1;
      val := Quotient(Times(val, interval - 1) + x, interval);
      r := val;
    }
  }

  function Sum(samples: seq<nat>): nat {
    if samples == [] then 0
    else Sum(samples[..|samples| - 1]) + samples[|samples| - 1]
  }

  /** What one truncating division costs. */
  lemma QuotientBounds(v: nat, n: nat)
    requires n > 0
    ensures Times(n, Quotient(v, n)) <= v < Times(n, Quotient(v, n)) + n
  {
  }

  lemma TimesMonotone(n: nat, a: nat, b: nat)
    ensures a <= b ==> Times(n, a) <= Times(n, b)
    ensures Times(a, n) == Times(n, a)
  {
    if a <= b {
      assert n * b == n * a + n * (b - a);
    }
  }

  lemma TimesNext(n: nat, a: nat)
    ensures Times(n, a + 1) == Times(n, a) + n
    ensures Times(n + 1, a) == Times(n, a) + a
    ensures Times(n, a) == Times(a, n)
    ensures Times(n, 0) == 0 && Times(n, 1) == n && Times(1, n) == n
  {
  }

  lemma QuotientBetween(v: nat, n: nat, lo: nat, hi: nat)
    requires n > 0
    requires Times(n, lo) <= v < Times(n, hi) + n
    ensures lo <= Quotient(v, n) <= hi
  {
    hide Times, Quotient;
    var q := Quotient(v, n);
    QuotientBounds(v, n);
    TimesMonotone(n, q + 1, lo);
    TimesMonotone(n, hi + 1, q);
    TimesNext(n, q);
    TimesNext(n, hi);
  }

  /** n(n-1)/2, the largest total that n truncations can lose. */
  function Triangle(n: nat): nat {
    if n == 0 then 0 else Triangle(n - 1) + (n - 1)
  }

  lemma {:induction false} TriangleClosed(n: nat)
    requires n > 0
    ensures Triangle(n) == n * (n - 1) / 2
  {
    if n > 1 {
      TriangleClosed(n - 1);
      assert n * (n - 1) == (n - 1) * (n - 2) + 2 * (n - 1);
    }
  }

  /** After n samples of sum S the average never exceeds S/n and lags it by at most (n-1)/2;
      both sides are multiplied by n. */
  lemma {:induction false} TruncationBound(start: nat, samples: seq<nat>)
    requires samples != []
    ensures var n := |samples|;
            Times(n, AvgOf(start, samples).val) <= Sum(samples) <= Times(n, AvgOf(start, samples).val) + Triangle(n)
    ensures Triangle(|samples|) == |samples| * (|samples| - 1) / 2
  {
    hide Times, Quotient;
    var n := |samples|;
    TriangleClosed(n);
    var init, x := samples[..n - 1], samples[n - 1];
    if n > 1 {
      TruncationBound(start, init);
    }
    var before := AvgOf(start, init).val;
    TimesNext(before, n - 1);
    QuotientBounds(Times(before, n - 1) + x, n);
  }

  /** The samples c, c + 1, c + 2, ... */
  function Staircase(c: nat, n: nat): (s: seq<nat>)
    ensures |s| == n
  {
    if n == 0 then [] else Staircase(c, n - 1) + [c + n - 1]
  }

  /** On a staircase the average never leaves c, so the lag of `TruncationBound` is attained for every n. */
  lemma {:induction false} TruncationBoundAttained(start: nat, c: nat, n: nat)
    requires n > 0
    ensures AvgOf(start, Staircase(c, n)).val == c
    ensures Sum(Staircase(c, n)) == Times(n, c) + Triangle(n)
  {
    var init, x := Staircase(c, n - 1), c + n - 1;
    assert Staircase(c, n) == init + [x];
    hide Staircase, Sum, AvgOf, Push;
    AvgOneMore(start, init, x);
    SumOneMore(init, x);
    if n > 1 {
      TruncationBoundAttained(start, c, n - 1);
    } else {
      NoSamples(start);
    }
    StaircaseStep(AvgOf(start, init), c, n, x);
  }

  lemma NoSamples(start: nat)
    ensures Sum([]) == 0 && AvgOf(start, []) == Avg(start, 0)
  {
  }

  lemma SumOneMore(samples: seq<nat>, x: nat)
    ensures Sum(samples + [x]) == Sum(samples) + x
  {
    assert (samples + [x])[..|samples|] == samples;
  }

  lemma StaircaseStep(a: Avg, c: nat, n: nat, x: nat)
    requires n > 0 && a.interval == n - 1 && x == c + n - 1
    requires n > 1 ==> a.val == c
    ensures Push(a, x).val == c
    ensures Times(n, c) == Times(n - 1, c) + c
    ensures Times(0, c) == 0
  {
    hide Times, Quotient;
    TimesNext(a.val, n - 1);
    TimesNext(n - 1, c);
    TimesNext(c, 0);
    QuotientBetween(Times(a.val, n - 1) + x, n, c, c);
  }

  ghost predicate Within(samples: seq<nat>, lo: nat, hi: nat) {
    forall i :: 0 <= i < |samples| ==> lo <= samples[i] <= hi
  }

  /** The average stays between the smallest and the largest sample. */
  lemma {:induction false} AverageWithinRange(start: nat, samples: seq<nat>, lo: nat, hi: nat)
    requires samples != [] && Within(samples, lo, hi)
    ensures lo <= AvgOf(start, samples).val <= hi
  {
    hide Times, Quotient;
    var n := |samples|;
    var init, x := samples[..n - 1], samples[n - 1];
    var before := AvgOf(start, init).val;
    if n > 1 {
      AverageWithinRange(start, init, lo, hi);
    }
    StepWithinRange(if n > 1 then before else x, n, x, lo, hi);
    TimesNext(before, n - 1);
    TimesNext(x, n - 1);
  }

  lemma StepWithinRange(before: nat, n: nat, x: nat, lo: nat, hi: nat)
    requires n > 0
    requires lo <= before <= hi && lo <= x <= hi
    ensures lo <= Quotient(Times(before, n - 1) + x, n) <= hi
    ensures Times(before, n - 1) + x <= Times(n, hi)
  {
    hide Times, Quotient;
    TimesMonotone(n - 1, lo, before);
    TimesMonotone(n - 1, before, hi);
    TimesNext(n - 1, lo);
    TimesNext(n - 1, hi);
    TimesNext(n - 1, before);
    QuotientBetween(Times(before, n - 1) + x, n, lo, hi);
  }

  /** One past the largest 64-bit `usize`. */
  const WORD: nat := 0x1_0000_0000_0000_0000

  /** `next` in wrapping machine words, the way a release build computes it. */
  function WordPush(a: Avg, x: nat): Avg {
    Avg(Quotient((Times(a.val, a.interval) % WORD + x) % WORD, a.interval + 1), a.interval + 1)
  }

  function WordAvgOf(start: nat, samples: seq<nat>): (a: Avg)
    ensures a.interval == |samples|
  {
    if samples == [] then Avg(start, 0)
    else WordPush(WordAvgOf(start, samples[..|samples| - 1]), samples[|samples| - 1])
  }

  lemma WrapOnce(p: nat, x: nat)
    ensures (p % WORD + x) % WORD == (p + x) % WORD
  {
    var k := p / WORD;
    assert p == k * WORD + p % WORD;
    assert (p % WORD + x + k * WORD) % WORD == (p % WORD + x) % WORD;
  }

  lemma WrapChangesQuotient(v: nat, n: nat)
    requires 0 < n < WORD <= v
    ensures Quotient(v % WORD, n) != Quotient(v, n)
  {
    hide Times, Quotient;
    assert v % WORD <= v - WORD;
    QuotientBounds(v % WORD, n);
    QuotientBounds(v, n);
  }

  /** A step in machine words agrees with the exact one precisely when its intermediate value fits. */
  lemma WordStepExact(a: Avg, x: nat)
    requires a.val < WORD && x < WORD && a.interval + 1 < WORD
    ensures WordPush(a, x) == Push(a, x) <==> Times(a.val, a.interval) + x < WORD
  {
    hide Times, Quotient;
    var p := Times(a.val, a.interval);
    WrapOnce(p, x);
    if p + x >= WORD {
      WrapChangesQuotient(p + x, a.interval + 1);
    }
  }

  /** With samples at most B and n * B inside the word, no step of the whole sequence overflows. */
  lemma {:induction false} NoOverflow(start: nat, samples: seq<nat>, bound: nat)
    requires start < WORD
    requires Within(samples, 0, bound)
    requires Times(|samples|, bound) < WORD && |samples| < WORD
    ensures WordAvgOf(start, samples) == AvgOf(start, samples)
  {
    hide Times, Quotient;
    if samples != [] {
      var n := |samples|;
      var init, x := samples[..n - 1], samples[n - 1];
      TimesNext(n - 1, bound);
      NoOverflow(start, init, bound);
      var before := AvgOf(start, init);
      TimesNext(before.val, n - 1);
      if n > 1 {
        AverageWithinRange(start, init, 0, bound);
        StepWithinRange(before.val, n, x, 0, bound);
      }
      WordStepExact(before, x);
    }
  }

  // ---------------------------------------------------------------- floats, taken as reals

  datatype Mean = Mean(val: real, interval: nat)

  function PushReal(a: Mean, x: real): Mean {
    Mean((a.val * a.interval as real + x) / (a.interval + 1) as real, a.interval + 1)
  }

  function MeanOf(start: real, samples: seq<real>): (a: Mean)
    ensures a.interval == |samples|
  {
    if samples == [] then Mean(start, 0)
    else PushReal(MeanOf(start, samples[..|samples| - 1]), samples[|samples| - 1])
  }

  lemma MeanOneMore(start: real, samples: seq<real>, x: real)
    ensures MeanOf(start, samples + [x]) == PushReal(MeanOf(start, samples), x)
  {
    hide PushReal;
    assert (samples + [x])[..|samples|] == samples;
  }

  class MovingMean {
    var val: real
    var interval: nat

    ghost function Value(): Mean
      reads this
    {
      Mean(val, interval)
    }

    constructor (start: real)
      ensures Value() == Mean(start, 0)
    {
      val, interval := start, 0;
    }

    method Next(x: real) returns (r: real)
      modifies this
      ensures Value() == PushReal(old(Value()), x)
      ensures r == val
    {
      interval := interval + 1;
      assert interval - 1 == old(interval);
      val := (val * (interval - 1) as real + x) / interval as real;
      r := val;
    }
  }

  /** The total the mean stands for. */
  function Weight(a: Mean): real {
    a.val * a.interval as real
  }

  function SumReal(samples: seq<real>): real {
    if samples == [] then 0.0
    else SumReal(samples[..|samples| - 1]) + samples[|samples| - 1]
  }

  lemma WeightStep(a: Mean, x: real)
    ensures Weight(PushReal(a, x)) == Weight(a) + x
  {
    var n := (a.interval + 1) as real;
    var v := a.val * a.interval as real + x;
    assert v / n * n == v;
  }

  /** Over the reals nothing is lost: the mean times its count is the exact sum. */
  lemma {:induction false} MeanIsExact(start: real, samples: seq<real>)
    ensures MeanOf(start, samples).interval == |samples|
    ensures Weight(MeanOf(start, samples)) == SumReal(samples)
  {
    if samples == [] {
      assert start * 0.0 == 0.0;
    } else {
      hide Weight, PushReal;
      var n := |samples| - 1;
      MeanIsExact(start, samples[..n]);
      WeightStep(MeanOf(start, samples[..n]), samples[n]);
    }
  }

  lemma RealMonotone(a: real, b: real, k: real)
    requires k > 0.0
    ensures a <= b <==> a * k <= b * k
  {
  }

  lemma RealQuotientBetween(v: real, n: real, lo: real, hi: real)
    requires n > 0.0
    requires lo * n <= v <= hi * n
    ensures lo <= v / n <= hi
  {
    var q := v / n;
    assert q * n == v;
    RealMonotone(lo, q, n);
    RealMonotone(q, hi, n);
  }

  lemma WeightedBetween(val: real, k: real, x: real, lo: real, hi: real)
    requires k >= 0.0 && lo <= x <= hi
    requires k > 0.0 ==> lo <= val <= hi
    ensures lo * (k + 1.0) <= val * k + x <= hi * (k + 1.0)
  {
    assert lo * (k + 1.0) == lo * k + lo && hi * (k + 1.0) == hi * k + hi;
    if k == 0.0 {
      assert val * k == 0.0 && lo * k == 0.0 && hi * k == 0.0;
    } else {
      RealMonotone(lo, val, k);
      RealMonotone(val, hi, k);
    }
  }

  /** One step of the mean stays inside any range that holds both the old mean and the sample. */
  lemma PushRealBetween(a: Mean, x: real, lo: real, hi: real)
    requires lo <= x <= hi
    requires a.interval > 0 ==> lo <= a.val <= hi
    ensures lo <= PushReal(a, x).val <= hi
  {
    var k := a.interval as real;
    WeightedBetween(a.val, k, x, lo, hi);
    assert (a.interval + 1) as real == k + 1.0;
    RealQuotientBetween(a.val * k + x, k + 1.0, lo, hi);
  }
}
