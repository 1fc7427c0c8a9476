/** Welford's streaming mean and variance, over exact reals. */
module Welford {
  import opened RealMath

  // ----- batch definitions -----

  /** Sum of squared deviations from c. */
  function SquaredDeviations(xs: seq<real>, c: real): real
  {
    if xs == [] then 0.0
    else SquaredDeviations(xs[..|xs| - 1], c) + Times(xs[|xs| - 1] - c, xs[|xs| - 1] - c)
  }

  function BatchMean(xs: seq<real>): real
    requires xs != []
  {
    Sum(xs) / |xs| as real
  }

  // ----- the streaming form -----

  datatype Moments = Moments(count: nat, mean: real, m2: real)

  function Updated(s: Moments, x: real): Moments
  {
    var count := s.count + 1;
    var delta := x - s.mean;
    var mean := s.mean + delta / count as real;
    Moments(count, mean, s.m2 + Times(delta, x - mean))
  }

  /** The state behind a list of samples. */
  function Fold(xs: seq<real>): Moments
  {
    if xs == [] then Moments(0, 0.0, 0.0) else Updated(Fold(xs[..|xs| - 1]), xs[|xs| - 1])
  }

  function PopulationVariance(s: Moments): real
  {
    if s.count == 0 then 0.0 else s.m2 / s.count as real
  }

  function SampleVariance(s: Moments): real
  {
    if s.count < 2 then 0.0 else s.m2 / (s.count - 1) as real
  }

  // ----- they agree -----

  lemma SquareOfSum(a: real, b: real)
    ensures Times(a + b, a + b) == Times(a, a) + 2.0 * Times(a, b) + Times(b, b)
  {
  }

  /** Moving the center by d. */
  lemma {:induction false} Recenter(xs: seq<real>, c: real, d: real)
    ensures SquaredDeviations(xs, c + d)
         == SquaredDeviations(xs, c) - 2.0 * Times(d, Sum(xs) - Times(|xs| as real, c)) + Times(|xs| as real, Times(d, d))
  {
    var n := |xs| as real;
    if xs == [] {
      TimesZero(c);
      TimesZero(d);
      TimesZero(Times(d, d));
      hide Times;
    } else {
      var t, x := xs[..|xs| - 1], xs[|xs| - 1];
      var m := |t| as real;
      Recenter(t, c, d);
      SquareOfSum(x - c, -d);
      TimesNegated(x - c, d);
      TimesNegated(d, d);
      SquareNegated(d);
      Distribute(d, Sum(t), m, c, x);
      OneMore(m, Times(d, d));
      TimesPlus(d, x, c);
      assert n == m + 1.0;
      assert x - (c + d) == (x - c) + -d;
      hide Times;
    }
  }

  lemma SquareNegated(d: real)
    ensures Times(-d, -d) == Times(d, d)
  {
  }

  lemma OneMore(m: real, v: real)
    ensures Times(m + 1.0, v) == Times(m, v) + v
  {
  }

  lemma Distribute(d: real, s: real, m: real, c: real, x: real)
    ensures Times(d, s + x - Times(m + 1.0, c)) == Times(d, s - Times(m, c)) + Times(x - c, d)
  {
  }

  /** The step of the induction in numbers: mean moves by e = delta / (n + 1). */
  lemma StepReals(n: real, mean: real, x: real, e: real)
    requires x - mean == Times(n + 1.0, e)
    ensures Times(n, Times(e, e)) + Times(x - (mean + e), x - (mean + e)) == Times(x - mean, x - (mean + e))
    ensures Times(n + 1.0, mean + e) == Times(n, mean) + x
  {
    var r := Times(n, e);
    assert x - mean == r + e;
    assert x - (mean + e) == r;
    assert Times(n, Times(e, e)) == Times(r, e);
    assert Times(r + e, r) == Times(r, r) + Times(e, r);
    assert Times(n + 1.0, mean + e) == Times(n, mean) + mean + (r + e);
  }

  /** After any samples, count times mean is their sum, and m2 is the sum of squared deviations from the final mean. */
  lemma {:induction false} StreamingIsBatch(xs: seq<real>)
    ensures Fold(xs).count == |xs|
    ensures Times(|xs| as real, Fold(xs).mean) == Sum(xs)
    ensures Fold(xs).m2 == SquaredDeviations(xs, Fold(xs).mean)
  {
    if xs == [] {
    } else {
      var t, x := xs[..|xs| - 1], xs[|xs| - 1];
      StreamingIsBatch(t);
      var s := Fold(t);
      var n := |t| as real;
      var e := (x - s.mean) / (|t| + 1) as real;
      DivTimes(x - s.mean, n + 1.0);
      TimesPlus(e, n, 1.0);
      assert Times(n + 1.0, e) == x - s.mean;
      StepReals(n, s.mean, x, e);
      Recenter(t, s.mean, e);
      TimesZero(e);
      hide Times;
      assert Sum(t) - Times(n, s.mean) == 0.0;
    }
  }

  /** Both variances are the batch ones. */
  lemma VariancesAreBatch(xs: seq<real>)
    ensures |xs| >= 1 ==> Fold(xs).mean == BatchMean(xs)
    ensures |xs| >= 1 ==> PopulationVariance(Fold(xs)) == SquaredDeviations(xs, BatchMean(xs)) / |xs| as real
    ensures |xs| >= 2 ==> SampleVariance(Fold(xs)) == SquaredDeviations(xs, BatchMean(xs)) / (|xs| - 1) as real
    ensures xs == [] ==> PopulationVariance(Fold(xs)) == 0.0
    ensures |xs| < 2 ==> SampleVariance(Fold(xs)) == 0.0
  {
    StreamingIsBatch(xs);
    if |xs| >= 1 {
      TimesPlus(|xs| as real, Fold(xs).mean, 0.0);
      DivUnique(Sum(xs), |xs| as real, Fold(xs).mean);
    }
  }

  /** The accumulator. */
  class WelfordState {
    var count: nat
    var mean: real
    var m2: real

    function State(): Moments
      reads this
    {
      Moments(count, mean, m2)
    }

    constructor ()
      ensures State() == Fold([])
    {
      count, mean, m2 := 0, 0.0, 0.0;
    }

    method WelfordUpdate(x: real)
      modifies this
      ensures State() == Updated(old(State()), x)
    {
      count := count + 1;
      var delta := x - mean;
      mean := mean + delta / count as real;
      var delta2 := x - mean;
      m2 := m2 + Times(delta, delta2);
    }

    method WelfordReset()
      modifies this
      ensures State() == Fold([])
    {
      count := 0;
      mean := 0.0;
      m2 := 0.0;
    }
  }

  /** A fresh accumulator that is fed samples one by one. */
  method Accumulate(xs: seq<real>) returns (count: nat, mean: real, m2: real)
    ensures count == |xs| && Times(count as real, mean) == Sum(xs) && m2 == SquaredDeviations(xs, mean)
  {
    hide Updated, SquaredDeviations, Sum;
    var s := new WelfordState();
    var i := 0;
    while i < |xs|
      invariant i <= |xs| && s.State() == Fold(xs[..i])
    {
      s.WelfordUpdate(xs[i]);
      i := i + 1;
      assert xs[..i][..i - 1] == xs[..i - 1];
    }
    assert xs[..i] == xs;
    StreamingIsBatch(xs);
    count, mean, m2 := s.count, s.mean, s.m2;
  }
}
