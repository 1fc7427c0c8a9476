/** The terms of the estimators in numbers: the noise of the blend filter, the reference and the sums of the change
    detector. */
module EstimatorLaws {
  import opened RealMath
  import opened BlendFilter
  import PageHinkley

  // ----- the blend filter -----

  /** One more measurement z of a component, dt seconds after the last one: with the predicted variance P = v + sp^2 dt
      (no drift when the clock ran backwards) and R = sm^2, the new variance is P R / (P + R) and the new estimate
      (x R + z P) / (P + R). */
  lemma NextMeasurement(ms: seq<Measurement>, v0: real, z: real, sp: real, dt: real, sm: real)
    requires Usable(ms, v0) && sm != 0.0
    ensures Usable(ms + [Measurement(z, Drift(sp, Elapsed(dt)), Noise(sm))], v0)
    ensures var c, c' := Filtered(ms, v0), Filtered(ms + [Measurement(z, Drift(sp, Elapsed(dt)), Noise(sm))], v0);
      var P, R := c.v + (if dt > 0.0 then sp * sp * dt else 0.0), sm * sm;
      Times(c'.v, P + R) == Times(P, R) && Times(c'.x, P + R) == Times(c.x, R) + Times(z, P)
  {
    hide Times, Drift, Noise, Elapsed;
    var q, r := Drift(sp, Elapsed(dt)), Noise(sm);
    Terms(sp, dt, sm);
    var more := ms + [Measurement(z, q, r)];
    assert more[..|more| - 1] == ms;
    var c := Filtered(ms, v0);
    if c.v + q > 0.0 {
      StepInformation(c, q, r, z);
    } else {
      NoGain(c, q, r, z);
    }
  }

  lemma Terms(sp: real, dt: real, sm: real)
    ensures Drift(sp, Elapsed(dt)) == (if dt > 0.0 then sp * sp * dt else 0.0) && Noise(sm) == sm * sm
  {
    assert sp * sp * 0.0 == 0.0;
  }

  lemma NoGain(c: Component, q: real, r: real, z: real)
    requires c.v + q == 0.0 && r > 0.0
    ensures var n := Step(c, q, r, z - c.x);
      Times(n.v, c.v + q + r) == Times(c.v + q, r) && Times(n.x, c.v + q + r) == Times(c.x, r) + Times(z, c.v + q)
  {
    TimesZero(z - c.x);
    TimesZero(1.0);
    TimesZero(r);
    TimesZero(z);
  }

  /** A position seeded at 0 and measured at 14 one second later, with a drift of 0.3 and a noise of 0.1: the prediction
      has the variance 0.04 + 0.09, the gain is 13/14, the estimate 13 and its variance 0.13 / 14. */
  lemma PositionExample(first: Measurement)
    requires first.z == 0.0
    ensures var ms := [first, Measurement(14.0, Drift(0.3, 1.0), Noise(0.1))];
      Usable(ms, INITIAL_PPOS) && Filtered(ms, INITIAL_PPOS) == Component(13.0, 0.13 / 14.0)
  {
    assert Drift(0.3, 1.0) == 0.09 && Noise(0.1) == 0.01;
    TwoUpdates(first, Measurement(14.0, 0.09, 0.01), 0.04);
    assert 0.13 / 0.14 == 13.0 / 14.0;
  }

  /** An angle starts with the variance 0.1. */
  lemma AngleExample(first: Measurement)
    requires first.z == 0.0
    ensures var ms := [first, Measurement(3.0, Drift(0.0, 1.0), Noise(1.0))];
      Usable(ms, INITIAL_PYAW) && Filtered(ms, INITIAL_PYAW) == Component(3.0 / 11.0, 1.0 / 11.0)
  {
    assert Drift(0.0, 1.0) == 0.0 && Noise(1.0) == 1.0;
    TwoUpdates(first, Measurement(3.0, 0.0, 1.0), 0.1);
    assert 0.1 / 1.1 == 1.0 / 11.0;
  }

  lemma TwoUpdates(a: Measurement, b: Measurement, v0: real)
    requires v0 > 0.0 && b.q >= 0.0 && b.r > 0.0
    ensures Usable([a, b], v0)
    ensures var k := (v0 + b.q) / (v0 + b.q + b.r);
      Filtered([a, b], v0) == Component(a.z + Times(k, b.z - a.z), Times(1.0 - k, v0 + b.q))
  {
    hide Times;
    assert [a, b][..1] == [a];
    OneUpdate(a, v0);
  }

  lemma OneUpdate(a: Measurement, v0: real)
    requires v0 > 0.0
    ensures Usable([a], v0) && Filtered([a], v0) == Component(a.z, v0)
  {
  }

  /** With a true square root, the position's innovation is the distance of the measurement from the estimate. */
  lemma InnovationIsDistance(sqrt: real -> real, x: real, y: real, z: real)
    requires forall v: real {:trigger sqrt(v)} :: v >= 0.0 ==> sqrt(v) >= 0.0 && sqrt(v) * sqrt(v) == v
    ensures var d := sqrt(SquaredLength(x, y, z));
      d >= 0.0 && d * d == x * x + y * y + z * z && (d == 0.0 <==> x == y == z == 0.0)
  {
    SquareSign(x);
    SquareSign(y);
    SquareSign(z);
    SquareSign(sqrt(SquaredLength(x, y, z)));
  }

  lemma SquareSign(a: real)
    ensures a * a >= 0.0 && (a * a == 0.0 <==> a == 0.0)
  {
    if a != 0.0 {
      SquarePositive(a);
    }
  }

  // ----- the change detector -----

  /** The reference starts at the first sample and moves by the share alpha of each further sample's distance from it. */
  lemma ReferenceMoves(p: PageHinkley.Params, xs: seq<real>)
    requires xs != []
    ensures |xs| == 1 ==> PageHinkley.Mean(p, xs) == xs[0]
    ensures |xs| > 1 ==>
      var was, x := PageHinkley.Mean(p, xs[..|xs| - 1]), xs[|xs| - 1];
      PageHinkley.Mean(p, xs) - was == Times(p.alpha, x - was)
  {
    if |xs| > 1 {
      var was, x := PageHinkley.Mean(p, xs[..|xs| - 1]), xs[|xs| - 1];
      TimesPlus(was, 1.0 - p.alpha, p.alpha);
      TimesOne(was);
      TimesPlus(p.alpha, x - was, was);
      hide Times;
    }
  }

  lemma {:induction false} DeviationAt(p: PageHinkley.Params, xs: seq<real>, i: nat)
    requires i < |xs|
    ensures PageHinkley.Deviations(p, xs)[i] == xs[i] - PageHinkley.Mean(p, xs[..i + 1])
  {
    hide PageHinkley.Mean;
    if i == |xs| - 1 {
      assert xs[..i + 1] == xs;
    } else {
      DeviationAt(p, xs[..|xs| - 1], i);
      assert xs[..|xs| - 1][..i + 1] == xs[..i + 1];
    }
  }

  /** What is summed upwards is the distance above the reference less delta, and downwards the distance below it less
      delta. */
  lemma SummedTerms(p: PageHinkley.Params, xs: seq<real>, i: nat)
    requires i < |xs|
    ensures PageHinkley.Upward(p, xs)[i] == xs[i] - PageHinkley.Mean(p, xs[..i + 1]) - p.delta
    ensures PageHinkley.Downward(p, xs)[i] == PageHinkley.Mean(p, xs[..i + 1]) - xs[i] - p.delta
  {
    hide PageHinkley.Mean, PageHinkley.Deviations;
    DeviationAt(p, xs, i);
  }

  /** The sums are those of the last terms. */
  lemma {:induction false} SuffixIsSum(v: seq<real>, k: nat)
    requires k <= |v|
    ensures PageHinkley.SuffixSum(v, k) == Sum(v[k..])
  {
    if k < |v| {
      SuffixIsSum(v[..|v| - 1], k);
      assert v[k..][..|v| - k - 1] == v[..|v| - 1][k..];
    }
  }

  lemma DriftIs(p: PageHinkley.Params, v: seq<real>)
    ensures PageHinkley.Drifted(p, v) <==> exists k :: 0 <= k <= |v| && Sum(v[k..]) > p.lambda
  {
    hide PageHinkley.SuffixSum, Sum;
    forall k | 0 <= k <= |v| ensures PageHinkley.SuffixSum(v, k) == Sum(v[k..]) {
      SuffixIsSum(v, k);
    }
    if k :| 0 <= k <= |v| && Sum(v[k..]) > p.lambda {
      assert PageHinkley.SuffixSum(v, k) > p.lambda;
    }
  }

  /** The alarm looks at both sides unless the detector is one-sided: it is raised exactly when the last terms of a side,
      however many, add up to more than lambda. */
  lemma AlarmIs(p: PageHinkley.Params, xs: seq<real>)
    ensures PageHinkley.Alarm(p, xs)
      <==> ((exists k :: 0 <= k <= |xs| && Sum(PageHinkley.Upward(p, xs)[k..]) > p.lambda)
            || (!p.oneSidedPositive && exists k :: 0 <= k <= |xs| && Sum(PageHinkley.Downward(p, xs)[k..]) > p.lambda))
  {
    DriftIs(p, PageHinkley.Upward(p, xs));
    DriftIs(p, PageHinkley.Downward(p, xs));
    hide PageHinkley.Upward, PageHinkley.Downward, PageHinkley.Drifted, Sum;
  }
}
