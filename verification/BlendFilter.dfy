/** The overlay's Kalman filter on a calibration, one component at a time, over exact reals. */
module BlendFilter {
  import opened RealMath

  /** Estimate and variance of one component. */
  datatype Component = Component(x: real, v: real)

  const INITIAL_PPOS: real := 0.04

  const INITIAL_PYAW: real := 0.1

  /** How strongly a measurement of variance r is followed by an estimate of variance v. */
  function Gain(v: real, r: real): real
    requires v + r != 0.0
  {
    v / (v + r)
  }

  /** Predict: the variance grows by q. Update: a step towards the measurement, and a smaller variance.
      `innovation` is the measurement minus the estimate. */
  function Step(c: Component, q: real, r: real, innovation: real): Component
    requires c.v + q + r != 0.0
  {
    var pred := c.v + q;
    var k := Gain(pred, r);
    Component(c.x + Times(k, innovation), Times(1.0 - k, pred))
  }

  /** A step keeps information: 1 / v' = 1 / (v + q) + 1 / r, and the estimate weighted by it is additive. */
  lemma StepInformation(c: Component, q: real, r: real, z: real)
    requires c.v >= 0.0 && q >= 0.0 && c.v + q > 0.0 && r > 0.0
    ensures var n := Step(c, q, r, z - c.x); var pred := c.v + q;
      && 0.0 < n.v < r && n.v < pred
      && Times(n.v, pred + r) == Times(pred, r)
      && Times(n.x, pred + r) == Times(c.x, r) + Times(z, pred)
  {
    var pred := c.v + q;
    var s := pred + r;
    var k := Gain(pred, r);
    DivTimes(pred, s);
    assert Times(k, s) == pred;
    GainRange(k, pred, r);
    TimesPlus(s, 1.0, -k);
    var n := Step(c, q, r, z - c.x);
    VarianceReals(k, pred, r, n.v);
    EstimateReals(k, pred, r, c.x, z, n.x);
  }

  lemma GainRange(k: real, p: real, r: real)
    requires p > 0.0 && r > 0.0 && Times(k, p + r) == p
    ensures 0.0 < k < 1.0 && Times(1.0 - k, p + r) == r
  {
    assert (1.0 - k) * (p + r) == (p + r) - k * (p + r);
    if k <= 0.0 {
      TimesSigns(-k, p + r);
      TimesNegated(k, p + r);
    }
    if k >= 1.0 {
      TimesSigns(k - 1.0, p + r);
      TimesNegated(1.0 - k, p + r);
    }
  }

  lemma VarianceReals(k: real, p: real, r: real, v: real)
    requires p > 0.0 && r > 0.0 && 0.0 < k < 1.0 && Times(k, p + r) == p && Times(1.0 - k, p + r) == r && v == Times(1.0 - k, p)
    ensures 0.0 < v < p && v < r && Times(v, p + r) == Times(p, r)
  {
    TimesSigns(1.0 - k, p);
    TimesSigns(k, p);
    TimesPlus(p, 1.0 - k, k);
    TimesAssoc(p, 1.0 - k, p + r);
    TimesPlus(p, 1.0 - k, 0.0);
    TimesSigns(1.0 - k, r);
    TimesPlus(1.0 - k, p, r);
    TimesOne(p);
  }

  lemma EstimateReals(k: real, p: real, r: real, x: real, z: real, x': real)
    requires Times(k, p + r) == p && x' == x + Times(k, z - x)
    ensures Times(x', p + r) == Times(x, r) + Times(z, p)
  {
    TimesPlus(z - x, k, 0.0);
    TimesAssoc(z - x, k, p + r);
    TimesPlus(p + r, x, Times(k, z - x));
    TimesPlus(x, p, r);
    TimesPlus(p, z, -x);
    TimesNegated(x, p);
  }

  /** Where the denominator is positive, the variance exceeds neither its prediction nor the noise. A measurement
      without noise is taken over, and an estimate that is certain stays. */
  lemma StepVariance(c: Component, q: real, r: real, innovation: real)
    requires c.v >= 0.0 && q >= 0.0 && r >= 0.0 && c.v + q + r > 0.0
    ensures var n := Step(c, q, r, innovation);
      && 0.0 <= n.v <= c.v + q && n.v <= r
      && (r == 0.0 ==> n == Component(c.x + innovation, 0.0))
      && (c.v + q == 0.0 ==> n == Component(c.x, 0.0))
  {
    var p := c.v + q;
    if p == 0.0 {
      assert Gain(p, r) == 0.0;
      TimesZero(innovation);
      TimesOne(p);
    } else if r == 0.0 {
      TimesOne(p);
      DivUnique(p, p + r, 1.0);
      TimesOne(innovation);
      TimesZero(p);
    } else {
      StepInformation(c, q, r, c.x + innovation);
    }
  }

  /** The new estimate lies between the old one and the measurement. */
  lemma StepStaysBetween(c: Component, q: real, r: real, z: real, lo: real, hi: real)
    requires c.v >= 0.0 && q >= 0.0 && r >= 0.0 && c.v + q + r > 0.0 && lo <= c.x <= hi && lo <= z <= hi
    ensures lo <= Step(c, q, r, z - c.x).x <= hi
  {
    var p := c.v + q;
    if p == 0.0 || r == 0.0 {
      StepVariance(c, q, r, z - c.x);
    } else {
      DivTimes(p, p + r);
      GainRange(Gain(p, r), p, r);
      Convex(Gain(p, r), c.x, z, lo, hi);
    }
  }

  lemma Convex(k: real, x: real, z: real, lo: real, hi: real)
    requires 0.0 <= k <= 1.0 && lo <= x <= hi && lo <= z <= hi
    ensures lo <= x + Times(k, z - x) <= hi
  {
    TimesPlus(k, z, -x);
    TimesPlus(k, lo, -x);
    TimesPlus(k, hi, -x);
    ScaleMono(k, lo - x, z - x);
    ScaleMono(k, z - x, hi - x);
    AtMostOne(k, hi - x);
    AtMostOne(k, x - lo);
    Flip(k, x, lo);
  }

  lemma AtMostOne(k: real, d: real)
    requires 0.0 <= k <= 1.0 && d >= 0.0
    ensures Times(k, d) <= d
  {
    TimesSigns(1.0 - k, d);
    TimesPlus(d, 1.0 - k, k);
    TimesOne(d);
  }

  lemma Flip(k: real, x: real, lo: real)
    ensures Times(k, lo - x) == -Times(k, x - lo)
  {
  }

  // ----- many updates -----

  /** One measurement: its value, the growth of the variance before it, and its own variance. */
  datatype Measurement = Measurement(z: real, q: real, r: real)

  /** No update divides by zero. */
  ghost predicate Usable(ms: seq<Measurement>, v0: real)
    decreases |ms|, 0
  {
    var n := |ms| - 1;
    && ms != [] && v0 > 0.0
    && (n > 0 ==>
          Usable(ms[..n], v0) && ms[n].q >= 0.0 && ms[n].r >= 0.0 && Filtered(ms[..n], v0).v + ms[n].q + ms[n].r > 0.0)
  }

  /** The first measurement seeds the estimate; each further one is a step. */
  ghost function Filtered(ms: seq<Measurement>, v0: real): (c: Component)
    requires Usable(ms, v0)
    ensures c.v >= 0.0
    ensures |ms| > 1 ==> c.v <= ms[|ms| - 1].r
    decreases |ms|, 1
  {
    var n := |ms| - 1;
    if n == 0 then Component(ms[0].z, v0)
    else
      var c := Filtered(ms[..n], v0);
      StepVariance(c, ms[n].q, ms[n].r, ms[n].z - c.x);
      Step(c, ms[n].q, ms[n].r, ms[n].z - c.x)
  }

  ghost predicate Noisy(ms: seq<Measurement>)
  {
    forall i :: 0 <= i < |ms| ==> ms[i].q >= 0.0 && ms[i].r > 0.0
  }

  /** With noise in every measurement, every update is defined, and the variance stays between zero and the noise. */
  lemma {:induction false} NoisyUsable(ms: seq<Measurement>, v0: real)
    requires ms != [] && v0 > 0.0 && Noisy(ms)
    ensures Usable(ms, v0) && Filtered(ms, v0).v > 0.0
    ensures |ms| > 1 ==> Filtered(ms, v0).v < ms[|ms| - 1].r
  {
    var n := |ms| - 1;
    if n > 0 {
      NoisyUsable(ms[..n], v0);
      var c := Filtered(ms[..n], v0);
      StepInformation(c, ms[n].q, ms[n].r, ms[n].z);
    }
  }

  ghost predicate Between(ms: seq<Measurement>, lo: real, hi: real)
  {
    forall i :: 0 <= i < |ms| ==> lo <= ms[i].z <= hi
  }

  /** For any time steps and noises, the estimate stays in the range of the measurements seen. */
  lemma {:induction false} EstimateInRange(ms: seq<Measurement>, v0: real, lo: real, hi: real)
    requires Usable(ms, v0) && Between(ms, lo, hi)
    ensures lo <= Filtered(ms, v0).x <= hi
  {
    var n := |ms| - 1;
    if n > 0 {
      EstimateInRange(ms[..n], v0, lo, hi);
      StepStaysBetween(Filtered(ms[..n], v0), ms[n].q, ms[n].r, ms[n].z, lo, hi);
    }
  }

  /** The information after the seed and n updates without drift. */
  function Information(v0: real, r: real, n: nat): real
    requires v0 != 0.0 && r != 0.0
  {
    1.0 / v0 + n as real / r
  }

  /** Seed and measurements, each weighted by its precision. */
  function WeightedSum(zs: seq<real>, v0: real, r: real): real
    requires zs != [] && v0 != 0.0 && r != 0.0
  {
    zs[0] / v0 + Sum(zs[1..]) / r
  }

  /** Adding one measurement to a precision-weighted mean: v, x before; v', x' after. */
  lemma InformationStep(v: real, x: real, r: real, z: real, v': real, x': real, j: real, w: real)
    requires v > 0.0 && r > 0.0 && v' > 0.0
    requires Times(v, j) == 1.0 && Times(j, x) == w
    requires Times(v', v + r) == Times(v, r) && Times(x', v + r) == Times(x, r) + Times(z, v)
    ensures Times(v', j + 1.0 / r) == 1.0
    ensures Times(j + 1.0 / r, x') == w + z / r
  {
    hide Times;
    var u := 1.0 / r;
    DivTimes(1.0, r);
    // The new information times v r is v + r.
    var m := Times(v, r);
    TimesSigns(v, r);
    TimesPlus(m, j, u);
    ThreeFactors(v, j, r);
    ThreeFactors(r, u, v);
    TimesOne(r);
    TimesOne(v);
    TimesPlus(r, v, 0.0);
    TimesPlus(u, r, 0.0);
    assert Times(j + u, m) == v + r;
    CancelLeft(Times(v', j + u), 1.0, m, v', j + u, v + r);
    ThreeFactors(j + u, x', m);
    assert Times(Times(j + u, x'), m) == Times(x', v + r);
    ZOverR(z, r, u);
    TimesPlus(m, w, Times(z, u));
    FourFactors(j, x, v, r);
    FourFactors(u, z, r, v);
    TimesPlus(u, z, 0.0);
    TimesPlus(j, v, 0.0);
    TimesOne(Times(x, r));
    TimesOne(Times(z, v));
    assert Times(w + Times(z, u), m) == Times(x, r) + Times(z, v);
    Cancel(Times(j + u, x'), w + Times(z, u), m);
  }

  lemma ThreeFactors(a: real, b: real, c: real)
    ensures Times(b, Times(a, c)) == Times(Times(a, b), c)
  {
  }

  lemma FourFactors(a: real, b: real, c: real, d: real)
    ensures Times(Times(a, b), Times(c, d)) == Times(Times(a, c), Times(b, d))
  {
  }

  lemma ZOverR(z: real, r: real, u: real)
    requires r != 0.0 && u == 1.0 / r
    ensures z / r == Times(z, u)
  {
  }

  lemma Cancel(a: real, b: real, m: real)
    requires m > 0.0 && Times(a, m) == Times(b, m)
    ensures a == b
  {
    assert (a - b) * m == a * m - b * m;
  }

  lemma CancelLeft(a: real, b: real, m: real, v: real, j: real, s: real)
    requires m > 0.0 && a == Times(v, j) && b == 1.0 && Times(j, m) == s && Times(v, s) == m
    ensures a == b
  {
    assert Times(a, m) == Times(v, Times(j, m));
    TimesOne(m);
    Cancel(a, b, m);
  }

  /** Measurements with the same noise and no drift in between. */
  function Steady(zs: seq<real>, r: real): (ms: seq<Measurement>)
    ensures |ms| == |zs| && forall i :: 0 <= i < |zs| ==> ms[i] == Measurement(zs[i], 0.0, r)
  {
    seq(|zs|, (i: nat) requires i < |zs| => Measurement(zs[i], 0.0, r))
  }

  /** Without drift, n updates give the variance 1 / (1 / v0 + n / r) and the precision-weighted mean of the seed
      and all measurements. */
  lemma {:induction false} FilterIsBatch(zs: seq<real>, v0: real, r: real)
    requires zs != [] && v0 > 0.0 && r > 0.0
    ensures Usable(Steady(zs, r), v0)
    ensures var c := Filtered(Steady(zs, r), v0); var n := |zs| - 1;
      && c.v > 0.0 && Times(c.v, Information(v0, r, n)) == 1.0
      && Times(Information(v0, r, n), c.x) == WeightedSum(zs, v0, r)
  {
    var n := |zs| - 1;
    NoisyUsable(Steady(zs, r), v0);
    if n == 0 {
      Seeded(zs, v0, r);
    } else {
      var t := zs[..n];
      FilterIsBatch(t, v0, r);
      var c := Filtered(Steady(t, r), v0);
      StepInformation(c, 0.0, r, zs[n]);
      assert Steady(zs, r)[..n] == Steady(t, r);
      var c' := Filtered(Steady(zs, r), v0);
      assert c' == Step(c, 0.0, r, zs[n] - c.x);
      InformationStep(c.v, c.x, r, zs[n], c'.v, c'.x, Information(v0, r, n - 1), WeightedSum(t, v0, r));
      InformationNext(zs, v0, r);
    }
  }

  lemma Seeded(zs: seq<real>, v0: real, r: real)
    requires |zs| == 1 && v0 > 0.0 && r > 0.0
    ensures Times(v0, Information(v0, r, 0)) == 1.0
    ensures Times(Information(v0, r, 0), zs[0]) == WeightedSum(zs, v0, r)
  {
    assert Sum(zs[1..]) == 0.0;
    DivTimes(1.0, v0);
    ZOverR(zs[0], v0, 1.0 / v0);
  }

  lemma InformationNext(zs: seq<real>, v0: real, r: real)
    requires |zs| >= 2 && v0 > 0.0 && r > 0.0
    ensures var n := |zs| - 1;
      && Information(v0, r, n) == Information(v0, r, n - 1) + 1.0 / r
      && WeightedSum(zs, v0, r) == WeightedSum(zs[..n], v0, r) + zs[n] / r
  {
    var n := |zs| - 1;
    assert zs[1..][..n - 1] == zs[..n][1..];
    QuotientSum((n - 1) as real, 1.0, r);
    QuotientSum(Sum(zs[..n][1..]), zs[n], r);
  }

  lemma QuotientSum(a: real, b: real, r: real)
    requires r != 0.0
    ensures (a + b) / r == a / r + b / r
  {
  }

  // ----- the filter -----

  /** How much the variance grows in dt seconds. */
  function Drift(sigma: real, dt: real): (q: real)
    requires dt >= 0.0
    ensures q >= 0.0
  {
    SquareTimes(sigma, dt);
    sigma * sigma * dt
  }

  /** The variance of a measurement. */
  function Noise(sigma: real): (r: real)
    ensures r >= 0.0
    ensures sigma != 0.0 ==> r > 0.0
  {
    if sigma == 0.0 then
      TimesZero(0.0);
      Times(sigma, sigma)
    else
      SquarePositive(sigma);
      Times(sigma, sigma)
  }

  lemma SquareTimes(a: real, t: real)
    requires t >= 0.0
    ensures a * a * t >= 0.0
  {
    SquareNonNegative(a);
    TimesSigns(a * a, t);
  }

  lemma SquareNonNegative(a: real)
    ensures a * a >= 0.0
  {
    if a >= 0.0 {
      TimesSigns(a, a);
    } else {
      TimesSigns(-a, -a);
    }
  }

  lemma SquarePositive(a: real)
    requires a != 0.0
    ensures Times(a, a) > 0.0
  {
    var m := if a > 0.0 then a else -a;
    TimesSigns(m, m);
    assert a * a == m * m;
  }

  function Magnitude(v: real): (r: real)
    ensures r >= 0.0 && (r == v || r == -v)
  {
    if v < 0.0 then -v else v
  }

  function SquaredLength(x: real, y: real, z: real): (r: real)
  {
    x * x + y * y + z * z
  }

  ghost predicate Tracks(ms: seq<Measurement>, v0: real, c: Component)
  {
    Usable(ms, v0) && Filtered(ms, v0) == c
  }

  /** The measurements of the four components. */
  datatype Seen = Seen(yaw: seq<Measurement>, x: seq<Measurement>, y: seq<Measurement>, z: seq<Measurement>)

  const NOTHING_SEEN := Seen([], [], [], [])

  function SeenAlso(s: Seen, yaw: Measurement, x: Measurement, y: Measurement, z: Measurement): Seen
  {
    Seen(s.yaw + [yaw], s.x + [x], s.y + [y], s.z + [z])
  }

  /** Four components that are what filtering the measurements gives. */
  ghost predicate AllTrack(s: Seen, yaw: Component, x: Component, y: Component, z: Component)
  {
    Tracks(s.yaw, INITIAL_PYAW, yaw) && Tracks(s.x, INITIAL_PPOS, x) && Tracks(s.y, INITIAL_PPOS, y) && Tracks(s.z, INITIAL_PPOS, z)
  }

  lemma SeedTracks(m: Measurement, v0: real)
    requires v0 > 0.0
    ensures Tracks([m], v0, Component(m.z, v0))
  {
  }

  lemma SeedsTrack(yaw: Measurement, x: Measurement, y: Measurement, z: Measurement)
    ensures AllTrack(SeenAlso(NOTHING_SEEN, yaw, x, y, z), Component(yaw.z, INITIAL_PYAW), Component(x.z, INITIAL_PPOS),
                     Component(y.z, INITIAL_PPOS), Component(z.z, INITIAL_PPOS))
  {
    hide Tracks;
    SeedTracks(yaw, INITIAL_PYAW);
    SeedTracks(x, INITIAL_PPOS);
    SeedTracks(y, INITIAL_PPOS);
    SeedTracks(z, INITIAL_PPOS);
    assert [] + [yaw] == [yaw] && [] + [x] == [x] && [] + [y] == [y] && [] + [z] == [z];
  }

  /** The filter's state; `wrap` stands for the wrapping of an angle difference, `sqrt` for the square root. `seen`
      lists the measurements since the last reset; the code does not keep them. A measured angle is listed as the
      old estimate plus the wrapped difference. */
  class State {
    var initialized: bool
    var yaw: real
    var tx: real
    var ty: real
    var tz: real
    var Pyaw: real
    var Px: real
    var Py: real
    var Pz: real
    ghost var seen: Seen

    /** The fields are what filtering the measurements gives. */
    ghost predicate Valid()
      reads this
    {
      if initialized then AllTrack(seen, Component(yaw, Pyaw), Component(tx, Px), Component(ty, Py), Component(tz, Pz))
      else seen == NOTHING_SEEN
    }

    /** Nothing measured: estimates zero, variances at their starting values. */
    ghost predicate Unseeded()
      reads this
    {
      && !initialized && yaw == tx == ty == tz == 0.0
      && Pyaw == INITIAL_PYAW && Px == Py == Pz == INITIAL_PPOS
    }

    constructor ()
      ensures Unseeded() && Valid()
    {
      initialized := false;
      yaw, tx, ty, tz := 0.0, 0.0, 0.0, 0.0;
      Pyaw, Px, Py, Pz := INITIAL_PYAW, INITIAL_PPOS, INITIAL_PPOS, INITIAL_PPOS;
      seen := NOTHING_SEEN;
    }

    /** Folds a measurement in; returns the magnitudes of the innovations. No denominator may be zero. */
    method Update(measYaw: real, measTx: real, measTy: real, measTz: real, dt0: real, wrap: real -> real, sqrt: real -> real,
                  processSigmaYaw: real, processSigmaPos: real, measSigmaYaw: real, measSigmaPos: real)
      returns (yawInnov: real, posInnov: real)
      requires Valid()
      requires initialized ==>
        var q, r := Drift(processSigmaPos, Elapsed(dt0)), Noise(measSigmaPos);
        && Pyaw + Drift(processSigmaYaw, Elapsed(dt0)) + Noise(measSigmaYaw) > 0.0
        && Px + q + r > 0.0 && Py + q + r > 0.0 && Pz + q + r > 0.0
      modifies this
      ensures initialized && Valid()
      ensures var q, r := Drift(processSigmaPos, Elapsed(dt0)), Noise(measSigmaPos);
        var z := if old(initialized) then old(yaw) + wrap(measYaw - old(yaw)) else measYaw;
        seen == SeenAlso(old(seen), Measurement(z, Drift(processSigmaYaw, Elapsed(dt0)), Noise(measSigmaYaw)),
                         Measurement(measTx, q, r), Measurement(measTy, q, r), Measurement(measTz, q, r))
      ensures !old(initialized) ==>
        && yaw == measYaw && Component(tx, Px) == Component(measTx, INITIAL_PPOS)
        && Component(ty, Py) == Component(measTy, INITIAL_PPOS) && Component(tz, Pz) == Component(measTz, INITIAL_PPOS)
        && Pyaw == INITIAL_PYAW && yawInnov == 0.0 && posInnov == 0.0
      ensures old(initialized) ==>
        && Shrunk(old(Px), Px, Noise(measSigmaPos)) && Shrunk(old(Py), Py, Noise(measSigmaPos))
        && Shrunk(old(Pz), Pz, Noise(measSigmaPos)) && Shrunk(old(Pyaw), Pyaw, Noise(measSigmaYaw))
      ensures old(initialized) ==>
        && yawInnov == Magnitude(wrap(measYaw - old(yaw)))
        && posInnov == sqrt(SquaredLength(measTx - old(tx), measTy - old(ty), measTz - old(tz)))
    {
      hide AllTrack, SeenAlso, Step, Times, Drift, Noise, Magnitude, SquaredLength, Elapsed, Shrunk;
      var dt := Elapsed(dt0);
      var my := Measurement(measYaw, Drift(processSigmaYaw, dt), Noise(measSigmaYaw));
      var mx := Measurement(measTx, Drift(processSigmaPos, dt), Noise(measSigmaPos));
      if !initialized {
        Seed(my, mx, mx.(z := measTy), mx.(z := measTz));
        return 0.0, 0.0;
      }
      var yYaw := wrap(measYaw - yaw);
      var yX, yY, yZ := measTx - tx, measTy - ty, measTz - tz;
      yawInnov := Magnitude(yYaw);
      posInnov := sqrt(SquaredLength(yX, yY, yZ));
      StepAll(my.(z := yaw + yYaw), mx, mx.(z := measTy), mx.(z := measTz));
    }

    /** Takes the first measurement over. */
    method Seed(my: Measurement, mx: Measurement, mY: Measurement, mz: Measurement)
      requires Valid() && !initialized
      modifies this
      ensures initialized && Valid() && seen == SeenAlso(old(seen), my, mx, mY, mz)
      ensures yaw == my.z && tx == mx.z && ty == mY.z && tz == mz.z
      ensures Pyaw == INITIAL_PYAW && Px == Py == Pz == INITIAL_PPOS
    {
      hide AllTrack, SeenAlso;
      SeedsTrack(my, mx, mY, mz);
      yaw, tx, ty, tz := my.z, mx.z, mY.z, mz.z;
      Pyaw, Px, Py, Pz := INITIAL_PYAW, INITIAL_PPOS, INITIAL_PPOS, INITIAL_PPOS;
      initialized := true;
      seen := SeenAlso(seen, my, mx, mY, mz);
    }

    /** One step of each component. */
    method StepAll(my: Measurement, mx: Measurement, mY: Measurement, mz: Measurement)
      requires Valid() && initialized
      requires my.q >= 0.0 && my.r >= 0.0 && Pyaw + my.q + my.r > 0.0 && mx.q >= 0.0 && mx.r >= 0.0 && Px + mx.q + mx.r > 0.0
      requires mY.q >= 0.0 && mY.r >= 0.0 && Py + mY.q + mY.r > 0.0 && mz.q >= 0.0 && mz.r >= 0.0 && Pz + mz.q + mz.r > 0.0
      modifies this
      ensures initialized && Valid() && seen == SeenAlso(old(seen), my, mx, mY, mz)
      ensures Shrunk(old(Pyaw), Pyaw, my.r) && Shrunk(old(Px), Px, mx.r)
      ensures Shrunk(old(Py), Py, mY.r) && Shrunk(old(Pz), Pz, mz.r)
    {
      hide AllTrack, SeenAlso, Step, Times, Shrunk;
      StepsTrack(seen, Component(yaw, Pyaw), Component(tx, Px), Component(ty, Py), Component(tz, Pz), my, mx, mY, mz);
      yaw, Pyaw := Moved(yaw, Pyaw, my.q, my.r, my.z - yaw);
      tx, Px := Moved(tx, Px, mx.q, mx.r, mx.z - tx);
      ty, Py := Moved(ty, Py, mY.q, mY.r, mY.z - ty);
      tz, Pz := Moved(tz, Pz, mz.q, mz.r, mz.z - tz);
      seen := SeenAlso(seen, my, mx, mY, mz);
    }

    method Reset()
      modifies this
      ensures Unseeded() && Valid()
    {
      hide AllTrack;
      initialized := false;
      yaw, tx, ty, tz := 0.0, 0.0, 0.0, 0.0;
      Pyaw, Px, Py, Pz := INITIAL_PYAW, INITIAL_PPOS, INITIAL_PPOS, INITIAL_PPOS;
      seen := NOTHING_SEEN;
    }
  }

  /** Time never runs backwards. */
  function Elapsed(dt: real): (r: real)
    ensures r >= 0.0
  {
    if dt < 0.0 then 0.0 else dt
  }

  /** The variance v' behind an update does not exceed the noise, and from a positive one it stays strictly between
      zero and positive noise. */
  predicate Shrunk(v: real, v': real, r: real)
  {
    0.0 <= v' <= r && (v > 0.0 && r > 0.0 ==> 0.0 < v' < r)
  }

  /** The gain of one component, then its new estimate and variance. */
  method Moved(x: real, v: real, q: real, r: real, innovation: real) returns (x': real, v': real)
    requires v >= 0.0 && q >= 0.0 && r >= 0.0 && v + q + r > 0.0
    ensures Component(x', v') == Step(Component(x, v), q, r, innovation)
    ensures Shrunk(v, v', r)
  {
    var pred := v + q;
    var k := pred / (pred + r);
    x' := x + Times(k, innovation);
    v' := Times(1.0 - k, pred);
    StepVariance(Component(x, v), q, r, innovation);
    if pred > 0.0 && r > 0.0 {
      StepInformation(Component(x, v), q, r, x + innovation);
    }
  }

  lemma StepTracks(ms: seq<Measurement>, v0: real, c: Component, m: Measurement)
    requires Tracks(ms, v0, c) && m.q >= 0.0 && m.r >= 0.0 && c.v + m.q + m.r > 0.0
    ensures c.v >= 0.0 && Tracks(ms + [m], v0, Step(c, m.q, m.r, m.z - c.x))
  {
    hide Step;
    assert (ms + [m])[..|ms|] == ms;
  }

  lemma StepsTrack(s: Seen, yaw: Component, x: Component, y: Component, z: Component,
                   my: Measurement, mx: Measurement, mY: Measurement, mz: Measurement)
    requires AllTrack(s, yaw, x, y, z)
    requires my.q >= 0.0 && my.r >= 0.0 && yaw.v + my.q + my.r > 0.0
    requires mx.q >= 0.0 && mx.r >= 0.0 && x.v + mx.q + mx.r > 0.0
    requires mY.q >= 0.0 && mY.r >= 0.0 && y.v + mY.q + mY.r > 0.0
    requires mz.q >= 0.0 && mz.r >= 0.0 && z.v + mz.q + mz.r > 0.0
    ensures yaw.v >= 0.0 && x.v >= 0.0 && y.v >= 0.0 && z.v >= 0.0
    ensures AllTrack(SeenAlso(s, my, mx, mY, mz), Step(yaw, my.q, my.r, my.z - yaw.x), Step(x, mx.q, mx.r, mx.z - x.x),
                     Step(y, mY.q, mY.r, mY.z - y.x), Step(z, mz.q, mz.r, mz.z - z.x))
  {
    hide Tracks, Step;
    StepTracks(s.yaw, INITIAL_PYAW, yaw, my);
    StepTracks(s.x, INITIAL_PPOS, x, mx);
    StepTracks(s.y, INITIAL_PPOS, y, mY);
    StepTracks(s.z, INITIAL_PPOS, z, mz);
  }
}
