/** The two-sided Page-Hinkley change detector, over exact reals. */
module PageHinkley {
  import opened RealMath

  datatype Params = Params(alpha: real, delta: real, lambda: real, oneSidedPositive: bool)

  // ----- definitions over the whole history -----

  /** The exponentially weighted reference after the samples; the first one seeds it. */
  function Mean(p: Params, xs: seq<real>): real
    requires xs != []
  {
    var x := xs[|xs| - 1];
    if |xs| == 1 then x else Times(1.0 - p.alpha, Mean(p, xs[..|xs| - 1])) + Times(p.alpha, x)
  }

  /** Deviation of each sample from the reference at its time. */
  function Deviations(p: Params, xs: seq<real>): (d: seq<real>)
    ensures |d| == |xs|
  {
    if xs == [] then [] else Deviations(p, xs[..|xs| - 1]) + [xs[|xs| - 1] - Mean(p, xs)]
  }

  /** The deviations upwards beyond the slack. */
  function Upward(p: Params, xs: seq<real>): (d: seq<real>)
    ensures |d| == |xs|
  {
    seq(|xs|, (i: nat) requires i < |xs| => Deviations(p, xs)[i] - p.delta)
  }

  function Downward(p: Params, xs: seq<real>): (d: seq<real>)
    ensures |d| == |xs|
  {
    seq(|xs|, (i: nat) requires i < |xs| => -Deviations(p, xs)[i] - p.delta)
  }

  /** The sum of all values from number k on. */
  function SuffixSum(v: seq<real>, k: nat): real
    requires k <= |v|
  {
    if k == |v| then 0.0 else SuffixSum(v[..|v| - 1], k) + v[|v| - 1]
  }

  /** m is the largest of all suffix sums; the empty suffix has sum 0. */
  ghost predicate LargestSuffix(v: seq<real>, m: real)
  {
    && (forall k :: 0 <= k <= |v| ==> SuffixSum(v, k) <= m)
    && (exists k :: 0 <= k <= |v| && SuffixSum(v, k) == m)
  }

  /** The signal has drifted: a suffix sum is above the threshold. */
  ghost predicate Drifted(p: Params, v: seq<real>)
  {
    exists k :: 0 <= k <= |v| && SuffixSum(v, k) > p.lambda
  }

  ghost predicate Alarm(p: Params, xs: seq<real>)
  {
    Drifted(p, Upward(p, xs)) || (!p.oneSidedPositive && Drifted(p, Downward(p, xs)))
  }

  // ----- the streaming form -----

  datatype Detector = Detector(mean: real, phPos: real, phNeg: real, initialized: bool, triggered: bool, triggeredPositive: bool)

  const CLEAR := Detector(0.0, 0.0, 0.0, false, false, false)

  function Clip(v: real): real
  {
    if v > 0.0 then v else 0.0
  }

  function Updated(s: Detector, p: Params, x: real): (Detector, bool)
  {
    var mean := if s.initialized then Times(1.0 - p.alpha, s.mean) + Times(p.alpha, x) else x;
    var dev := x - mean;
    var phPos := Clip(s.phPos + (dev - p.delta));
    var phNeg := if p.oneSidedPositive then s.phNeg else Clip(s.phNeg - (dev + p.delta));
    if !s.triggered && phPos > p.lambda then (Detector(mean, phPos, phNeg, true, true, true), true)
    else if !s.triggered && !p.oneSidedPositive && phNeg > p.lambda then (Detector(mean, phPos, phNeg, true, true, false), true)
    else (Detector(mean, phPos, phNeg, true, s.triggered, s.triggeredPositive), false)
  }

  /** The detector behind the samples since the last reset. */
  function Fold(p: Params, xs: seq<real>): Detector
  {
    if xs == [] then CLEAR else Updated(Fold(p, xs[..|xs| - 1]), p, xs[|xs| - 1]).0
  }

  /** Whether the update with the last sample reported a change. */
  function Fired(p: Params, xs: seq<real>): bool
    requires xs != []
  {
    Updated(Fold(p, xs[..|xs| - 1]), p, xs[|xs| - 1]).1
  }

  // ----- they agree -----

  lemma SuffixAppend(v: seq<real>, d: real, k: nat)
    requires k <= |v|
    ensures SuffixSum(v + [d], k) == SuffixSum(v, k) + d
  {
    assert (v + [d])[..|v + [d]| - 1] == v;
  }

  /** One more value: the largest suffix sum grows by it, but not below zero. */
  lemma LargestSuffixStep(v: seq<real>, m: real, d: real)
    requires LargestSuffix(v, m)
    ensures LargestSuffix(v + [d], Clip(m + d))
  {
    var w := v + [d];
    assert SuffixSum(w, |w|) == 0.0;
    forall k | 0 <= k <= |w| ensures SuffixSum(w, k) <= Clip(m + d) {
      if k <= |v| {
        SuffixAppend(v, d, k);
      }
    }
    var k :| 0 <= k <= |v| && SuffixSum(v, k) == m;
    SuffixAppend(v, d, k);
    if m + d <= 0.0 {
      assert SuffixSum(w, |w|) == Clip(m + d);
    } else {
      assert SuffixSum(w, k) == Clip(m + d);
    }
  }

  /** Each deviation is decided when its sample arrives. */
  lemma DeviationsAppend(p: Params, xs: seq<real>, x: real)
    ensures Deviations(p, xs + [x]) == Deviations(p, xs) + [x - Mean(p, xs + [x])]
    ensures Upward(p, xs + [x]) == Upward(p, xs) + [x - Mean(p, xs + [x]) - p.delta]
    ensures Downward(p, xs + [x]) == Downward(p, xs) + [-(x - Mean(p, xs + [x])) - p.delta]
  {
    assert (xs + [x])[..|xs + [x]| - 1] == xs;
  }

  /** After any samples, the accumulators are the largest suffix sums of the deviations beyond the slack. */
  lemma {:induction false} AccumulatorsAreSuffixSums(p: Params, xs: seq<real>)
    ensures Fold(p, xs).initialized == (xs != [])
    ensures xs != [] ==> Fold(p, xs).mean == Mean(p, xs)
    ensures LargestSuffix(Upward(p, xs), Fold(p, xs).phPos)
    ensures !p.oneSidedPositive ==> LargestSuffix(Downward(p, xs), Fold(p, xs).phNeg)
    ensures p.oneSidedPositive ==> Fold(p, xs).phNeg == 0.0
  {
    hide Times, Upward, Downward, LargestSuffix, Mean, Fold;
    if xs == [] {
      NothingSeen(p);
    } else {
      var t, x := xs[..|xs| - 1], xs[|xs| - 1];
      assert xs == t + [x];
      AccumulatorsAreSuffixSums(p, t);
      UpwardStep(p, t, x);
      if !p.oneSidedPositive {
        DownwardStep(p, t, x);
      } else {
        FoldParts(p, t, x);
      }
    }
  }

  /** How one more sample changes the detector. */
  lemma FoldParts(p: Params, t: seq<real>, x: real)
    requires Fold(p, t).initialized == (t != []) && (t != [] ==> Fold(p, t).mean == Mean(p, t))
    ensures var s, r, dev := Fold(p, t), Fold(p, t + [x]), x - Mean(p, t + [x]);
      && r.initialized && r.mean == Mean(p, t + [x]) && r.phPos == Clip(s.phPos + (dev - p.delta))
      && r.phNeg == if p.oneSidedPositive then s.phNeg else Clip(s.phNeg + (-dev - p.delta))
  {
    hide Times, Mean, Fold, Updated, Clip;
    MeanStep(p, t, x);
    FoldStep(p, t, x);
    UpdatedParts(Fold(p, t), p, x);
  }

  lemma UpwardStep(p: Params, t: seq<real>, x: real)
    requires Fold(p, t).initialized == (t != []) && (t != [] ==> Fold(p, t).mean == Mean(p, t))
    requires LargestSuffix(Upward(p, t), Fold(p, t).phPos)
    ensures LargestSuffix(Upward(p, t + [x]), Fold(p, t + [x]).phPos)
    ensures Fold(p, t + [x]).initialized && Fold(p, t + [x]).mean == Mean(p, t + [x])
  {
    hide Upward, Downward, Deviations, LargestSuffix, Mean, Fold, Clip;
    FoldParts(p, t, x);
    DeviationsAppend(p, t, x);
    LargestSuffixStep(Upward(p, t), Fold(p, t).phPos, x - Mean(p, t + [x]) - p.delta);
  }

  lemma DownwardStep(p: Params, t: seq<real>, x: real)
    requires Fold(p, t).initialized == (t != []) && (t != [] ==> Fold(p, t).mean == Mean(p, t))
    requires !p.oneSidedPositive && LargestSuffix(Downward(p, t), Fold(p, t).phNeg)
    ensures LargestSuffix(Downward(p, t + [x]), Fold(p, t + [x]).phNeg)
  {
    hide Upward, Downward, Deviations, LargestSuffix, Mean, Fold, Clip;
    FoldParts(p, t, x);
    DeviationsAppend(p, t, x);
    LargestSuffixStep(Downward(p, t), Fold(p, t).phNeg, -(x - Mean(p, t + [x])) - p.delta);
  }

  lemma NothingSeen(p: Params)
    ensures Fold(p, []) == CLEAR
    ensures LargestSuffix(Upward(p, []), 0.0) && LargestSuffix(Downward(p, []), 0.0)
  {
    assert SuffixSum(Upward(p, []), 0) == 0.0;
    assert SuffixSum(Downward(p, []), 0) == 0.0;
  }

  lemma FoldStep(p: Params, t: seq<real>, x: real)
    ensures Fold(p, t + [x]) == Updated(Fold(p, t), p, x).0
    ensures Fired(p, t + [x]) == Updated(Fold(p, t), p, x).1
  {
    hide Updated;
    assert (t + [x])[..|t + [x]| - 1] == t;
  }

  lemma UpdatedParts(s: Detector, p: Params, x: real)
    ensures var (r, _) := Updated(s, p, x);
      var mean := if s.initialized then Times(1.0 - p.alpha, s.mean) + Times(p.alpha, x) else x;
      && r.initialized && r.mean == mean && r.phPos == Clip(s.phPos + (x - mean - p.delta))
      && r.phNeg == if p.oneSidedPositive then s.phNeg else Clip(s.phNeg + (-(x - mean) - p.delta))
  {
    hide Times;
  }

  lemma MeanStep(p: Params, t: seq<real>, x: real)
    ensures Mean(p, t + [x]) == if t == [] then x else Times(1.0 - p.alpha, Mean(p, t)) + Times(p.alpha, x)
  {
    assert (t + [x])[..|t + [x]| - 1] == t;
  }

  lemma DriftIsLargest(p: Params, v: seq<real>, m: real)
    requires LargestSuffix(v, m)
    ensures Drifted(p, v) <==> m > p.lambda
  {
  }

  /** The tests of the detector are the alarm over the whole history. */
  lemma AlarmIsThreshold(p: Params, xs: seq<real>)
    ensures Alarm(p, xs) <==> Fold(p, xs).phPos > p.lambda || (!p.oneSidedPositive && Fold(p, xs).phNeg > p.lambda)
  {
    AccumulatorsAreSuffixSums(p, xs);
    DriftIsLargest(p, Upward(p, xs), Fold(p, xs).phPos);
    if !p.oneSidedPositive {
      DriftIsLargest(p, Downward(p, xs), Fold(p, xs).phNeg);
    }
  }

  /** The first n samples raise no alarm. */
  ghost predicate QuietUpTo(p: Params, xs: seq<real>, n: nat)
    requires n <= |xs|
  {
    forall i :: 1 <= i <= n ==> !Alarm(p, xs[..i])
  }

  /** The detector has triggered exactly when some prefix raised an alarm. */
  lemma {:induction false} TriggeredIsPast(p: Params, xs: seq<real>)
    ensures Fold(p, xs).triggered <==> !QuietUpTo(p, xs, |xs|)
  {
    if xs != [] {
      var t := xs[..|xs| - 1];
      TriggeredIsPast(p, t);
      AlarmIsThreshold(p, xs);
      hide Alarm, Mean;
      assert xs[..|xs|] == xs;
      forall i | 1 <= i <= |t| ensures t[..i] == xs[..i] {
      }
      assert Fold(p, xs).triggered <==> Fold(p, t).triggered || Alarm(p, xs);
    }
  }

  /** Update reports a change exactly at the first sample whose history raises an alarm, and never again. */
  lemma FiresOnce(p: Params, xs: seq<real>)
    requires xs != []
    ensures Fired(p, xs) <==> Alarm(p, xs) && QuietUpTo(p, xs, |xs| - 1)
  {
    var t := xs[..|xs| - 1];
    TriggeredIsPast(p, t);
    AlarmIsThreshold(p, xs);
    hide Alarm, Mean;
    forall i | 1 <= i <= |t| ensures t[..i] == xs[..i] {
    }
    assert Fold(p, t).triggered <==> !QuietUpTo(p, xs, |xs| - 1);
  }

  /** When it fires, it remembers the upward direction exactly if the upward drift is above the threshold. */
  lemma FiresWithDirection(p: Params, xs: seq<real>)
    requires xs != [] && Fired(p, xs)
    ensures Fold(p, xs).triggeredPositive <==> Drifted(p, Upward(p, xs))
  {
    AccumulatorsAreSuffixSums(p, xs);
    DriftIsLargest(p, Upward(p, xs), Fold(p, xs).phPos);
  }

  /** The detector. `seen` lists the samples since the last reset; the code does not keep it. */
  class PageHinkleyState {
    var mean: real
    var ph_pos: real
    var ph_neg: real
    var initialized: bool
    var triggered: bool
    var triggered_positive: bool
    ghost var seen: seq<real>
    const p: Params

    function State(): Detector
      reads this
    {
      Detector(mean, ph_pos, ph_neg, initialized, triggered, triggered_positive)
    }

    ghost predicate Valid()
      reads this
    {
      State() == Fold(p, seen)
    }

    constructor (p: Params)
      ensures Valid() && seen == [] && this.p == p
    {
      this.p := p;
      mean, ph_pos, ph_neg := 0.0, 0.0, 0.0;
      initialized, triggered, triggered_positive, seen := false, false, false, [];
    }

    method PageHinkleyUpdate(x: real) returns (changed: bool)
      requires Valid()
      modifies this
      ensures Valid() && seen == old(seen) + [x]
      ensures changed <==> Alarm(p, seen) && QuietUpTo(p, seen, |seen| - 1)
    {
      hide Alarm, QuietUpTo, Fold, Mean, Times, Clip;
      ghost var before := State();
      FoldStep(p, seen, x);
      if !initialized {
        mean := x;
        initialized := true;
      } else {
        mean := Times(1.0 - p.alpha, mean) + Times(p.alpha, x);
      }
      var dev := x - mean;
      ph_pos := Clip(ph_pos + (dev - p.delta));
      if !p.oneSidedPositive {
        ph_neg := Clip(ph_neg - (dev + p.delta));
      }
      changed := false;
      if !triggered {
        if ph_pos > p.lambda {
          triggered := true;
          triggered_positive := true;
          changed := true;
        } else if !p.oneSidedPositive && ph_neg > p.lambda {
          triggered := true;
          triggered_positive := false;
          changed := true;
        }
      }
      assert (State(), changed) == Updated(before, p, x);
      seen := seen + [x];
      FiresOnce(p, seen);
    }

    method PageHinkleyReset()
      modifies this
      ensures Valid() && seen == []
    {
      mean, ph_pos, ph_neg := 0.0, 0.0, 0.0;
      initialized, triggered, triggered_positive, seen := false, false, false, [];
    }
  }
}
