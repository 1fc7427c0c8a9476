/** How fast a device blends: which speed a distance selects, how motion opens the gate, and how far a frame goes. */
module BlendLaws {
  import opened RealMath
  import opened Isometry
  import opened Blend

  // ----- the speed -----

  /** The norm is the Euclidean length. */
  lemma NormIsLength(num: Numerics, v: Vec)
    requires RootsRight(num)
    ensures Norm(num, v) >= 0.0 && Norm(num, v) * Norm(num, v) == v.x * v.x + v.y * v.y + v.z * v.z
  {
    SumOfSquares(v.x, v.y, v.z);
  }

  lemma SumOfSquares(a: real, b: real, c: real)
    ensures a * a + b * b + c * c >= 0.0
  {
    Square(a);
    Square(b);
    Square(c);
  }

  lemma Square(a: real)
    ensures a * a >= 0.0
  {
    if a < 0.0 {
      TimesSigns(-a, -a);
    } else {
      TimesSigns(a, a);
    }
  }

  /** How far apart two transforms put a device, and by what angle. */
  function Gap(num: Numerics, pose: IsoTransform, src: IsoTransform, target: IsoTransform): real
  {
    Norm(num, Sub(Act(src, pose.translation), Act(target, pose.translation)))
  }

  function Turned(num: Numerics, pose: IsoTransform, src: IsoTransform, target: IsoTransform): real
  {
    num.angularDistance(Normalized(num, Mul(src.rotation, pose.rotation)), Normalized(num, Mul(target.rotation, pose.rotation)))
  }

  /** The tiny speed while both gaps are within the small thresholds. Beyond them the large speed if a gap is beyond
      its large threshold, and then until both are small again; the small speed otherwise. */
  lemma SpeedSelected(num: Numerics, params: SpeedParams, prior: DeltaSize, pose: IsoTransform, src: IsoTransform,
                      target: IsoTransform)
    requires params.transSmall <= params.transLarge && params.rotSmall <= params.rotLarge
    ensures var d, a := Gap(num, pose, src, target), Turned(num, pose, src, target);
      var chosen := GetTransformDeltaSize(num, params, prior, pose, src, target);
      && (chosen == TINY <==> d <= params.transSmall && a <= params.rotSmall)
      && (chosen == LARGE <==> chosen != TINY && (prior == LARGE || d > params.transLarge || a > params.rotLarge))
      && GetTransformRate(params, chosen)
         == (if d <= params.transSmall && a <= params.rotSmall then params.speedTiny
             else if prior == LARGE || d > params.transLarge || a > params.rotLarge then params.speedLarge
             else params.speedSmall)
  {
    hide Norm, Normalized, Mul, Rotate;
  }

  // ----- the gate -----

  /** The gate is fully open from 5 mm or 0.0175 rad of motion since the last frame; below, the larger of the two
      shares opens it. */
  lemma GateOpens(num: Numerics, d: DeviceTransform, pose: IsoTransform)
    ensures var moved := Norm(num, Sub(pose.translation, d.lastBlendWorldPos));
      var turned := num.angularDistance(pose.rotation, d.lastBlendWorldRot); var gate := MotionGate(num, d, pose);
      && (gate == 1.0 <==> moved >= 0.005 || turned >= 0.0175)
      && (gate < 1.0 ==> gate * 0.005 >= moved && gate * 0.0175 >= turned && (gate * 0.005 == moved || gate * 0.0175 == turned))
  {
    hide Norm;
  }

  /** A motionless device still gets a tenth for a correction up to 1 mm and 0.05 degrees, nine tenths for one above 5 mm
      or 0.5 degrees, half for the others. */
  lemma FloorSelected(num: Numerics, d: DeviceTransform)
    ensures var gap := Norm(num, Sub(d.targetTransform.translation, d.transform.translation));
      var angle := num.angularDistance(d.targetTransform.rotation, d.transform.rotation) * 180.0 / 3.14159265358979323846;
      RegimeFloor(num, d) == (if gap > 0.005 || angle > 0.5 then 0.9 else if gap <= 0.001 && angle <= 0.05 then 0.1 else 0.5)
  {
    hide Norm;
  }

  /** Motion is measured from frame to frame: behind a frame with the gate on, the gate is fully open for a pose that is
      5 mm or 0.0175 rad away from that frame's pose. Time is measured from it, too. */
  lemma GateMeasuresFrame(num: Numerics, params: SpeedParams, freq: int, d: DeviceTransform, pose: IsoTransform, now: int,
                          next: IsoTransform)
    requires freq > 0 && d.recalibrateOnMovement
    ensures var d' := Frame(num, params, freq, d, pose, now);
      && d'.lastPoll == now && d'.blendMotionInitialized && d'.recalibrateOnMovement
      && (MotionGate(num, d', next) == 1.0
          <==> (Norm(num, Sub(next.translation, pose.translation)) >= 0.005
                || num.angularDistance(next.rotation, pose.rotation) >= 0.0175))
  {
    hide GetTransformDeltaSize, InterpolateAround, Lerp, Norm, MotionGate;
    GateOpens(num, Frame(num, params, freq, d, pose, now), next);
  }

  // ----- the step -----

  /** The open share of the gate: all without it, nothing in the frame that seeds it, and else at least the floor. */
  lemma GateShare(num: Numerics, d: DeviceTransform, pose: IsoTransform)
    ensures var gate := EffectiveGate(num, d, pose);
      && (!d.recalibrateOnMovement ==> gate == 1.0)
      && (d.recalibrateOnMovement && !d.blendMotionInitialized ==> gate == 0.0)
      && (d.recalibrateOnMovement && d.blendMotionInitialized ==>
            gate >= MotionGate(num, d, pose) && gate >= RegimeFloor(num, d)
            && (gate == MotionGate(num, d, pose) || gate == RegimeFloor(num, d)))
  {
    hide MotionGate, RegimeFloor;
  }

  /** A frame goes rate times the open share per second of the way that is left, and never farther than all of it: with
      freq clock ticks a second, the step times freq is the ticks since the last frame times both, up to freq. */
  lemma StepOfFrame(num: Numerics, params: SpeedParams, freq: int, d: DeviceTransform, pose: IsoTransform, now: int)
    requires freq > 0 && now >= d.lastPoll && GetTransformRate(params, d.currentRate) >= 0.0
    requires EffectiveGate(num, d, pose) >= 0.0
    ensures var ticks := (now - d.lastPoll) as real; var l := Lerp(num, params, freq, d, pose, now);
      var way := Times(Times(ticks, GetTransformRate(params, d.currentRate)), EffectiveGate(num, d, pose));
      && (way >= freq as real ==> l == 1.0)
      && (way < freq as real ==> Times(freq as real, l) == way)
  {
    hide GetTransformRate, EffectiveGate, Times;
    var ticks, f := (now - d.lastPoll) as real, freq as real;
    var rate, gate := GetTransformRate(params, d.currentRate), EffectiveGate(num, d, pose);
    var whole := Times(Times(ticks / f, rate), gate);
    DivTimes(ticks, f);
    TimesPlus(ticks / f, f, 0.0);
    TimesAssoc(f, ticks / f, rate);
    TimesAssoc(f, Times(ticks / f, rate), gate);
    assert Times(f, whole) == Times(Times(ticks, rate), gate);
    Quotient(ticks, f);
    TimesSigns(ticks / f, rate);
    TimesSigns(Times(ticks / f, rate), gate);
    ClampRange(whole);
    TimesOne(f);
    if whole > 1.0 {
      StrictScale(f, 1.0, whole);
    } else if whole < 1.0 {
      StrictScale(f, whole, 1.0);
    }
  }

  lemma StrictScale(k: real, a: real, b: real)
    requires k > 0.0 && a < b
    ensures Times(k, a) < Times(k, b)
  {
    TimesSigns(k, b - a);
    TimesPlus(k, b - a, a);
  }

  /** Without the gate, a frame that comes a second after the last one goes the share of the way that the rate says. */
  lemma StepOfSecond(num: Numerics, params: SpeedParams, freq: int, d: DeviceTransform, pose: IsoTransform)
    requires freq > 0 && !d.recalibrateOnMovement && 0.0 <= GetTransformRate(params, d.currentRate) <= 1.0
    ensures Lerp(num, params, freq, d, pose, d.lastPoll + freq) == GetTransformRate(params, d.currentRate)
  {
    hide GetTransformRate, Times;
    var rate := GetTransformRate(params, d.currentRate);
    TimesOne(rate);
    TimesOne(freq as real);
    DivUnique(freq as real, freq as real, 1.0);
    ClampRange(rate);
  }
}
