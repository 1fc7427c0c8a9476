/** How a device's active transform moves towards its target: the rate, the motion gate and the blend step,
    over exact reals, and the law that repeated steps obey. */
module Blend {
  import opened Isometry
  import opened RealMath

  // ----- correction regimes -----

  datatype Regime = TinyRegime | NormalRegime | LargeRegime

  /** Large if either delta is large, tiny only if both are tiny. Millimetres and degrees. */
  function ClassifyCorrection(posDeltaMm: real, rotDeltaDeg: real): Regime
  {
    if posDeltaMm > 5.0 || rotDeltaDeg > 0.5 then LargeRegime
    else if posDeltaMm <= 1.0 && rotDeltaDeg <= 0.05 then TinyRegime
    else NormalRegime
  }

  /** The least share of the full rate that a motionless device gets. */
  function StillFloor(regime: Regime): real
  {
    match regime
    case TinyRegime => 0.10
    case NormalRegime => 0.50
    case LargeRegime => 0.90
  }

  /** A larger correction never gets a smaller floor, and no correction gets less than a tenth. */
  lemma FloorGrows(p: real, r: real, p': real, r': real)
    requires p <= p' && r <= r'
    ensures 0.1 <= StillFloor(ClassifyCorrection(p, r)) <= StillFloor(ClassifyCorrection(p', r')) < 1.0
  {
  }

  // ----- rates -----

  datatype DeltaSize = TINY | SMALL | LARGE

  function Level(d: DeltaSize): nat
  {
    match d case TINY => 0 case SMALL => 1 case LARGE => 2
  }

  function MaxDelta(a: DeltaSize, b: DeltaSize): DeltaSize
  {
    if Level(a) < Level(b) then b else a
  }

  datatype SpeedParams = SpeedParams(
    transSmall: real, transLarge: real, rotSmall: real, rotLarge: real,
    speedTiny: real, speedSmall: real, speedLarge: real)

  function Norm(num: Numerics, v: Vec): real
  {
    num.sqrt(v.x * v.x + v.y * v.y + v.z * v.z)
  }

  function Threshold(v: real, small: real, large: real): DeltaSize
  {
    if v > large then LARGE else if v > small then SMALL else TINY
  }

  /** How far the images of the device pose are apart. The level only falls back to TINY when both deltas are
      tiny; until then it never decreases. */
  function GetTransformDeltaSize(num: Numerics, params: SpeedParams, prior: DeltaSize, pose: IsoTransform,
                                 src: IsoTransform, target: IsoTransform): DeltaSize
  {
    var srcPose, targetPose := Compose(num, src, pose), Compose(num, target, pose);
    var trans := Threshold(Norm(num, Sub(srcPose.translation, targetPose.translation)), params.transSmall, params.transLarge);
    var rot := Threshold(num.angularDistance(srcPose.rotation, targetPose.rotation), params.rotSmall, params.rotLarge);
    if trans == TINY && rot == TINY then TINY else MaxDelta(prior, MaxDelta(trans, rot))
  }

  function GetTransformRate(params: SpeedParams, delta: DeltaSize): real
  {
    match delta
    case TINY => params.speedTiny
    case SMALL => params.speedSmall
    case LARGE => params.speedLarge
  }

  // ----- one step -----

  /** The part of a device slot that blending works on. Times are clock ticks. */
  datatype DeviceTransform = DeviceTransform(
    enabled: bool, quash: bool, prevQuash: bool, transform: IsoTransform, targetTransform: IsoTransform, scale: real,
    lastPoll: int, currentRate: DeltaSize, fallbackActive: bool, recalibrateOnMovement: bool,
    lastBlendWorldPos: Vec, lastBlendWorldRot: Quat, blendMotionInitialized: bool)

  const PI: real := 3.14159265358979323846

  function Max(a: real, b: real): real
  {
    if a < b then b else a
  }

  function Min(a: real, b: real): real
  {
    if b < a then b else a
  }

  /** 1 when the device moved at least 5 mm or about a degree since the last frame, less for less motion. */
  function MotionGate(num: Numerics, d: DeviceTransform, pose: IsoTransform): real
  {
    Min(1.0, Max(Norm(num, Sub(pose.translation, d.lastBlendWorldPos)) / 0.005,
                 num.angularDistance(pose.rotation, d.lastBlendWorldRot) / 0.0175))
  }

  function RegimeFloor(num: Numerics, d: DeviceTransform): real
  {
    StillFloor(ClassifyCorrection(Norm(num, Sub(d.targetTransform.translation, d.transform.translation)) * 1000.0,
                                  num.angularDistance(d.targetTransform.rotation, d.transform.rotation) * 180.0 / PI))
  }

  /** Time since the last poll in seconds, times the rate. */
  function TimedRate(params: SpeedParams, freq: int, d: DeviceTransform, now: int): real
    requires freq > 0
  {
    Times((now - d.lastPoll) as real / freq as real, GetTransformRate(params, d.currentRate))
  }

  /** The share of the timed rate that is used: all of it without the motion gate, none in the seeding frame. */
  function EffectiveGate(num: Numerics, d: DeviceTransform, pose: IsoTransform): real
  {
    if !d.recalibrateOnMovement then 1.0
    else if !d.blendMotionInitialized then 0.0
    else Max(MotionGate(num, d, pose), RegimeFloor(num, d))
  }

  function Clamp(lerp: real): real
  {
    var l := if lerp > 1.0 then 1.0 else lerp;
    if l < 0.0 then 0.0 else l
  }

  /** The blend step. */
  function Lerp(num: Numerics, params: SpeedParams, freq: int, d: DeviceTransform, pose: IsoTransform, now: int): real
    requires freq > 0
  {
    Clamp(Times(TimedRate(params, freq, d, now), EffectiveGate(num, d, pose)))
  }

  function Blended(num: Numerics, params: SpeedParams, freq: int, d: DeviceTransform, pose: IsoTransform, now: int): DeviceTransform
    requires freq > 0
  {
    d.(lastPoll := now,
       transform := InterpolateAround(num, d.transform, Lerp(num, params, freq, d, pose, now), d.targetTransform, pose.translation),
       lastBlendWorldPos := if d.recalibrateOnMovement then pose.translation else d.lastBlendWorldPos,
       lastBlendWorldRot := if d.recalibrateOnMovement then pose.rotation else d.lastBlendWorldRot,
       blendMotionInitialized := d.recalibrateOnMovement)
  }

  /** A frame of an enabled device: the level of the rate is chosen anew, then the transform is blended. */
  function Frame(num: Numerics, params: SpeedParams, freq: int, d: DeviceTransform, pose: IsoTransform, now: int): DeviceTransform
    requires freq > 0
  {
    Blended(num, params, freq, Chosen(num, params, d, pose), pose, now)
  }

  function Chosen(num: Numerics, params: SpeedParams, d: DeviceTransform, pose: IsoTransform): DeviceTransform
  {
    d.(currentRate := GetTransformDeltaSize(num, params, d.currentRate, pose, d.transform, d.targetTransform))
  }

  // ----- the law -----

  /** How far the image of a point is from where the target would put it. */
  function Error(d: DeviceTransform, p: Vec): Vec
  {
    Sub(Act(d.transform, p), Act(d.targetTransform, p))
  }

  lemma ClampRange(l: real)
    ensures 0.0 <= Clamp(l) <= 1.0
    ensures l >= 0.0 ==> Clamp(l) == Min(1.0, l)
  {
  }

  /** With the motion gate on and seeded, the step is at least a tenth of the timed rate, and never more than it. */
  lemma GatedLerp(num: Numerics, params: SpeedParams, freq: int, d: DeviceTransform, pose: IsoTransform, now: int)
    requires freq > 0 && d.recalibrateOnMovement && d.blendMotionInitialized && TimedRate(params, freq, d, now) >= 0.0
    ensures Lerp(num, params, freq, d, pose, now) >= Min(1.0, Times(TimedRate(params, freq, d, now), 0.1))
    ensures Lerp(num, params, freq, d, pose, now) <= Min(1.0, TimedRate(params, freq, d, now))
  {
    hide TimedRate, MotionGate, RegimeFloor, Times;
    FloorRange(num, d);
    GateRange(num, d, pose);
    var rate, gate := TimedRate(params, freq, d, now), EffectiveGate(num, d, pose);
    ScaleMono(rate, 0.1, gate);
    ScaleMono(rate, gate, 1.0);
    TimesOne(rate);
    TimesSigns(rate, 0.1);
  }

  lemma FloorRange(num: Numerics, d: DeviceTransform)
    ensures 0.1 <= RegimeFloor(num, d) <= 1.0
  {
  }

  lemma GateRange(num: Numerics, d: DeviceTransform, pose: IsoTransform)
    ensures MotionGate(num, d, pose) <= 1.0
  {
  }

  /** A frame scales the error at the device's position by 1 - lerp, whatever the slerp and the gate do. */
  lemma FrameShrinks(num: Numerics, params: SpeedParams, freq: int, d: DeviceTransform, pose: IsoTransform, now: int)
    requires freq > 0
    ensures var l := Lerp(num, params, freq, Chosen(num, params, d, pose), pose, now);
      && 0.0 <= l <= 1.0
      && Error(Frame(num, params, freq, d, pose, now), pose.translation) == Scale(1.0 - l, Error(d, pose.translation))
  {
    hide InterpolateAround, GetTransformDeltaSize, EffectiveGate, TimedRate, Times, Act;
    var c := Chosen(num, params, d, pose);
    ClampRange(Times(TimedRate(params, freq, c, now), EffectiveGate(num, c, pose)));
    InterpolatedError(num, d.transform, Lerp(num, params, freq, c, pose, now), d.targetTransform, pose.translation);
  }

  /** A device pose at some time. */
  datatype Tick = Tick(pose: IsoTransform, now: int)

  /** The slot behind a list of frames. */
  function Frames(num: Numerics, params: SpeedParams, freq: int, d: DeviceTransform, ticks: seq<Tick>): DeviceTransform
    requires freq > 0
  {
    if ticks == [] then d
    else
      var t := ticks[|ticks| - 1];
      Frame(num, params, freq, Frames(num, params, freq, d, ticks[..|ticks| - 1]), t.pose, t.now)
  }

  /** The device stays where it is, turning as it likes. */
  predicate StaysAt(ticks: seq<Tick>, p: Vec)
  {
    forall i :: 0 <= i < |ticks| ==> ticks[i].pose.translation == p
  }

  /** The share of the error that is left behind a list of frames. */
  function Left(num: Numerics, params: SpeedParams, freq: int, d: DeviceTransform, ticks: seq<Tick>): real
    requires freq > 0
  {
    if ticks == [] then 1.0
    else
      var t, before := ticks[|ticks| - 1], ticks[..|ticks| - 1];
      var c := Chosen(num, params, Frames(num, params, freq, d, before), t.pose);
      Times(1.0 - Lerp(num, params, freq, c, t.pose, t.now), Left(num, params, freq, d, before))
  }

  /** Repeated frames around a fixed device position never overshoot: the error keeps its direction and is
      multiplied by a factor between 0 and 1. */
  lemma {:induction false} NoOvershoot(num: Numerics, params: SpeedParams, freq: int, d: DeviceTransform, ticks: seq<Tick>, p: Vec)
    requires freq > 0 && StaysAt(ticks, p)
    ensures 0.0 <= Left(num, params, freq, d, ticks) <= 1.0
    ensures Error(Frames(num, params, freq, d, ticks), p) == Scale(Left(num, params, freq, d, ticks), Error(d, p))
  {
    hide Frame, Lerp, Chosen, Error, Times, Scale;
    if ticks == [] {
      ScaleOne(Error(d, p));
    } else {
      var n := |ticks| - 1;
      var before := Frames(num, params, freq, d, ticks[..n]);
      NoOvershoot(num, params, freq, d, ticks[..n], p);
      FrameShrinks(num, params, freq, before, ticks[n].pose, ticks[n].now);
      var l := Lerp(num, params, freq, Chosen(num, params, before, ticks[n].pose), ticks[n].pose, ticks[n].now);
      var left := Left(num, params, freq, d, ticks[..n]);
      ShareProduct(1.0 - l, left);
      ScaleScale(1.0 - l, left, Error(d, p));
    }
  }

  lemma ScaleOne(v: Vec)
    ensures Scale(1.0, v) == v
  {
  }

  lemma ScaleScale(a: real, b: real, v: Vec)
    ensures Scale(a, Scale(b, v)) == Scale(Times(a, b), v)
  {
    TimesAssoc(a, b, v.x);
    TimesAssoc(a, b, v.y);
    TimesAssoc(a, b, v.z);
    hide Times;
  }

  lemma ShareProduct(a: real, b: real)
    requires 0.0 <= a <= 1.0 && 0.0 <= b <= 1.0
    ensures 0.0 <= Times(a, b) <= 1.0
  {
    ScaleMono(a, b, 1.0);
    ScaleMono(a, 0.0, b);
  }

  /** The factor that a tenth of the timed rate guarantees. */
  function GuaranteedLeft(num: Numerics, params: SpeedParams, freq: int, d: DeviceTransform, ticks: seq<Tick>): real
    requires freq > 0
  {
    if ticks == [] then 1.0
    else
      var t, before := ticks[|ticks| - 1], ticks[..|ticks| - 1];
      var c := Chosen(num, params, Frames(num, params, freq, d, before), t.pose);
      Times(1.0 - Min(1.0, Times(TimedRate(params, freq, c, t.now), 0.1)), GuaranteedLeft(num, params, freq, d, before))
  }

  /** The time of the poll before tick i. */
  function Before(d: DeviceTransform, ticks: seq<Tick>, i: nat): int
    requires i <= |ticks|
  {
    if i == 0 then d.lastPoll else ticks[i - 1].now
  }

  /** Time runs forward and no rate is negative. */
  predicate Forward(params: SpeedParams, d: DeviceTransform, ticks: seq<Tick>)
  {
    && params.speedTiny >= 0.0 && params.speedSmall >= 0.0 && params.speedLarge >= 0.0
    && (forall i :: 0 <= i < |ticks| ==> ticks[i].now >= Before(d, ticks, i))
  }

  /** Frames keep the gate on and remember the time. */
  lemma {:induction false} FramesKeep(num: Numerics, params: SpeedParams, freq: int, d: DeviceTransform, ticks: seq<Tick>)
    requires freq > 0 && d.recalibrateOnMovement && d.blendMotionInitialized
    ensures var e := Frames(num, params, freq, d, ticks);
      && e.recalibrateOnMovement && e.blendMotionInitialized
      && e.lastPoll == Before(d, ticks, |ticks|)
  {
    hide Lerp, InterpolateAround, GetTransformDeltaSize;
    if ticks != [] {
      FramesKeep(num, params, freq, d, ticks[..|ticks| - 1]);
    }
  }

  lemma ForwardParts(params: SpeedParams, d: DeviceTransform, ticks: seq<Tick>, delta: DeltaSize)
    requires ticks != [] && Forward(params, d, ticks)
    ensures Forward(params, d, ticks[..|ticks| - 1]) && GetTransformRate(params, delta) >= 0.0
    ensures ticks[|ticks| - 1].now >= Before(d, ticks[..|ticks| - 1], |ticks| - 1)
  {
    var n := |ticks| - 1;
    assert ticks[n].now >= Before(d, ticks, n);
    forall i | 0 <= i < n ensures ticks[..n][i].now >= Before(d, ticks[..n], i) {
      assert ticks[i].now >= Before(d, ticks, i);
    }
  }

  lemma RateForward(params: SpeedParams, freq: int, d: DeviceTransform, now: int)
    requires freq > 0 && now >= d.lastPoll && GetTransformRate(params, d.currentRate) >= 0.0
    ensures TimedRate(params, freq, d, now) >= 0.0
  {
    Quotient((now - d.lastPoll) as real, freq as real);
    TimesSigns((now - d.lastPoll) as real / freq as real, GetTransformRate(params, d.currentRate));
  }

  lemma Quotient(a: real, b: real)
    requires a >= 0.0 && b > 0.0
    ensures a / b >= 0.0
  {
  }

  /** In the motion-gated mode, once seeded, each frame removes at least the tenth of the timed rate, or all. */
  lemma {:induction false} GatedProgress(num: Numerics, params: SpeedParams, freq: int, d: DeviceTransform, ticks: seq<Tick>)
    requires freq > 0 && d.recalibrateOnMovement && d.blendMotionInitialized && Forward(params, d, ticks)
    ensures 0.0 <= Left(num, params, freq, d, ticks) <= GuaranteedLeft(num, params, freq, d, ticks)
  {
    hide Frame, Lerp, GetTransformDeltaSize, Times, TimedRate, Forward, Frames, GetTransformRate;
    if ticks != [] {
      var n := |ticks| - 1;
      var t, before := ticks[n], ticks[..n];
      var c := Chosen(num, params, Frames(num, params, freq, d, before), t.pose);
      ForwardParts(params, d, ticks, c.currentRate);
      GatedProgress(num, params, freq, d, before);
      FramesKeep(num, params, freq, d, before);
      RateForward(params, freq, c, t.now);
      GatedLerp(num, params, freq, c, t.pose, t.now);
      LerpRange(num, params, freq, c, t.pose, t.now);
      TimesSigns(TimedRate(params, freq, c, t.now), 0.1);
      ProductMono(1.0 - Lerp(num, params, freq, c, t.pose, t.now), 1.0 - Min(1.0, Times(TimedRate(params, freq, c, t.now), 0.1)),
                  Left(num, params, freq, d, before), GuaranteedLeft(num, params, freq, d, before));
    }
  }

  lemma LerpRange(num: Numerics, params: SpeedParams, freq: int, d: DeviceTransform, pose: IsoTransform, now: int)
    requires freq > 0
    ensures 0.0 <= Lerp(num, params, freq, d, pose, now) <= 1.0
  {
    hide TimedRate, EffectiveGate, Times;
    ClampRange(Times(TimedRate(params, freq, d, now), EffectiveGate(num, d, pose)));
  }

  lemma ProductMono(a: real, a': real, b: real, b': real)
    requires 0.0 <= a <= a' && 0.0 <= b <= b'
    ensures 0.0 <= Times(a, b) <= Times(a', b')
  {
    ScaleMono(a, b, b');
    ScaleMono(b', a, a');
    ScaleMono(a, 0.0, b);
  }
}
