/** Where the driver's hook puts a device, and how messages and frames work together. */
module DriverMotion {
  import opened RealMath
  import opened Isometry
  import opened Blend
  import opened DriverState
  import opened DriverRuns

  /** Whatever slerp computes, it is a unit quaternion. */
  ghost predicate SlerpUnits(num: Numerics)
  {
    forall l: real, a: Quat, b: Quat {:trigger num.slerp(l, a, b)} :: Unit(num.slerp(l, a, b))
  }

  /** Where a pose says that the device is. */
  function WorldPosition(pose: DriverPose): Vec
  {
    Act(pose.worldFromDriver, pose.position)
  }

  lemma SameEnds(l: real, v: Vec)
    ensures Add(Scale(1.0 - l, v), Scale(l, v)) == v
  {
  }

  /** The step that a frame of a device takes. */
  function StepOf(u: Setup, tf: DeviceTransform, pose: DriverPose, now: int): real
    requires ValidSetup(u)
  {
    var world := WorldPose(u.num, Scaled(pose, tf.scale));
    Lerp(u.num, u.params, u.freq, Chosen(u.num, u.params, tf, world), world, now)
  }

  lemma StepRange(u: Setup, tf: DeviceTransform, pose: DriverPose, now: int)
    requires ValidSetup(u)
    ensures 0.0 <= StepOf(u, tf, pose, now) <= 1.0
  {
    hide WorldPose, Chosen, Scaled, Lerp;
    var world := WorldPose(u.num, Scaled(pose, tf.scale));
    LerpRange(u.num, u.params, u.freq, Chosen(u.num, u.params, tf, world), world, now);
  }

  /** The hook puts a moved device exactly on the line between where its active transform and its target would put
      it, at the step of the frame. */
  lemma HookPlaces(u: Setup, tf: DeviceTransform, pose: DriverPose, now: int)
    requires ValidSetup(u) && RootsRight(u.num) && SlerpUnits(u.num) && Unit(pose.worldFromDriver.rotation)
    ensures var w := WorldPosition(Scaled(pose, tf.scale)); var l := StepOf(u, tf, pose, now);
      && 0.0 <= l <= 1.0
      && WorldPosition(Moved(u, tf, pose, now).1) == Add(Scale(1.0 - l, Act(tf.transform, w)), Scale(l, Act(tf.targetTransform, w)))
  {
    hide Lerp, Rotate, Unit, Normalized, RootsRight, GetTransformDeltaSize, Mul, Scale, Add;
    StepRange(u, tf, pose, now);
    var scaled := Scaled(pose, tf.scale);
    var world := WorldPose(u.num, scaled);
    var c := Chosen(u.num, u.params, tf, world);
    var t := Blended(u.num, u.params, u.freq, c, world, now);
    var l := Lerp(u.num, u.params, u.freq, c, world, now);
    NormalizedUnit(u.num, u.num.slerp(l, c.transform.rotation, c.targetTransform.rotation));
    ComposeActs(u.num, t.transform, scaled.worldFromDriver, scaled.position);
    InterpolatedPoint(u.num, c.transform, l, c.targetTransform, world.translation);
  }

  /** A device that takes over a fallback is put exactly where the fallback says, from the first frame on. */
  lemma FirstFollowIsExact(u: Setup, s: Store, id: nat, pose: DriverPose, now: int)
    requires ValidSetup(u) && RootsRight(u.num) && SlerpUnits(u.num) && Unit(pose.worldFromDriver.rotation)
    requires Shape(s) && id < MAX_DEVICES && !s.transforms[id].fallbackActive && HasFallback(s, id)
    ensures var fb := s.fallbacks[FindSlot(s.fallbacks, s.deviceSystem[id]).value].tf; var r := FallbackPart(u, s, id, pose, now);
      && r.1.ByFallback? && WorldPosition(r.1.pose) == Act(fb.transform, WorldPosition(Scaled(pose, fb.scale)))
      && r.0.transforms[id].fallbackActive && r.0.transforms[id].targetTransform == fb.transform
  {
    hide WorldPosition, Act, Scale, Add, Scaled, RootsRight, SlerpUnits, Unit, StepOf, FindFrom, GetTransformDeltaSize, Lerp,
      InterpolateAround;
    var fb := s.fallbacks[FindSlot(s.fallbacks, s.deviceSystem[id]).value].tf;
    var tf := Following(s.transforms[id], fb, now);
    HookPlaces(u, tf, pose, now);
    SameEnds(StepOf(u, tf, pose, now), Act(fb.transform, WorldPosition(Scaled(pose, fb.scale))));
  }

  // ----- messages and frames -----

  lemma {:induction false} FramesKeepTarget(num: Numerics, params: SpeedParams, freq: int, d: DeviceTransform, ticks: seq<Tick>)
    requires freq > 0
    ensures Frames(num, params, freq, d, ticks).targetTransform == d.targetTransform
  {
    hide Lerp, InterpolateAround, GetTransformDeltaSize;
    if ticks != [] {
      FramesKeepTarget(num, params, freq, d, ticks[..|ticks| - 1]);
    }
  }

  /** A device that a message enables stands at its target at once, and frames around a fixed position leave it there. */
  lemma EnabledDeviceStays(num: Numerics, params: SpeedParams, freq: int, tf: DeviceTransform, m: DeviceMessage, now: int,
                           ticks: seq<Tick>, p: Vec)
    requires freq > 0 && !tf.enabled && m.enabled && StaysAt(ticks, p)
    ensures var on := AfterMessage(tf, m, now); Error(Frames(num, params, freq, on, ticks), p) == Vec(0.0, 0.0, 0.0)
  {
    hide Frames, Left, Act;
    var on := AfterMessage(tf, m, now);
    NoOvershoot(num, params, freq, on, ticks, p);
    assert Error(on, p) == Vec(0.0, 0.0, 0.0);
  }

  /** A message restarts the clock and the level: the first step behind it is the time since the message at a rate that no
      longer depends on the past, however long the device was away; with the motion gate on, nothing in the frame that
      seeds it, and else between a tenth of that and all of it. */
  lemma MessageRestartsClock(num: Numerics, params: SpeedParams, freq: int, tf: DeviceTransform, m: DeviceMessage, now: int,
                             pose: IsoTransform, later: int)
    requires freq > 0 && now <= later
    ensures var t := AfterMessage(tf, m, now); var c := Chosen(num, params, t, pose);
      var rate := GetTransformRate(params, GetTransformDeltaSize(num, params, TINY, pose, t.transform, t.targetTransform));
      var bound := Times((later - now) as real / freq as real, rate);
      rate >= 0.0 ==>
        if !m.recalibrateOnMovement then Lerp(num, params, freq, c, pose, later) == Min(1.0, bound)
        else if !tf.blendMotionInitialized then Lerp(num, params, freq, c, pose, later) == 0.0
        else Min(1.0, Times(bound, 0.1)) <= Lerp(num, params, freq, c, pose, later) <= Min(1.0, bound)
  {
    hide GetTransformDeltaSize, Times, MotionGate, RegimeFloor, GetTransformRate;
    var t := AfterMessage(tf, m, now);
    var c := Chosen(num, params, t, pose);
    var rate := TimedRate(params, freq, c, later);
    if GetTransformRate(params, c.currentRate) >= 0.0 {
      RateForward(params, freq, c, later);
      TimesOne(rate);
      TimesZero(rate);
      if m.recalibrateOnMovement && tf.blendMotionInitialized {
        GatedLerp(num, params, freq, c, pose, later);
      }
    }
  }

  /** A disabling message drops the pending target: a device that is enabled again without an update stands where it
      stood when it was disabled. */
  lemma DisabledDeviceForgets(tf: DeviceTransform, off: DeviceMessage, on: DeviceMessage, now: int, later: int)
    requires tf.enabled && !off.enabled && on.enabled && !on.updateTranslation && !on.updateRotation
    ensures var t := AfterMessage(tf, off, now); var t' := AfterMessage(t, on, later);
      t'.transform == t.transform == t'.targetTransform
  {
  }

  /** A released follower has nothing left to blend to: it stays where the fallback had put it. */
  lemma ReleasedDeviceStands(num: Numerics, params: SpeedParams, freq: int, tf: DeviceTransform, now: int, ticks: seq<Tick>, p: Vec)
    requires freq > 0 && StaysAt(ticks, p)
    ensures Act(Frames(num, params, freq, Released(tf, now), ticks).transform, p) == Act(tf.transform, p)
    ensures !Released(tf, now).fallbackActive
  {
    hide Frames, Left, Act;
    var off := Released(tf, now);
    NoOvershoot(num, params, freq, off, ticks, p);
    assert Error(off, p) == Vec(0.0, 0.0, 0.0);
    FramesKeepTarget(num, params, freq, off, ticks);
    NoDifference(Act(Frames(num, params, freq, off, ticks).transform, p), Act(tf.transform, p));
  }

  lemma NoDifference(a: Vec, b: Vec)
    requires Sub(a, b) == Vec(0.0, 0.0, 0.0)
    ensures a == b
  {
  }
}
