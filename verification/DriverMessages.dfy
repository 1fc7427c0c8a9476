/** What a SetDeviceTransform message means for the poses that the hook delivers behind it. */
module DriverMessages {
  import opened Isometry
  import opened Blend
  import opened DriverState
  import opened DriverRuns
  import opened DriverMotion

  /** The transform that a device is to have behind a message: the parts that the message updates from the message,
      the others as they were wanted before. */
  function Wanted(tf: DeviceTransform, m: DeviceMessage): IsoTransform
  {
    IsoTransform(if m.updateRotation then m.rotation else tf.targetTransform.rotation,
                 if m.updateTranslation then m.translation else tf.targetTransform.translation)
  }

  function WantedScale(tf: DeviceTransform, m: DeviceMessage): real
  {
    if m.updateScale then m.scale else tf.scale
  }

  /** Each part and the scale is the message's own exactly where the message updates it. */
  lemma WantedParts(tf: DeviceTransform, m: DeviceMessage)
    ensures m.updateTranslation && m.updateRotation ==> Wanted(tf, m) == IsoTransform(m.rotation, m.translation)
    ensures m.updateTranslation ==> Wanted(tf, m).translation == m.translation
    ensures !m.updateTranslation ==> Wanted(tf, m).translation == tf.targetTransform.translation
    ensures m.updateRotation ==> Wanted(tf, m).rotation == m.rotation
    ensures !m.updateRotation ==> Wanted(tf, m).rotation == tf.targetTransform.rotation
    ensures WantedScale(tf, m) == if m.updateScale then m.scale else tf.scale
  {
  }

  lemma SnappedSlot(tf: DeviceTransform, m: DeviceMessage, now: int)
    requires m.enabled && (!tf.enabled || (!m.lerp && m.updateTranslation && m.updateRotation))
    ensures var t := AfterMessage(tf, m, now);
      t.transform == Wanted(tf, m) == t.targetTransform && t.scale == WantedScale(tf, m) && t.enabled && t.quash == m.quash
  {
  }

  /** The slot that the first half of the hook moves. */
  lemma HookMoves(u: Setup, s: Store, id: nat, pose: DriverPose, now: int)
    requires ValidSetup(u) && Shape(s) && id < 64 && s.transforms[id].enabled && !s.transforms[id].quash
    ensures var r := HookFirst(u, s, id, pose, now); var tf := s.transforms[id].(prevQuash := false);
      r.1.PerDevice? && r.1.pose == Moved(u, tf, pose, now).1 && r.0.transforms[id] == Moved(u, tf, pose, now).0
  {
    hide Moved;
  }

  lemma MessageStored(s: Store, m: DeviceMessage, now: int)
    requires Shape(s) && m.openVRID < 64
    ensures |s.transforms| == 64
    ensures AfterSetDevice(s, m, now).transforms[m.openVRID] == AfterMessage(s.transforms[m.openVRID], m, now)
  {
    hide AfterMessage, NameOf;
  }

  /** Behind a message that enables a device that was off, or updates both of its parts without lerp, the next pose puts
      the device exactly where the wanted transform puts its scaled position, however rotations are interpolated. */
  lemma MessageSnaps(u: Setup, s: Store, m: DeviceMessage, now: int, pose: DriverPose, later: int)
    requires ValidSetup(u) && RootsRight(u.num) && SlerpUnits(u.num) && Unit(pose.worldFromDriver.rotation)
    requires Shape(s) && m.openVRID < 64 && |s.transforms| == 64 && m.enabled && !m.quash
    requires !s.transforms[m.openVRID].enabled || (!m.lerp && m.updateTranslation && m.updateRotation)
    ensures var tf := s.transforms[m.openVRID]; var r := HookFirst(u, AfterSetDevice(s, m, now), m.openVRID, pose, later).1;
      && r.PerDevice?
      && Act(r.pose.worldFromDriver, r.pose.position)
         == Act(Wanted(tf, m), Act(pose.worldFromDriver, Scale(WantedScale(tf, m), pose.position)))
  {
    hide AfterMessage, AfterSetDevice, HookFirst, Moved, Act, Scale, Add, StepOf, Wanted, WantedScale, RootsRight,
      SlerpUnits, Unit;
    var id := m.openVRID;
    MessageStored(s, m, now);
    SnappedSlot(s.transforms[id], m, now);
    var s1 := AfterSetDevice(s, m, now);
    var tf := s1.transforms[id].(prevQuash := false);
    HookMoves(u, s1, id, pose, later);
    HookPlaces(u, tf, pose, later);
    SameEnds(StepOf(u, tf, pose, later), Act(tf.targetTransform, WorldPosition(Scaled(pose, tf.scale))));
  }

  // ----- the whole frame of a device -----

  /** Interpolating between a rotation and itself gives it back. */
  ghost predicate SlerpFixes(num: Numerics)
  {
    forall l: real, q: Quat {:trigger num.slerp(l, q, q)} :: Unit(q) ==> num.slerp(l, q, q) == q
  }

  lemma BackAndForth(a: Vec, b: Vec)
    ensures Sub(Add(a, b), b) == a
  {
  }

  /** Nothing moves between a transform and itself. */
  lemma InterpolatedSame(num: Numerics, a: IsoTransform, l: real, p: Vec)
    requires RootsRight(num) && SlerpFixes(num) && Unit(a.rotation)
    ensures InterpolateAround(num, a, l, a, p) == a
  {
    hide Rotate, Scale, RootsRight, Unit, Normalized;
    assert num.slerp(l, a.rotation, a.rotation) == a.rotation;
    NormalizedUnit(num, a.rotation);
    SameEnds(l, Act(a, p));
    BackAndForth(a.translation, Rotate(a.rotation, p));
    hide Add, Sub;
  }

  /** With it, not only the device's position but every point of its tracking frame goes where the message puts it. */
  lemma MessageMovesFrame(u: Setup, s: Store, m: DeviceMessage, now: int, pose: DriverPose, later: int, p: Vec)
    requires ValidSetup(u) && RootsRight(u.num) && SlerpFixes(u.num) && Unit(pose.worldFromDriver.rotation)
    requires Shape(s) && m.openVRID < 64 && |s.transforms| == 64 && m.enabled && !m.quash
    requires m.updateTranslation && m.updateRotation && Unit(m.rotation)
    requires !s.transforms[m.openVRID].enabled || !m.lerp
    ensures var r := HookFirst(u, AfterSetDevice(s, m, now), m.openVRID, pose, later).1;
      && r.PerDevice? && r.pose.rotation == pose.rotation
      && Act(r.pose.worldFromDriver, p) == Act(IsoTransform(m.rotation, m.translation), Act(pose.worldFromDriver, p))
  {
    hide AfterMessage, AfterSetDevice, HookFirst, Act, Scale, Add, StepOf, RootsRight, SlerpFixes, Unit, Lerp, Chosen,
      Rotate, Mul, Normalized, InterpolateAround, GetTransformDeltaSize;
    var id := m.openVRID;
    MessageStored(s, m, now);
    SnappedSlot(s.transforms[id], m, now);
    WantedParts(s.transforms[id], m);
    var s1 := AfterSetDevice(s, m, now);
    var tf := s1.transforms[id].(prevQuash := false);
    HookMoves(u, s1, id, pose, later);
    var world := WorldPose(u.num, Scaled(pose, tf.scale));
    ChosenKeeps(u, tf, world);
    var c := Chosen(u.num, u.params, tf, world);
    InterpolatedSame(u.num, tf.transform, Lerp(u.num, u.params, u.freq, c, world, later), world.translation);
    ComposeActs(u.num, tf.transform, pose.worldFromDriver, p);
  }

  lemma ChosenKeeps(u: Setup, tf: DeviceTransform, world: IsoTransform)
    ensures var c := Chosen(u.num, u.params, tf, world); c.transform == tf.transform && c.targetTransform == tf.targetTransform
  {
  }

  // ----- blending -----

  /** A message with lerp on an enabled device moves nothing by itself. From then on, frames around a fixed position bring
      the device towards where the wanted transform puts it: what is missing keeps its direction and is multiplied by a
      factor between 0 and 1. */
  lemma MessageBlends(num: Numerics, params: SpeedParams, freq: int, tf: DeviceTransform, m: DeviceMessage, now: int,
                      ticks: seq<Tick>, p: Vec)
    requires freq > 0 && tf.enabled && m.enabled && m.lerp && StaysAt(ticks, p)
    ensures var on := AfterMessage(tf, m, now); var goal := Act(Wanted(tf, m), p); var left := Left(num, params, freq, on, ticks);
      && on.transform == tf.transform && 0.0 <= left <= 1.0
      && Sub(Act(Frames(num, params, freq, on, ticks).transform, p), goal) == Scale(left, Sub(Act(tf.transform, p), goal))
  {
    hide Frames, Left, Act, Scale, Sub;
    var on := AfterMessage(tf, m, now);
    assert on.targetTransform == Wanted(tf, m);
    NoOvershoot(num, params, freq, on, ticks, p);
    FramesKeepTarget(num, params, freq, on, ticks);
  }

  /** Behind any message to an enabled device, the next pose puts the device on the line between where the wanted
      transform puts it and where the present one does; without lerp, updated parts of the present one are the message's. */
  lemma MessageStarts(u: Setup, s: Store, m: DeviceMessage, now: int, pose: DriverPose, later: int)
    requires ValidSetup(u) && RootsRight(u.num) && SlerpUnits(u.num) && Unit(pose.worldFromDriver.rotation)
    requires Shape(s) && m.openVRID < 64 && |s.transforms| == 64 && s.transforms[m.openVRID].enabled && m.enabled && !m.quash
    ensures var tf := s.transforms[m.openVRID]; var r := HookFirst(u, AfterSetDevice(s, m, now), m.openVRID, pose, later).1;
      var start := IsoTransform(if m.updateRotation && !m.lerp then m.rotation else tf.transform.rotation,
                                if m.updateTranslation && !m.lerp then m.translation else tf.transform.translation);
      var w := Act(pose.worldFromDriver, Scale(WantedScale(tf, m), pose.position));
      var l := StepOf(u, AfterMessage(tf, m, now).(prevQuash := false), pose, later);
      && r.PerDevice? && 0.0 <= l <= 1.0
      && Act(r.pose.worldFromDriver, r.pose.position) == Add(Scale(1.0 - l, Act(start, w)), Scale(l, Act(Wanted(tf, m), w)))
  {
    hide AfterSetDevice, HookFirst, Moved, Act, Scale, Add, StepOf, RootsRight, SlerpUnits, Unit;
    var id := m.openVRID;
    MessageStored(s, m, now);
    var s1 := AfterSetDevice(s, m, now);
    HookMoves(u, s1, id, pose, later);
    HookPlaces(u, s1.transforms[id].(prevQuash := false), pose, later);
  }

  // ----- what else the hook does -----

  /** Behind a message, a device is hidden exactly when the message says so, and moved by its own transform exactly when
      it is enabled and not hidden. Messages leave all other devices alone, and all devices if theirs cannot exist. */
  lemma MessageDecides(u: Setup, s: Store, m: DeviceMessage, now: int, pose: DriverPose, later: int, other: nat)
    requires ValidSetup(u) && Shape(s) && other < 64 && other != m.openVRID && |s.transforms| == 64
    ensures var s' := AfterSetDevice(s, m, now);
      && (m.openVRID < 64 ==>
            var r := HookFirst(u, s', m.openVRID, pose, later).1;
            (r.Hidden? <==> m.quash) && (r.PerDevice? <==> !m.quash && m.enabled))
      && |s'.transforms| == |s'.deviceSystem| == |s'.lookupState| == 64 == |s.deviceSystem| == |s.lookupState|
      && s'.transforms[other] == s.transforms[other] && s'.deviceSystem[other] == s.deviceSystem[other]
      && s'.lookupState[other] == s.lookupState[other] && s'.fallbacks == s.fallbacks
  {
    hide Moved, FindSlot, Following, Released;
  }

  /** 64 devices, eight fallbacks, names of 32 bytes. */
  lemma Sizes(s: Store)
    ensures Shape(s) <==>
      && |s.transforms| == |s.deviceSystem| == |s.lookupState| == |s.lastLookupAttempt| == 64
      && |s.fallbacks| == 8 && forall i :: 0 <= i < 8 ==> |s.fallbacks[i].systemName| == 32
  {
  }

  // ----- looking systems up -----

  /** A device that is moved by no transform of its own and whose tracking system nobody has named. */
  predicate Nameless(s: Store, id: nat)
    requires Shape(s) && id < MAX_DEVICES
  {
    !s.transforms[id].quash && !s.transforms[id].enabled && s.deviceSystem[id] == [] && !s.lookupState[id].Cached?
  }

  /** The system of a nameless device is looked up at its next pose; if that fails, again when a second has gone by and
      not before. */
  lemma LookupOncePerSecond(u: Setup, s: Store, id: nat, pose: DriverPose, pose': DriverPose, now: int, later: int)
    requires ValidSetup(u) && Shape(s) && id < 64 && |s.lookupState| == 64 && Nameless(s, id)
    ensures s.lookupState[id].NotTried? ==> HookFirst(u, s, id, pose, now).2
    ensures var s' := HookSecond(u, s, id, [], pose, now).0;
      && Nameless(s', id) && (HookFirst(u, s', id, pose', later).2 <==> later - now >= u.freq)
  {
    hide Moved, FindSlot;
  }

  /** A system that was found is never looked up again. */
  lemma FoundOnce(u: Setup, s: Store, id: nat, found: Name, pose: DriverPose, pose': DriverPose, now: int, later: int)
    requires ValidSetup(u) && Shape(s) && id < 64 && |s.lookupState| == 64 && Nameless(s, id) && found != []
    ensures var s' := HookSecond(u, s, id, found, pose, now).0;
      Shape(s') && s'.deviceSystem[id] == found && !HookFirst(u, s', id, pose', later).2
  {
    hide Moved, FindSlot;
  }

  // ----- followers -----

  /** A device that follows a fallback is put on the line between where it was put and where the fallback now says. */
  lemma FollowerMoves(u: Setup, s: Store, id: nat, pose: DriverPose, now: int)
    requires ValidSetup(u) && RootsRight(u.num) && SlerpUnits(u.num) && Unit(pose.worldFromDriver.rotation)
    requires Shape(s) && id < 64 && |s.transforms| == 64 && s.transforms[id].fallbackActive && HasFallback(s, id)
    ensures var fb := s.fallbacks[FindSlot(s.fallbacks, s.deviceSystem[id]).value].tf; var r := FallbackPart(u, s, id, pose, now);
      var w := Act(pose.worldFromDriver, Scale(fb.scale, pose.position));
      var l := StepOf(u, Following(s.transforms[id], fb, now), pose, now);
      && r.1.ByFallback? && 0.0 <= l <= 1.0
      && Act(r.1.pose.worldFromDriver, r.1.pose.position)
         == Add(Scale(1.0 - l, Act(s.transforms[id].transform, w)), Scale(l, Act(fb.transform, w)))
  {
    hide Act, Scale, Add, RootsRight, SlerpUnits, Unit, StepOf, FindFrom, GetTransformDeltaSize, Lerp, InterpolateAround;
    var fb := s.fallbacks[FindSlot(s.fallbacks, s.deviceSystem[id]).value].tf;
    var tf := Following(s.transforms[id], fb, now);
    HookPlaces(u, tf, pose, now);
  }
}
