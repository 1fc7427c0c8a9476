/** The driver's device provider: arrays guarded by one mutex, changed in place by the message handlers and the
    pose hook. Each method is proved against the state function of its handler. */
module Driver {
  import opened Options
  import opened Isometry
  import opened RealMath
  import opened Blend
  import opened DriverState
  import opened DriverRuns

  class ServerTrackedDeviceProvider {
    const setup: Setup
    const transforms: array<DeviceTransform>
    const deviceSystem: array<Name>
    const lookupState: array<Lookup>
    const lastLookupAttempt: array<int>
    const systemFallbacks: array<FallbackSlot>

    constructor (setup: Setup)
      requires ValidSetup(setup)
      ensures Valid() && this.setup == setup && State() == Init()
      ensures fresh(transforms) && fresh(deviceSystem) && fresh(lookupState) && fresh(lastLookupAttempt) && fresh(systemFallbacks)
    {
      this.setup := setup;
      transforms := new DeviceTransform[MAX_DEVICES](i => NO_DEVICE);
      deviceSystem := new Name[MAX_DEVICES](i => []);
      lookupState := new Lookup[MAX_DEVICES](i => NotTried);
      lastLookupAttempt := new int[MAX_DEVICES](i => 0);
      systemFallbacks := new FallbackSlot[MAX_SLOTS](i => FallbackSlot(Padding(NAME_LENGTH), NO_FALLBACK, false));
    }

    ghost function State(): Store
      reads transforms, deviceSystem, lookupState, lastLookupAttempt, systemFallbacks
    {
      Store(transforms[..], deviceSystem[..], lookupState[..], lastLookupAttempt[..], systemFallbacks[..])
    }

    ghost predicate Valid()
      reads transforms, deviceSystem, lookupState, lastLookupAttempt, systemFallbacks
    {
      ValidSetup(setup) && Shape(State())
    }

    // ----- the fallback table -----

    method FindFallbackSlot(name: Name) returns (r: Option<nat>)
      requires Valid()
      ensures r == FindSlot(systemFallbacks[..], name)
    {
      if name == [] || |name| > NAME_LENGTH {
        return None;
      }
      var i := 0;
      while i < MAX_SLOTS
        invariant i <= MAX_SLOTS && FindFrom(systemFallbacks[..], name, i) == FindFrom(systemFallbacks[..], name, 0)
      {
        if Matches(systemFallbacks[i], name) {
          return Some(i);
        }
        i := i + 1;
      }
      return None;
    }

    method AcquireFallbackSlot(name: Name) returns (r: Option<nat>)
      requires Valid()
      modifies systemFallbacks
      ensures Valid() && (systemFallbacks[..], r) == Acquire(old(systemFallbacks[..]), name)
    {
      hide FindSlot, Padded;
      if |name| == 0 || |name| > NAME_LENGTH {
        return None;
      }
      r := FindFallbackSlot(name);
      if r.Some? {
        return;
      }
      var i := 0;
      while i < MAX_SLOTS
        invariant i <= MAX_SLOTS && systemFallbacks[..] == old(systemFallbacks[..])
        invariant FreeFrom(systemFallbacks[..], i) == FreeFrom(systemFallbacks[..], 0)
      {
        if !systemFallbacks[i].occupied {
          systemFallbacks[i] := FallbackSlot(Padded(name), NO_FALLBACK, true);
          return Some(i);
        }
        i := i + 1;
      }
      return None;
    }

    // ----- messages -----

    method SetDeviceTransform(m: DeviceMessage, now: int)
      requires Valid()
      modifies transforms, deviceSystem, lookupState
      ensures Valid() && State() == AfterSetDevice(old(State()), m, now)
    {
      hide NameOf, AfterMessage, Padded;
      var id := m.openVRID;
      if id >= MAX_DEVICES {
        return;
      }
      var name := NameOf(m.targetSystem);
      deviceSystem[id] := name;
      lookupState[id] := if |name| > 0 then Cached else NotTried;
      UpdateDevice(id, m, now);
    }

    /** The fields of the device's slot, in the order in which the handler sets them. */
    method UpdateDevice(id: nat, m: DeviceMessage, now: int)
      requires Valid() && id < MAX_DEVICES
      modifies transforms
      ensures transforms[..] == old(transforms[..])[id := AfterMessage(old(transforms[id]), m, now)]
    {
      hide AfterMessage;
      var tf := UpdatedSlot(transforms[id], m, now);
      transforms[id] := tf;
    }

    static method UpdatedSlot(tf0: DeviceTransform, m: DeviceMessage, now: int) returns (tf: DeviceTransform)
      ensures tf == AfterMessage(tf0, m, now)
    {
      var motionInitialized, scale := tf0.blendMotionInitialized, tf0.scale;
      if tf0.recalibrateOnMovement && !m.recalibrateOnMovement {
        motionInitialized := false;
      }
      var transform, targetTransform := UpdatedTransforms(tf0.transform, tf0.targetTransform, m);
      if m.updateScale {
        scale := m.scale;
      }
      if !tf0.enabled && m.enabled {
        transform := targetTransform;
      }
      if tf0.enabled && !m.enabled {
        targetTransform := transform;
      }
      tf := tf0.(enabled := m.enabled, fallbackActive := false, blendMotionInitialized := motionInitialized,
                 recalibrateOnMovement := m.recalibrateOnMovement, scale := scale, quash := m.quash,
                 transform := transform, targetTransform := targetTransform, lastPoll := now, currentRate := TINY);
    }

    /** The target takes the parts that the message updates; without lerp the active transform does, too. */
    static method UpdatedTransforms(transform0: IsoTransform, target0: IsoTransform, m: DeviceMessage)
      returns (transform: IsoTransform, target: IsoTransform)
      ensures target == IsoTransform(if m.updateRotation then m.rotation else target0.rotation,
                                     if m.updateTranslation then m.translation else target0.translation)
      ensures transform == IsoTransform(if m.updateRotation && !m.lerp then m.rotation else transform0.rotation,
                                        if m.updateTranslation && !m.lerp then m.translation else transform0.translation)
    {
      transform, target := transform0, target0;
      if m.updateTranslation {
        target := target.(translation := m.translation);
        if !m.lerp {
          transform := transform.(translation := target.translation);
        }
      }
      if m.updateRotation {
        target := target.(rotation := m.rotation);
        if !m.lerp {
          transform := transform.(rotation := target.rotation);
        }
      }
    }

    method SetTrackingSystemFallback(m: FallbackMessage, now: int)
      requires Valid() && |m.systemName| == NAME_LENGTH
      modifies transforms, systemFallbacks
      ensures Valid() && State() == AfterSetFallback(old(State()), m, now)
    {
      hide NameOf, FindSlot, Padded, Acquire;
      var name := NameOf(m.systemName);
      if name == [] {
        return;
      }
      if !m.enabled {
        var slot := FindFallbackSlot(name);
        if slot.Some? {
          var i := slot.value;
          systemFallbacks[i] := Disabled(systemFallbacks[i]);
        }
        ReleaseFollowers(name, now);
        return;
      }
      var r := AcquireFallbackSlot(name);
      if r.None? {
        NothingAcquired(old(systemFallbacks[..]), name);
        return;
      }
      var i := r.value;
      systemFallbacks[i] := Enabled(systemFallbacks[i], m);
    }

    lemma NothingAcquired(slots: seq<FallbackSlot>, name: Name)
      requires forall k :: 0 <= k < |slots| ==> |slots[k].systemName| == NAME_LENGTH
      requires Acquire(slots, name).1.None?
      ensures Acquire(slots, name).0 == slots
    {
    }

    /** Releases every device that follows the named fallback. */
    method ReleaseFollowers(name: Name, now: int)
      requires Valid()
      modifies transforms
      ensures transforms[..] == ReleaseAll(old(State()), name, now, MAX_DEVICES)
    {
      ghost var before := State();
      var id := 0;
      while id < MAX_DEVICES
        invariant id <= MAX_DEVICES && transforms[..] == ReleaseAll(before, name, now, id)
        invariant deviceSystem[..] == before.deviceSystem
      {
        if transforms[id].fallbackActive {
          if deviceSystem[id] == name {
            transforms[id] := Released(transforms[id], now);
          }
        }
        id := id + 1;
      }
    }

    // ----- the pose hook -----

    /** Chooses the rate, blends the device's transform and applies it to the pose. */
    method BlendAndApply(id: nat, pose: DriverPose, now: int) returns (pose': DriverPose)
      requires Valid() && id < MAX_DEVICES
      modifies transforms
      ensures var m := Moved(setup, old(transforms[id]), pose, now);
        transforms[..] == old(transforms[..])[id := m.0] && pose' == m.1
    {
      hide GetTransformDeltaSize, Compose, Scale, WorldPose, Blended;
      var scaled := Scaled(pose, transforms[id].scale);
      var world := WorldPose(setup.num, scaled);
      var tf := transforms[id];
      transforms[id] := tf.(currentRate :=
        GetTransformDeltaSize(setup.num, setup.params, tf.currentRate, world, tf.transform, tf.targetTransform));
      BlendTransform(id, world, now);
      pose' := Applied(setup.num, transforms[id], scaled);
    }

    /** Moves the device's transform towards its target. */
    method BlendTransform(id: nat, world: IsoTransform, now: int)
      requires Valid() && id < MAX_DEVICES
      modifies transforms
      ensures transforms[..]
           == old(transforms[..])[id := Blended(setup.num, setup.params, setup.freq, old(transforms[id]), world, now)]
    {
      hide MotionGate, RegimeFloor, InterpolateAround, Norm, GetTransformRate;
      var device := transforms[id];
      var lerp := TimedRate(setup.params, setup.freq, device, now);
      device := device.(lastPoll := now);
      if device.recalibrateOnMovement {
        if !device.blendMotionInitialized {
          device := device.(lastBlendWorldPos := world.translation, lastBlendWorldRot := world.rotation,
                            blendMotionInitialized := true);
          lerp := 0.0;
        } else {
          var motionGate := MotionGate(setup.num, device, world);
          var regimeFloor := RegimeFloor(setup.num, device);
          SameGate(setup.num, transforms[id], device, world);
          lerp := Times(lerp, Max(motionGate, regimeFloor));
          device := device.(lastBlendWorldPos := world.translation, lastBlendWorldRot := world.rotation);
        }
      } else if device.blendMotionInitialized {
        device := device.(blendMotionInitialized := false);
      }
      TimesOne(TimedRate(setup.params, setup.freq, transforms[id], now));
      TimesZero(TimedRate(setup.params, setup.freq, transforms[id], now));
      if lerp > 1.0 {
        lerp := 1.0;
      }
      if lerp < 0.0 {
        lerp := 0.0;
      }
      transforms[id] := device.(transform :=
        InterpolateAround(setup.num, device.transform, lerp, device.targetTransform, world.translation));
    }

    lemma SameGate(num: Numerics, d: DeviceTransform, e: DeviceTransform, pose: IsoTransform)
      requires e == d.(lastPoll := e.lastPoll)
      ensures MotionGate(num, e, pose) == MotionGate(num, d, pose) && RegimeFloor(num, e) == RegimeFloor(num, d)
    {
    }

    /** The hook up to its end, or up to the point where it drops the mutex to query the device's system. */
    method HandleDevicePoseUpdated(id: nat, pose: DriverPose, now: int) returns (result: HookResult, pending: bool)
      requires Valid() && id < MAX_DEVICES
      modifies transforms
      ensures Valid() && (State(), result, pending) == HookFirst(setup, old(State()), id, pose, now)
    {
      hide Moved, FallbackPart, FindSlot, Frame;
      var tf := transforms[id].(prevQuash := transforms[id].quash);
      transforms[id] := tf;
      if tf.quash {
        return Hidden, false;
      }
      if tf.enabled {
        var pose' := BlendAndApply(id, pose, now);
        return PerDevice(pose'), false;
      }
      if deviceSystem[id] == [] && lookupState[id] != Cached {
        var shouldTry := true;
        if lookupState[id] == Failed {
          if setup.freq > 0 && now - lastLookupAttempt[id] < setup.freq {
            shouldTry := false;
          }
        }
        if shouldTry {
          return Untouched, true;
        }
      }
      result := FollowFallback(id, pose, now);
      pending := false;
    }

    /** The hook behind a query, with the mutex taken again. An empty name means that the query failed. */
    method ResumePoseUpdate(id: nat, found: Name, pose: DriverPose, now: int) returns (result: HookResult)
      requires Valid() && id < MAX_DEVICES
      modifies transforms, deviceSystem, lookupState, lastLookupAttempt
      ensures Valid() && (State(), result) == HookSecond(setup, old(State()), id, found, pose, now)
    {
      hide FallbackPart;
      if lookupState[id] != Cached {
        if found != [] {
          deviceSystem[id] := found;
          lookupState[id] := Cached;
        } else {
          lookupState[id] := Failed;
          lastLookupAttempt[id] := now;
        }
      }
      assert State() == AfterQuery(old(State()), id, found, now);
      result := FollowFallback(id, pose, now);
    }

    /** Takes over a fallback's settings; the first time the transform snaps to it. */
    static method TakeOver(tf0: DeviceTransform, fb: FallbackTransform, now: int) returns (tf: DeviceTransform)
      ensures tf == Following(tf0, fb, now)
    {
      var motionInitialized := tf0.blendMotionInitialized;
      if tf0.recalibrateOnMovement && !fb.recalibrateOnMovement {
        motionInitialized := false;
      }
      tf := tf0.(targetTransform := fb.transform, scale := fb.scale, blendMotionInitialized := motionInitialized,
                 recalibrateOnMovement := fb.recalibrateOnMovement);
      if !tf.fallbackActive {
        tf := tf.(transform := fb.transform, fallbackActive := true, currentRate := TINY, lastPoll := now);
      }
    }

    /** Follows the fallback of the device's system, if there is one. */
    method FollowFallback(id: nat, pose: DriverPose, now: int) returns (result: HookResult)
      requires Valid() && id < MAX_DEVICES
      modifies transforms
      ensures Valid() && (State(), result) == FallbackPart(setup, old(State()), id, pose, now)
    {
      hide Moved, FindSlot, Padding, Following;
      if deviceSystem[id] == [] {
        return Untouched;
      }
      var slot := FindFallbackSlot(deviceSystem[id]);
      if slot.Some? && systemFallbacks[slot.value].tf.enabled {
        var fb := systemFallbacks[slot.value].tf;
        var tf := TakeOver(transforms[id], fb, now);
        ghost var before := transforms[..];
        transforms[id] := tf;
        var pose' := BlendAndApply(id, pose, now);
        assert transforms[..] == before[id := Moved(setup, tf, pose, now).0];
        return ByFallback(pose');
      } else if transforms[id].fallbackActive {
        transforms[id] := Released(transforms[id], now);
      }
      return Untouched;
    }
  }
}
