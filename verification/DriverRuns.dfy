/** Runs of the driver's handlers, with the mutex drop of the pose hook as two separate steps. */
module DriverRuns {
  import opened Options
  import opened Isometry
  import opened Blend
  import opened DriverState

  // ----- invariant -----

  /** The device's system is known and has an enabled fallback. */
  ghost predicate Backed(s: Store, id: nat)
    requires Shape(s) && id < MAX_DEVICES
  {
    && s.lookupState[id].Cached? && 1 <= |s.deviceSystem[id]| <= NAME_LENGTH && ZeroFree(s.deviceSystem[id])
    && BackedName(s.fallbacks, s.deviceSystem[id])
  }

  ghost predicate BackedName(slots: seq<FallbackSlot>, name: Name)
    requires forall k :: 0 <= k < |slots| ==> |slots[k].systemName| == NAME_LENGTH
  {
    FindSlot(slots, name).Some? && slots[FindSlot(slots, name).value].tf.enabled
    && slots[FindSlot(slots, name).value].occupied
  }

  ghost predicate DeviceHolds(s: Store, id: nat)
    requires Shape(s) && id < MAX_DEVICES
  {
    && ZeroFree(s.deviceSystem[id]) && (s.lookupState[id].Cached? <==> s.deviceSystem[id] != [])
    && (s.transforms[id].fallbackActive ==> Backed(s, id))
  }

  /** No two occupied slots have the same name. */
  ghost predicate NamesDistinct(slots: seq<FallbackSlot>)
  {
    forall i, j :: 0 <= i < j < |slots| && slots[i].occupied && slots[j].occupied ==> slots[i].systemName != slots[j].systemName
  }

  ghost predicate Inv(s: Store)
  {
    Shape(s) && NamesDistinct(s.fallbacks) && forall id :: 0 <= id < MAX_DEVICES ==> DeviceHolds(s, id)
  }

  const NO_DEVICE := DeviceTransform(
    false, false, false, IDENTITY, IDENTITY, 1.0, 0, TINY, false, false, Vec(0.0, 0.0, 0.0), ONE, false)

  /** The driver as it starts. */
  function Init(): (s: Store)
    ensures Shape(s)
  {
    Store(seq(MAX_DEVICES, (i: nat) => NO_DEVICE), seq(MAX_DEVICES, (i: nat) => []), seq(MAX_DEVICES, (i: nat) => NotTried),
          seq(MAX_DEVICES, (i: nat) => 0), seq(MAX_SLOTS, (i: nat) => FallbackSlot(Padding(NAME_LENGTH), NO_FALLBACK, false)))
  }

  lemma InitInv()
    ensures Inv(Init())
  {
  }

  // ----- the fallback table -----

  /** A slot has at most one name without zero bytes. */
  lemma OneName(slot: FallbackSlot, a: Name, b: Name)
    requires |slot.systemName| == NAME_LENGTH && |a| <= NAME_LENGTH && |b| <= NAME_LENGTH
    requires ZeroFree(a) && ZeroFree(b) && Matches(slot, a) && Matches(slot, b)
    ensures a == b
  {
    NameBytes(slot, a);
    NameBytes(slot, b);
    assert |a| == |b|;
  }

  lemma NameBytes(slot: FallbackSlot, a: Name)
    requires |slot.systemName| == NAME_LENGTH && |a| <= NAME_LENGTH && Matches(slot, a)
    ensures forall k :: 0 <= k < |a| ==> slot.systemName[k] == a[k]
  {
    forall k | 0 <= k < |a| ensures slot.systemName[k] == a[k] {
      assert slot.systemName[..|a|][k] == slot.systemName[k];
    }
  }

  ghost predicate SameMatches(slots: seq<FallbackSlot>, slots': seq<FallbackSlot>, name: Name)
    requires |slots| == |slots'| && |name| <= NAME_LENGTH
    requires forall k :: 0 <= k < |slots| ==> |slots[k].systemName| == |slots'[k].systemName| == NAME_LENGTH
  {
    forall k :: 0 <= k < |slots| ==> (Matches(slots[k], name) <==> Matches(slots'[k], name))
  }

  lemma {:induction false} FindSame(slots: seq<FallbackSlot>, slots': seq<FallbackSlot>, name: Name, i: nat)
    requires |slots| == |slots'| && |name| <= NAME_LENGTH && i <= |slots|
    requires forall k :: 0 <= k < |slots| ==> |slots[k].systemName| == |slots'[k].systemName| == NAME_LENGTH
    requires SameMatches(slots, slots', name)
    ensures FindFrom(slots, name, i) == FindFrom(slots', name, i)
    decreases |slots| - i
  {
    hide Matches;
    if i < |slots| {
      FindSame(slots, slots', name, i + 1);
    }
  }

  lemma {:induction false} FindEarlier(slots: seq<FallbackSlot>, name: Name, i: nat, k: nat)
    requires i <= k < |slots| && |name| <= NAME_LENGTH
    requires forall j :: 0 <= j < |slots| ==> |slots[j].systemName| == NAME_LENGTH
    requires Matches(slots[k], name)
    ensures FindFrom(slots, name, i).Some?
    decreases k - i
  {
    if i < k {
      FindEarlier(slots, name, i + 1, k);
    }
  }

  lemma PaddedMatches(name: Name, tf: FallbackTransform)
    requires |name| <= NAME_LENGTH
    ensures Matches(FallbackSlot(Padded(name), tf, true), name)
  {
    assert Padded(name)[..|name|] == name;
  }

  /** Disabling one name leaves the fallbacks of other names alone. */
  lemma DisableKeeps(slots: seq<FallbackSlot>, i: nat, name: Name, other: Name)
    requires forall k :: 0 <= k < |slots| ==> |slots[k].systemName| == NAME_LENGTH
    requires i < |slots| && |name| <= NAME_LENGTH && |other| <= NAME_LENGTH && Matches(slots[i], name)
    requires ZeroFree(name) && ZeroFree(other) && name != other && BackedName(slots, other)
    ensures BackedName(slots[i := Disabled(slots[i])], other)
  {
    var slots' := slots[i := Disabled(slots[i])];
    FindSame(slots, slots', other, 0);
    var k := FindSlot(slots, other).value;
    if k == i {
      OneName(slots[i], name, other);
    }
  }

  /** Enabling one name leaves all enabled fallbacks enabled. */
  lemma EnableKeeps(slots: seq<FallbackSlot>, m: FallbackMessage, name: Name, other: Name)
    requires forall k :: 0 <= k < |slots| ==> |slots[k].systemName| == NAME_LENGTH
    requires 1 <= |name| <= NAME_LENGTH && |other| <= NAME_LENGTH && ZeroFree(name) && ZeroFree(other)
    requires BackedName(slots, other) && Acquire(slots, name).1.Some?
    ensures var r := Acquire(slots, name); BackedName(r.0[r.1.value := Enabled(r.0[r.1.value], m)], other)
  {
    var r := Acquire(slots, name);
    var i := r.1.value;
    var slots' := r.0[i := Enabled(r.0[i], m)];
    var k := FindSlot(slots, other).value;
    if FindSlot(slots, name).None? {
      PaddedMatches(name, NO_FALLBACK);
      if Matches(slots'[i], other) {
        OneName(r.0[i], name, other);
      }
    }
    forall j | 0 <= j < |slots| ensures Matches(slots[j], other) <==> Matches(slots'[j], other) {
    }
    FindSame(slots, slots', other, 0);
  }

  /** A message never gives two slots the same name. */
  lemma AcquireDistinct(slots: seq<FallbackSlot>, m: FallbackMessage, name: Name)
    requires forall k :: 0 <= k < |slots| ==> |slots[k].systemName| == NAME_LENGTH
    requires 1 <= |name| <= NAME_LENGTH && NamesDistinct(slots) && Acquire(slots, name).1.Some?
    ensures var r := Acquire(slots, name); NamesDistinct(r.0[r.1.value := Enabled(r.0[r.1.value], m)])
  {
    var r := Acquire(slots, name);
    var i := r.1.value;
    if FindSlot(slots, name).None? {
      PaddedMatches(name, NO_FALLBACK);
      forall j | 0 <= j < |slots| && slots[j].occupied ensures slots[j].systemName != Padded(name) {
        if slots[j].systemName == Padded(name) {
          FindEarlier(slots, name, 0, j);
        }
      }
    }
  }

  // ----- every step keeps the invariant -----

  lemma SetDeviceKeeps(s: Store, m: DeviceMessage, now: int)
    requires Inv(s)
    ensures Inv(AfterSetDevice(s, m, now))
  {
    var s' := AfterSetDevice(s, m, now);
    forall id | 0 <= id < MAX_DEVICES ensures DeviceHolds(s', id) {
      assert DeviceHolds(s, id);
    }
  }

  lemma DisableDevice(s: Store, m: FallbackMessage, now: int, id: nat)
    requires Inv(s) && |m.systemName| == NAME_LENGTH && !m.enabled && id < MAX_DEVICES
    ensures DeviceHolds(AfterSetFallback(s, m, now), id)
  {
    hide BackedName, FindSlot, Matches, NamesDistinct;
    var name := NameOf(m.systemName);
    var s' := AfterSetFallback(s, m, now);
    assert DeviceHolds(s, id);
    if name != [] && s'.transforms[id].fallbackActive && FindSlot(s.fallbacks, name).Some? {
      DisableKeeps(s.fallbacks, FindSlot(s.fallbacks, name).value, name, s.deviceSystem[id]);
    }
  }

  lemma EnableDevice(s: Store, m: FallbackMessage, now: int, id: nat)
    requires Inv(s) && |m.systemName| == NAME_LENGTH && m.enabled && id < MAX_DEVICES
    ensures DeviceHolds(AfterSetFallback(s, m, now), id)
  {
    hide BackedName, FindSlot, Matches, NamesDistinct, Acquire;
    var name := NameOf(m.systemName);
    assert DeviceHolds(s, id);
    if name != [] && s.transforms[id].fallbackActive && Acquire(s.fallbacks, name).1.Some? {
      EnableKeeps(s.fallbacks, m, name, s.deviceSystem[id]);
    }
  }

  lemma SetFallbackKeeps(s: Store, m: FallbackMessage, now: int)
    requires Inv(s) && |m.systemName| == NAME_LENGTH
    ensures Inv(AfterSetFallback(s, m, now))
  {
    var name := NameOf(m.systemName);
    var s' := AfterSetFallback(s, m, now);
    if m.enabled && name != [] && Acquire(s.fallbacks, name).1.Some? {
      AcquireDistinct(s.fallbacks, m, name);
    }
    hide DeviceHolds, Acquire, FindSlot, NameOf;
    forall id | 0 <= id < MAX_DEVICES ensures DeviceHolds(s', id) {
      if m.enabled {
        EnableDevice(s, m, now, id);
      } else {
        DisableDevice(s, m, now, id);
      }
    }
  }

  /** Moving a device leaves the flags alone. */
  lemma MovedKeeps(u: Setup, tf: DeviceTransform, pose: DriverPose, now: int)
    requires ValidSetup(u)
    ensures var t := Moved(u, tf, pose, now).0;
      t.fallbackActive == tf.fallbackActive && t.enabled == tf.enabled && t.quash == tf.quash
  {
    hide Lerp, InterpolateAround, GetTransformDeltaSize, Compose, Scale;
  }

  /** In a state of a run, the late clean-up of the fallback branch has nothing to do. */
  lemma CleanUpNeverTaken(s: Store, id: nat)
    requires Inv(s) && id < MAX_DEVICES && s.transforms[id].fallbackActive
    ensures s.deviceSystem[id] != []
    ensures var slot := FindSlot(s.fallbacks, s.deviceSystem[id]); slot.Some? && s.fallbacks[slot.value].tf.enabled
  {
    assert DeviceHolds(s, id);
  }

  lemma FallbackPartKeeps(u: Setup, s: Store, id: nat, pose: DriverPose, now: int)
    requires ValidSetup(u) && Inv(s) && id < MAX_DEVICES
    ensures Inv(FallbackPart(u, s, id, pose, now).0)
  {
    hide FindSlot, Moved, NamesDistinct;
    var s' := FallbackPart(u, s, id, pose, now).0;
    assert DeviceHolds(s, id);
    var slot := FindSlot(s.fallbacks, s.deviceSystem[id]);
    if s.deviceSystem[id] != [] && slot.Some? && s.fallbacks[slot.value].tf.enabled {
      MovedKeeps(u, Following(s.transforms[id], s.fallbacks[slot.value].tf, now), pose, now);
      FoundIs(s.fallbacks, s.deviceSystem[id]);
    }
    forall i | 0 <= i < MAX_DEVICES ensures DeviceHolds(s', i) {
      assert DeviceHolds(s, i);
    }
  }

  lemma FoundIs(slots: seq<FallbackSlot>, name: Name)
    requires forall k :: 0 <= k < |slots| ==> |slots[k].systemName| == NAME_LENGTH
    requires FindSlot(slots, name).Some?
    ensures 1 <= |name| <= NAME_LENGTH && slots[FindSlot(slots, name).value].occupied
  {
  }

  lemma HookFirstKeeps(u: Setup, s: Store, id: nat, pose: DriverPose, now: int)
    requires ValidSetup(u) && Inv(s) && id < MAX_DEVICES
    ensures Inv(HookFirst(u, s, id, pose, now).0)
  {
    hide FindSlot, Moved, NamesDistinct, FallbackPart, ShouldTry, BackedName;
    var tf := s.transforms[id].(prevQuash := s.transforms[id].quash);
    var s1 := s.(transforms := s.transforms[id := tf]);
    forall i | 0 <= i < MAX_DEVICES ensures DeviceHolds(s1, i) {
      assert DeviceHolds(s, i);
    }
    if !tf.quash && tf.enabled {
      MovedKeeps(u, tf, pose, now);
      var s2 := HookFirst(u, s, id, pose, now).0;
      forall i | 0 <= i < MAX_DEVICES ensures DeviceHolds(s2, i) {
        assert DeviceHolds(s, i);
      }
    } else if !tf.quash && !ShouldTry(u, s1, id, now) {
      FallbackPartKeeps(u, s1, id, pose, now);
    }
  }

  lemma AfterQueryKeeps(s: Store, id: nat, found: Name, now: int)
    requires Inv(s) && id < MAX_DEVICES && ZeroFree(found)
    ensures Inv(AfterQuery(s, id, found, now))
  {
    hide NamesDistinct, BackedName;
    var s' := AfterQuery(s, id, found, now);
    forall i | 0 <= i < MAX_DEVICES ensures DeviceHolds(s', i) {
      assert DeviceHolds(s, i);
    }
  }

  lemma HookSecondKeeps(u: Setup, s: Store, id: nat, found: Name, pose: DriverPose, now: int)
    requires ValidSetup(u) && Inv(s) && id < MAX_DEVICES && ZeroFree(found)
    ensures Inv(HookSecond(u, s, id, found, pose, now).0)
  {
    AfterQueryKeeps(s, id, found, now);
    FallbackPartKeeps(u, AfterQuery(s, id, found, now), id, pose, now);
  }

  // ----- runs with the mutex drop -----

  /** Resume(k, ...) is the second half of the k-th hook that is waiting for its query. */
  datatype Step =
    | SetDevice(dm: DeviceMessage, now: int)
    | SetFallback(fm: FallbackMessage, now: int)
    | Hook(id: nat, pose: DriverPose, now: int)
    | Resume(k: nat, found: Name, pose: DriverPose, now: int)

  /** Names in messages fill their buffer; names from the property store have no zero bytes. */
  predicate Proper(step: Step)
  {
    match step
    case SetDevice(_, _) => true
    case SetFallback(m, _) => |m.systemName| == NAME_LENGTH
    case Hook(id, _, _) => id < MAX_DEVICES
    case Resume(_, found, _, _) => ZeroFree(found)
  }

  datatype Machine = Machine(store: Store, waiting: seq<nat>)

  predicate WaitingOk(m: Machine)
  {
    Shape(m.store) && forall k :: 0 <= k < |m.waiting| ==> m.waiting[k] < MAX_DEVICES
  }

  function Next(u: Setup, m: Machine, step: Step): (m': Machine)
    requires ValidSetup(u) && WaitingOk(m) && Proper(step)
    ensures WaitingOk(m')
  {
    match step
    case SetDevice(msg, now) => m.(store := AfterSetDevice(m.store, msg, now))
    case SetFallback(msg, now) => m.(store := AfterSetFallback(m.store, msg, now))
    case Hook(id, pose, now) =>
      var r := HookFirst(u, m.store, id, pose, now);
      Machine(r.0, if r.2 then m.waiting + [id] else m.waiting)
    case Resume(k, found, pose, now) =>
      if k >= |m.waiting| then m
      else Machine(HookSecond(u, m.store, m.waiting[k], found, pose, now).0, m.waiting[..k] + m.waiting[k + 1..])
  }

  lemma NextKeeps(u: Setup, m: Machine, step: Step)
    requires ValidSetup(u) && WaitingOk(m) && Proper(step) && Inv(m.store)
    ensures Inv(Next(u, m, step).store)
  {
    hide Inv, HookFirst, HookSecond, AfterSetDevice, AfterSetFallback;
    match step
    case SetDevice(msg, now) => SetDeviceKeeps(m.store, msg, now);
    case SetFallback(msg, now) => SetFallbackKeeps(m.store, msg, now);
    case Hook(id, pose, now) => HookFirstKeeps(u, m.store, id, pose, now);
    case Resume(k, found, pose, now) =>
      if k < |m.waiting| {
        HookSecondKeeps(u, m.store, m.waiting[k], found, pose, now);
      }
  }

  predicate AllProper(steps: seq<Step>)
  {
    forall i :: 0 <= i < |steps| ==> Proper(steps[i])
  }

  ghost function Run(u: Setup, steps: seq<Step>): (m: Machine)
    requires ValidSetup(u) && AllProper(steps)
    ensures WaitingOk(m) && Inv(m.store)
  {
    if steps == [] then
      InitInv();
      Machine(Init(), [])
    else
      var m := Run(u, steps[..|steps| - 1]);
      NextKeeps(u, m, steps[|steps| - 1]);
      Next(u, m, steps[|steps| - 1])
  }

  /** In every reachable state, with hooks of any number of threads waiting for queries, a device that follows a
      fallback has a cached name without zero bytes, and that name has an occupied, enabled slot. */
  lemma FollowersAreBacked(u: Setup, steps: seq<Step>, id: nat)
    requires ValidSetup(u) && AllProper(steps) && id < MAX_DEVICES
    requires Run(u, steps).store.transforms[id].fallbackActive
    ensures Backed(Run(u, steps).store, id)
  {
    hide Run;
    assert DeviceHolds(Run(u, steps).store, id);
  }

  // ----- handlers that are not interrupted -----

  /** Devices that follow a fallback have no transform of their own. */
  ghost predicate Exclusive(s: Store)
    requires Shape(s)
  {
    forall id :: 0 <= id < MAX_DEVICES ==> !(s.transforms[id].fallbackActive && s.transforms[id].enabled)
  }

  /** The whole hook without anything in between. */
  function WholeHook(u: Setup, s: Store, id: nat, found: Name, pose: DriverPose, now: int): (s': Store)
    requires ValidSetup(u) && Shape(s) && id < MAX_DEVICES
    ensures Shape(s')
  {
    var r := HookFirst(u, s, id, pose, now);
    if r.2 then HookSecond(u, r.0, id, found, pose, now).0 else r.0
  }

  datatype Whole =
    | WholeSetDevice(dm: DeviceMessage, now: int)
    | WholeSetFallback(fm: FallbackMessage, now: int)
    | WholePose(id: nat, found: Name, pose: DriverPose, now: int)

  predicate ProperWhole(w: Whole)
  {
    match w
    case WholeSetDevice(_, _) => true
    case WholeSetFallback(m, _) => |m.systemName| == NAME_LENGTH
    case WholePose(id, found, _, _) => id < MAX_DEVICES && ZeroFree(found)
  }

  function NextWhole(u: Setup, s: Store, w: Whole): (s': Store)
    requires ValidSetup(u) && Shape(s) && ProperWhole(w)
    ensures Shape(s')
  {
    match w
    case WholeSetDevice(m, now) => AfterSetDevice(s, m, now)
    case WholeSetFallback(m, now) => AfterSetFallback(s, m, now)
    case WholePose(id, found, pose, now) => WholeHook(u, s, id, found, pose, now)
  }

  lemma FallbackPartExclusive(u: Setup, s: Store, id: nat, pose: DriverPose, now: int)
    requires ValidSetup(u) && Shape(s) && id < MAX_DEVICES && Exclusive(s)
    ensures Exclusive(FallbackPart(u, s, id, pose, now).0)
         <==> !(s.transforms[id].enabled && FallbackPart(u, s, id, pose, now).1.ByFallback?)
  {
    hide FindSlot, Moved;
    var slot := FindSlot(s.fallbacks, s.deviceSystem[id]);
    if s.deviceSystem[id] != [] && slot.Some? && s.fallbacks[slot.value].tf.enabled {
      MovedKeeps(u, Following(s.transforms[id], s.fallbacks[slot.value].tf, now), pose, now);
      var s' := FallbackPart(u, s, id, pose, now).0;
      assert s'.transforms[id].fallbackActive && s'.transforms[id].enabled == s.transforms[id].enabled;
    }
  }

  /** The second half of the hook keeps exclusion exactly when it does not find both an own transform, switched
      on while the mutex was dropped, and an enabled fallback for the device's system. */
  lemma ResumeExclusive(u: Setup, s: Store, id: nat, found: Name, pose: DriverPose, now: int)
    requires ValidSetup(u) && Shape(s) && id < MAX_DEVICES && Exclusive(s)
    ensures Exclusive(HookSecond(u, s, id, found, pose, now).0)
      <==> !(s.transforms[id].enabled && HasFallback(AfterQuery(s, id, found, now), id))
  {
    hide FindSlot, Moved, FallbackPart;
    var q := AfterQuery(s, id, found, now);
    FallbackPartExclusive(u, q, id, pose, now);
    PartResult(u, q, id, pose, now);
  }

  predicate HasFallback(s: Store, id: nat)
    requires Shape(s) && id < MAX_DEVICES
  {
    var slot := FindSlot(s.fallbacks, s.deviceSystem[id]);
    slot.Some? && s.fallbacks[slot.value].tf.enabled
  }

  lemma PartResult(u: Setup, s: Store, id: nat, pose: DriverPose, now: int)
    requires ValidSetup(u) && Shape(s) && id < MAX_DEVICES
    ensures FallbackPart(u, s, id, pose, now).1.ByFallback? <==> HasFallback(s, id)
  {
    hide FindFrom;
  }

  /** Handlers that run without interruption keep exclusion. */
  lemma WholeKeepsExclusion(u: Setup, s: Store, w: Whole)
    requires ValidSetup(u) && Shape(s) && ProperWhole(w) && Exclusive(s)
    ensures Exclusive(NextWhole(u, s, w))
  {
    hide FindSlot, Moved, FallbackPart, Acquire, ShouldTry, NameOf;
    match w
    case WholeSetDevice(m, now) =>
    case WholeSetFallback(m, now) =>
    case WholePose(id, found, pose, now) => HookExclusive(u, s, id, found, pose, now);
  }

  /** The first half of the hook alone keeps exclusion, whether or not it waits for a query. */
  lemma HookFirstExclusive(u: Setup, s: Store, id: nat, pose: DriverPose, now: int)
    requires ValidSetup(u) && Shape(s) && id < MAX_DEVICES && Exclusive(s)
    ensures Exclusive(HookFirst(u, s, id, pose, now).0)
  {
    hide FindSlot, Moved, FallbackPart, ShouldTry;
    var tf := s.transforms[id].(prevQuash := s.transforms[id].quash);
    var s1 := s.(transforms := s.transforms[id := tf]);
    if tf.quash {
    } else if tf.enabled {
      MovedKeeps(u, tf, pose, now);
    } else if !ShouldTry(u, s1, id, now) {
      FallbackPartExclusive(u, s1, id, pose, now);
    }
  }

  lemma HookExclusive(u: Setup, s: Store, id: nat, found: Name, pose: DriverPose, now: int)
    requires ValidSetup(u) && Shape(s) && id < MAX_DEVICES && Exclusive(s)
    ensures Exclusive(WholeHook(u, s, id, found, pose, now))
  {
    hide HookFirst, HookSecond, HasFallback, AfterQuery;
    HookFirstExclusive(u, s, id, pose, now);
    var r := HookFirst(u, s, id, pose, now);
    if r.2 {
      WaitingIsDisabled(u, s, id, pose, now);
      ResumeExclusive(u, r.0, id, found, pose, now);
    }
  }

  /** Only a device without a transform of its own waits for a query. */
  lemma WaitingIsDisabled(u: Setup, s: Store, id: nat, pose: DriverPose, now: int)
    requires ValidSetup(u) && Shape(s) && id < MAX_DEVICES && HookFirst(u, s, id, pose, now).2
    ensures !HookFirst(u, s, id, pose, now).0.transforms[id].enabled
  {
    hide FallbackPart, Moved;
  }

  ghost function WholeRun(u: Setup, ws: seq<Whole>): (s: Store)
    requires ValidSetup(u) && forall i :: 0 <= i < |ws| ==> ProperWhole(ws[i])
    ensures Shape(s)
  {
    if ws == [] then Init() else NextWhole(u, WholeRun(u, ws[..|ws| - 1]), ws[|ws| - 1])
  }

  /** With handlers that are not interrupted, a device that follows a fallback never has an own transform on. */
  lemma {:induction false} WholeRunExclusive(u: Setup, ws: seq<Whole>)
    requires ValidSetup(u) && forall i :: 0 <= i < |ws| ==> ProperWhole(ws[i])
    ensures Exclusive(WholeRun(u, ws))
  {
    hide NextWhole;
    if ws != [] {
      WholeRunExclusive(u, ws[..|ws| - 1]);
      WholeKeepsExclusion(u, WholeRun(u, ws[..|ws| - 1]), ws[|ws| - 1]);
    }
  }

  // ----- handlers that are interrupted -----

  /** The second half of a hook finds that the device has both an own transform, switched on meanwhile, and an enabled
      fallback. */
  predicate Clash(u: Setup, m: Machine, step: Step)
    requires ValidSetup(u) && WaitingOk(m) && Proper(step)
  {
    step.Resume? && step.k < |m.waiting|
    && m.store.transforms[m.waiting[step.k]].enabled
    && HasFallback(AfterQuery(m.store, m.waiting[step.k], step.found, step.now), m.waiting[step.k])
  }

  /** Every other step keeps exclusion, and a clash breaks it. */
  lemma NextExclusive(u: Setup, m: Machine, step: Step)
    requires ValidSetup(u) && WaitingOk(m) && Proper(step) && Exclusive(m.store)
    ensures Exclusive(Next(u, m, step).store) <==> !Clash(u, m, step)
  {
    hide HookFirst, HookSecond, AfterSetDevice, AfterSetFallback, AfterQuery, HasFallback, Exclusive;
    match step
    case SetDevice(msg, now) => WholeKeepsExclusion(u, m.store, WholeSetDevice(msg, now));
    case SetFallback(msg, now) => WholeKeepsExclusion(u, m.store, WholeSetFallback(msg, now));
    case Hook(id, pose, now) => HookFirstExclusive(u, m.store, id, pose, now);
    case Resume(k, found, pose, now) =>
      if k < |m.waiting| {
        ResumeExclusive(u, m.store, m.waiting[k], found, pose, now);
      }
  }

  /** The states of a run before its k-th step. */
  ghost function Before(u: Setup, steps: seq<Step>, k: nat): (m: Machine)
    requires ValidSetup(u) && AllProper(steps) && k <= |steps|
    ensures WaitingOk(m)
  {
    Run(u, steps[..k])
  }

  ghost predicate AlwaysExclusive(u: Setup, steps: seq<Step>)
    requires ValidSetup(u) && AllProper(steps)
  {
    forall k: nat :: k <= |steps| ==> Exclusive(Before(u, steps, k).store)
  }

  ghost predicate NeverClashes(u: Setup, steps: seq<Step>)
    requires ValidSetup(u) && AllProper(steps)
  {
    forall k: nat :: k < |steps| ==> !Clash(u, Before(u, steps, k), steps[k])
  }

  lemma BeforeNext(u: Setup, steps: seq<Step>, k: nat)
    requires ValidSetup(u) && AllProper(steps) && k < |steps|
    ensures Before(u, steps, k + 1) == Next(u, Before(u, steps, k), steps[k])
  {
    hide Next, Inv, WaitingOk;
    assert steps[..k + 1][..k] == steps[..k];
  }

  /** A run with any interleaving of handlers, hooks split at the query, is exclusive in all its states exactly when no
      second half ever clashes. */
  lemma RunExclusiveIff(u: Setup, steps: seq<Step>)
    requires ValidSetup(u) && AllProper(steps)
    ensures AlwaysExclusive(u, steps) <==> NeverClashes(u, steps)
  {
    hide Before, Clash, Exclusive, Next;
    if AlwaysExclusive(u, steps) {
      forall k: nat | k < |steps| ensures !Clash(u, Before(u, steps, k), steps[k]) {
        assert Exclusive(Before(u, steps, k).store) && Exclusive(Before(u, steps, k + 1).store);
        BeforeNext(u, steps, k);
        NextExclusive(u, Before(u, steps, k), steps[k]);
      }
    }
    if NeverClashes(u, steps) {
      forall k: nat | k <= |steps| ensures Exclusive(Before(u, steps, k).store) {
        ExclusiveUpTo(u, steps, k);
      }
    }
  }

  lemma StartExclusive(u: Setup, steps: seq<Step>)
    requires ValidSetup(u) && AllProper(steps)
    ensures Exclusive(Before(u, steps, 0).store)
  {
    hide Inv, Next;
    assert steps[..0] == [];
  }

  lemma {:induction false} ExclusiveUpTo(u: Setup, steps: seq<Step>, k: nat)
    requires ValidSetup(u) && AllProper(steps) && NeverClashes(u, steps) && k <= |steps|
    ensures Exclusive(Before(u, steps, k).store)
  {
    hide Before, Clash, Exclusive, Next;
    if k == 0 {
      StartExclusive(u, steps);
    } else {
      ExclusiveUpTo(u, steps, k - 1);
      BeforeNext(u, steps, k - 1);
      NextExclusive(u, Before(u, steps, k - 1), steps[k - 1]);
    }
  }

  // ----- what the mutex drop makes possible -----

  lemma {:induction false} NameOfPadded(name: Name, n: nat)
    requires ZeroFree(name)
    ensures NameOf(name + Padding(n)) == name
  {
    if name == [] {
      assert name + Padding(n) == Padding(n);
    } else {
      assert (name + Padding(n))[1..] == name[1..] + Padding(n);
      assert ZeroFree(name[1..]) by {
        forall i | 0 <= i < |name[1..]| ensures name[1..][i] != 0 {
          assert name[1..][i] == name[i + 1];
        }
      }
      NameOfPadded(name[1..], n);
    }
  }

  /** The first half of a hook for a device nobody knows waits for a query. */
  lemma UnknownDeviceWaits(u: Setup, pose: DriverPose)
    requires ValidSetup(u)
    ensures var r := HookFirst(u, Init(), 0, pose, 0); r.2 && r.0 == Init()
  {
    hide FallbackPart, Moved;
    assert Init().transforms[0 := NO_DEVICE] == Init().transforms;
  }

  const SYSTEM: Name := [65]

  function EnableMessage(): DeviceMessage
  {
    DeviceMessage(0, true, Padded(SYSTEM), false, Vec(0.0, 0.0, 0.0), false, ONE, false, 1.0, false, false, false)
  }

  function FallbackOn(): FallbackMessage
  {
    FallbackMessage(Padded(SYSTEM), true, Vec(0.0, 0.0, 0.0), ONE, 1.0, false)
  }

  /** A run that breaks exclusion: while a hook for device 0 waits for its query, messages switch the device's own
      transform on and install a fallback for its system; the hook then follows the fallback all the same. */
  lemma SplitHookBreaksExclusion(u: Setup, pose: DriverPose)
    requires ValidSetup(u)
    ensures var r := HookFirst(u, Init(), 0, pose, 0);
      var s2 := AfterSetFallback(AfterSetDevice(r.0, EnableMessage(), 0), FallbackOn(), 0);
      r.2 && Exclusive(r.0) && Exclusive(s2) && !Exclusive(HookSecond(u, s2, 0, SYSTEM, pose, 0).0)
  {
    UnknownDeviceWaits(u, pose);
    NameOfPadded(SYSTEM, NAME_LENGTH - 1);
    assert Padded(SYSTEM) == SYSTEM + Padding(NAME_LENGTH - 1);
    hide HookFirst, HookSecond, FallbackPart, Moved, NameOf;
    var s1 := AfterSetDevice(Init(), EnableMessage(), 0);
    assert s1.deviceSystem[0] == SYSTEM && s1.lookupState[0] == Cached && s1.transforms[0].enabled;
    var s2 := AfterSetFallback(s1, FallbackOn(), 0);
    NoNamesAtStart();
    FirstFallback(s1);
    ResumeExclusive(u, s2, 0, SYSTEM, pose, 0);
  }

  lemma NoNamesAtStart()
    ensures forall k :: 0 <= k < MAX_SLOTS ==> !Init().fallbacks[k].occupied
  {
  }

  /** The first fallback to be installed takes slot 0 and is found under its name. */
  lemma FirstFallback(s: Store)
    requires Shape(s) && forall k :: 0 <= k < MAX_SLOTS ==> !s.fallbacks[k].occupied
    requires NameOf(FallbackOn().systemName) == SYSTEM && s.deviceSystem[0] == SYSTEM
    ensures var s' := AfterSetFallback(s, FallbackOn(), 0);
      s'.transforms == s.transforms && s'.deviceSystem == s.deviceSystem && s'.lookupState == s.lookupState && HasFallback(s', 0)
  {
    PaddedMatches(SYSTEM, NO_FALLBACK);
    hide NameOf, Padded;
    assert FindSlot(s.fallbacks, SYSTEM) == None;
    var s' := AfterSetFallback(s, FallbackOn(), 0);
    assert Matches(s'.fallbacks[0], SYSTEM);
  }
}
