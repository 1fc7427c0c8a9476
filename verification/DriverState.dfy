/** The state that the driver's mutex guards, and what each handler makes of it. */
module DriverState {
  import opened Bits
  import opened Options
  import opened Isometry
  import opened Blend

  const MAX_DEVICES: nat := 64

  const MAX_SLOTS: nat := 8

  const NAME_LENGTH: nat := 32

  type Name = seq<byte>

  datatype Lookup = NotTried | Cached | Failed

  datatype FallbackTransform = FallbackTransform(enabled: bool, transform: IsoTransform, scale: real, recalibrateOnMovement: bool)

  /** One row of the fallback table; the name is padded with zero bytes. */
  datatype FallbackSlot = FallbackSlot(systemName: Name, tf: FallbackTransform, occupied: bool)

  datatype Store = Store(
    transforms: seq<DeviceTransform>, deviceSystem: seq<Name>, lookupState: seq<Lookup>, lastLookupAttempt: seq<int>,
    fallbacks: seq<FallbackSlot>)

  predicate Shape(s: Store)
  {
    && |s.transforms| == |s.deviceSystem| == |s.lookupState| == |s.lastLookupAttempt| == MAX_DEVICES
    && |s.fallbacks| == MAX_SLOTS && forall i :: 0 <= i < MAX_SLOTS ==> |s.fallbacks[i].systemName| == NAME_LENGTH
  }

  // ----- names -----

  /** A name in a fixed buffer ends at the first zero byte or with the buffer. */
  function NameOf(buffer: Name): (name: Name)
    ensures |name| <= |buffer| && name == buffer[..|name|]
    ensures |name| < |buffer| ==> buffer[|name|] == 0
    ensures ZeroFree(name)
  {
    if buffer == [] || buffer[0] == 0 then [] else [buffer[0]] + NameOf(buffer[1..])
  }

  predicate ZeroFree(name: Name)
  {
    forall i :: 0 <= i < |name| ==> name[i] != 0
  }

  function Padding(n: nat): (p: Name)
    ensures |p| == n && forall i :: 0 <= i < n ==> p[i] == 0
  {
    seq<byte>(n, (i: nat) => 0)
  }

  function Padded(name: Name): (b: Name)
    requires |name| <= NAME_LENGTH
    ensures |b| == NAME_LENGTH
  {
    name + Padding(NAME_LENGTH - |name|)
  }

  /** Whether a slot is occupied under a name. */
  predicate Matches(slot: FallbackSlot, name: Name)
    requires |slot.systemName| == NAME_LENGTH && |name| <= NAME_LENGTH
  {
    slot.occupied && slot.systemName[..|name|] == name && (|name| == NAME_LENGTH || slot.systemName[|name|] == 0)
  }

  function FindFrom(slots: seq<FallbackSlot>, name: Name, i: nat): (r: Option<nat>)
    requires i <= |slots| && |name| <= NAME_LENGTH && forall k :: 0 <= k < |slots| ==> |slots[k].systemName| == NAME_LENGTH
    ensures r.Some? ==> i <= r.value < |slots| && Matches(slots[r.value], name)
    ensures r.None? ==> forall k :: i <= k < |slots| ==> !Matches(slots[k], name)
    decreases |slots| - i
  {
    if i == |slots| then None else if Matches(slots[i], name) then Some(i) else FindFrom(slots, name, i + 1)
  }

  /** The first slot with the name; names that are empty or too long are never found. */
  function FindSlot(slots: seq<FallbackSlot>, name: Name): (r: Option<nat>)
    requires forall k :: 0 <= k < |slots| ==> |slots[k].systemName| == NAME_LENGTH
    ensures r.Some? ==> r.value < |slots| && 1 <= |name| <= NAME_LENGTH && Matches(slots[r.value], name)
  {
    if name == [] || |name| > NAME_LENGTH then None else FindFrom(slots, name, 0)
  }

  function FreeFrom(slots: seq<FallbackSlot>, i: nat): (r: Option<nat>)
    requires i <= |slots|
    ensures r.Some? ==> i <= r.value < |slots| && !slots[r.value].occupied
    ensures r.None? ==> forall k :: i <= k < |slots| ==> slots[k].occupied
    decreases |slots| - i
  {
    if i == |slots| then None else if !slots[i].occupied then Some(i) else FreeFrom(slots, i + 1)
  }

  const NO_FALLBACK := FallbackTransform(false, IDENTITY, 1.0, false)

  const IDENTITY := IsoTransform(ONE, Vec(0.0, 0.0, 0.0))

  /** The slot for a name, new if needed; the full table yields none, and so does a name that is empty or too long. */
  function Acquire(slots: seq<FallbackSlot>, name: Name): (r: (seq<FallbackSlot>, Option<nat>))
    requires forall k :: 0 <= k < |slots| ==> |slots[k].systemName| == NAME_LENGTH
    ensures |r.0| == |slots| && forall k :: 0 <= k < |slots| ==> |r.0[k].systemName| == NAME_LENGTH
    ensures r.1.Some? ==> r.1.value < |slots| && 1 <= |name| <= NAME_LENGTH
  {
    if name == [] || |name| > NAME_LENGTH then (slots, None)
    else
      match FindSlot(slots, name)
      case Some(i) => (slots, Some(i))
      case None =>
        match FreeFrom(slots, 0)
        case None => (slots, None)
        case Some(i) => (slots[i := FallbackSlot(Padded(name), NO_FALLBACK, true)], Some(i))
  }

  // ----- messages -----

  datatype DeviceMessage = DeviceMessage(
    openVRID: nat, enabled: bool, targetSystem: Name, updateTranslation: bool, translation: Vec,
    updateRotation: bool, rotation: Quat, updateScale: bool, scale: real, lerp: bool, quash: bool,
    recalibrateOnMovement: bool)

  datatype FallbackMessage = FallbackMessage(
    systemName: Name, enabled: bool, translation: Vec, rotation: Quat, scale: real, recalibrateOnMovement: bool)

  /** The slot of a device behind a SetDeviceTransform message. */
  function AfterMessage(tf: DeviceTransform, m: DeviceMessage, now: int): DeviceTransform
  {
    var target := IsoTransform(
      if m.updateRotation then m.rotation else tf.targetTransform.rotation,
      if m.updateTranslation then m.translation else tf.targetTransform.translation);
    var moved := IsoTransform(
      if m.updateRotation && !m.lerp then m.rotation else tf.transform.rotation,
      if m.updateTranslation && !m.lerp then m.translation else tf.transform.translation);
    var transform := if !tf.enabled && m.enabled then target else moved;
    tf.(enabled := m.enabled, fallbackActive := false,
        blendMotionInitialized := tf.blendMotionInitialized && !(tf.recalibrateOnMovement && !m.recalibrateOnMovement),
        recalibrateOnMovement := m.recalibrateOnMovement,
        transform := transform, targetTransform := if tf.enabled && !m.enabled then transform else target,
        scale := if m.updateScale then m.scale else tf.scale, quash := m.quash,
        lastPoll := now, currentRate := TINY)
  }

  function AfterSetDevice(s: Store, m: DeviceMessage, now: int): (s': Store)
    requires Shape(s)
    ensures Shape(s')
  {
    if m.openVRID >= MAX_DEVICES then s
    else
      var id, name := m.openVRID, NameOf(m.targetSystem);
      s.(transforms := s.transforms[id := AfterMessage(s.transforms[id], m, now)],
         deviceSystem := s.deviceSystem[id := name],
         lookupState := s.lookupState[id := if |name| > 0 then Cached else NotTried])
  }

  /** Stops following a fallback. */
  function Released(tf: DeviceTransform, now: int): DeviceTransform
  {
    tf.(fallbackActive := false, targetTransform := tf.transform, currentRate := TINY, lastPoll := now)
  }

  /** The first n devices, with those that follow the named fallback released. */
  function ReleaseAll(s: Store, name: Name, now: int, n: nat): (r: seq<DeviceTransform>)
    requires Shape(s) && n <= MAX_DEVICES
    ensures |r| == MAX_DEVICES
    ensures forall id :: 0 <= id < MAX_DEVICES ==>
      r[id] == if id < n && s.transforms[id].fallbackActive && s.deviceSystem[id] == name
               then Released(s.transforms[id], now) else s.transforms[id]
  {
    seq<DeviceTransform>(MAX_DEVICES, (id: nat) requires id < MAX_DEVICES =>
      if id < n && s.transforms[id].fallbackActive && s.deviceSystem[id] == name
      then Released(s.transforms[id], now) else s.transforms[id])
  }

  function Enabled(slot: FallbackSlot, m: FallbackMessage): FallbackSlot
  {
    slot.(tf := FallbackTransform(true, IsoTransform(m.rotation, m.translation), m.scale, m.recalibrateOnMovement))
  }

  function Disabled(slot: FallbackSlot): FallbackSlot
  {
    slot.(tf := slot.tf.(enabled := false))
  }

  function AfterSetFallback(s: Store, m: FallbackMessage, now: int): (s': Store)
    requires Shape(s) && |m.systemName| == NAME_LENGTH
    ensures Shape(s')
  {
    var name := NameOf(m.systemName);
    if name == [] then s
    else if !m.enabled then
      s.(transforms := ReleaseAll(s, name, now, MAX_DEVICES),
         fallbacks := match FindSlot(s.fallbacks, name)
                      case None => s.fallbacks
                      case Some(i) => s.fallbacks[i := Disabled(s.fallbacks[i])])
    else
      var r := Acquire(s.fallbacks, name);
      match r.1
      case None => s
      case Some(i) => s.(fallbacks := r.0[i := Enabled(r.0[i], m)])
  }

  // ----- poses -----

  datatype DriverPose = DriverPose(worldFromDriver: IsoTransform, rotation: Quat, position: Vec)

  /** What the hook does to a pose. */
  datatype HookResult = Untouched | Hidden | PerDevice(pose: DriverPose) | ByFallback(pose: DriverPose)

  /** The constants that handlers use. */
  datatype Setup = Setup(num: Numerics, params: SpeedParams, freq: int)

  predicate ValidSetup(u: Setup)
  {
    u.freq > 0
  }

  function Scaled(pose: DriverPose, k: real): DriverPose
  {
    pose.(position := Scale(k, pose.position))
  }

  function WorldPose(num: Numerics, pose: DriverPose): IsoTransform
  {
    Compose(num, pose.worldFromDriver, IsoTransform(pose.rotation, pose.position))
  }

  function Applied(num: Numerics, tf: DeviceTransform, pose: DriverPose): DriverPose
  {
    pose.(worldFromDriver := Compose(num, tf.transform, pose.worldFromDriver))
  }

  /** A frame of a device that is moved: its slot and its pose. */
  function Moved(u: Setup, tf: DeviceTransform, pose: DriverPose, now: int): (DeviceTransform, DriverPose)
    requires ValidSetup(u)
  {
    var scaled := Scaled(pose, tf.scale);
    var tf' := Frame(u.num, u.params, u.freq, tf, WorldPose(u.num, scaled), now);
    (tf', Applied(u.num, tf', scaled))
  }

  /** The slot of a device that takes over a fallback's settings, before it is moved. */
  function Following(tf: DeviceTransform, fb: FallbackTransform, now: int): DeviceTransform
  {
    var t := tf.(targetTransform := fb.transform, scale := fb.scale,
                 blendMotionInitialized := tf.blendMotionInitialized && !(tf.recalibrateOnMovement && !fb.recalibrateOnMovement),
                 recalibrateOnMovement := fb.recalibrateOnMovement);
    if tf.fallbackActive then t else t.(transform := fb.transform, fallbackActive := true, currentRate := TINY, lastPoll := now)
  }

  /** The end of the hook for a device without a transform of its own. */
  function FallbackPart(u: Setup, s: Store, id: nat, pose: DriverPose, now: int): (r: (Store, HookResult))
    requires ValidSetup(u) && Shape(s) && id < MAX_DEVICES
    ensures Shape(r.0)
  {
    var tf := s.transforms[id];
    if s.deviceSystem[id] == [] then (s, Untouched)
    else
      var slot := FindSlot(s.fallbacks, s.deviceSystem[id]);
      if slot.Some? && s.fallbacks[slot.value].tf.enabled then
        var m := Moved(u, Following(tf, s.fallbacks[slot.value].tf, now), pose, now);
        (s.(transforms := s.transforms[id := m.0]), ByFallback(m.1))
      else if tf.fallbackActive then (s.(transforms := s.transforms[id := Released(tf, now)]), Untouched)
      else (s, Untouched)
  }

  /** A device whose tracking system is unknown is looked up, but after a failure only once a second. */
  predicate ShouldTry(u: Setup, s: Store, id: nat, now: int)
    requires Shape(s) && id < MAX_DEVICES
  {
    && s.deviceSystem[id] == [] && !s.lookupState[id].Cached?
    && !(s.lookupState[id].Failed? && u.freq > 0 && now - s.lastLookupAttempt[id] < u.freq)
  }

  /** The first half of the hook; pending means that the mutex is dropped for a query. */
  function HookFirst(u: Setup, s: Store, id: nat, pose: DriverPose, now: int): (r: (Store, HookResult, bool))
    requires ValidSetup(u) && Shape(s) && id < MAX_DEVICES
    ensures Shape(r.0)
  {
    var tf := s.transforms[id].(prevQuash := s.transforms[id].quash);
    var s1 := s.(transforms := s.transforms[id := tf]);
    if tf.quash then (s1, Hidden, false)
    else if tf.enabled then
      var m := Moved(u, tf, pose, now);
      (s1.(transforms := s1.transforms[id := m.0]), PerDevice(m.1), false)
    else if ShouldTry(u, s1, id, now) then (s1, Untouched, true)
    else
      var r := FallbackPart(u, s1, id, pose, now);
      (r.0, r.1, false)
  }

  /** What the query found is kept unless a message has set the system meanwhile. */
  function AfterQuery(s: Store, id: nat, found: Name, now: int): (s': Store)
    requires Shape(s) && id < MAX_DEVICES
    ensures Shape(s')
  {
    if s.lookupState[id].Cached? then s
    else if found != [] then
      s.(deviceSystem := s.deviceSystem[id := found], lookupState := s.lookupState[id := Cached])
    else
      s.(lookupState := s.lookupState[id := Failed], lastLookupAttempt := s.lastLookupAttempt[id := now])
  }

  /** The second half, with the mutex taken again; an empty name means that the query failed. */
  function HookSecond(u: Setup, s: Store, id: nat, found: Name, pose: DriverPose, now: int): (r: (Store, HookResult))
    requires ValidSetup(u) && Shape(s) && id < MAX_DEVICES
    ensures Shape(r.0)
  {
    FallbackPart(u, AfterQuery(s, id, found, now), id, pose, now)
  }
}
