/** The flat table of fallbacks behaves like a map from system names to settings. */
module FallbackTable {
  import opened Options
  import opened Isometry
  import opened DriverState
  import opened DriverRuns

  ghost predicate Table(slots: seq<FallbackSlot>)
  {
    forall k :: 0 <= k < |slots| ==> |slots[k].systemName| == NAME_LENGTH
  }

  /** A name as messages and lookups give it. */
  predicate ProperName(name: Name)
  {
    1 <= |name| <= NAME_LENGTH && ZeroFree(name)
  }

  /** What the table holds under a name. */
  ghost function Entry(slots: seq<FallbackSlot>, name: Name): Option<FallbackTransform>
    requires Table(slots)
  {
    match FindSlot(slots, name)
    case None => None
    case Some(i) => Some(slots[i].tf)
  }

  /** A slot that holds a name, or is free, may change under that name without a trace under any other. */
  lemma OtherEntry(slots: seq<FallbackSlot>, i: nat, slot: FallbackSlot, name: Name, other: Name)
    requires Table(slots) && i < |slots| && |slot.systemName| == NAME_LENGTH
    requires ProperName(name) && ProperName(other) && other != name
    requires Matches(slots[i], name) || !slots[i].occupied
    requires Matches(slot, name)
    ensures Entry(slots[i := slot], other) == Entry(slots, other)
  {
    var slots' := slots[i := slot];
    NoOther(slots[i], name, other);
    NoOther(slot, name, other);
    hide Matches;
    FindSame(slots, slots', other, 0);
  }

  lemma NoOther(slot: FallbackSlot, name: Name, other: Name)
    requires |slot.systemName| == NAME_LENGTH && ProperName(name) && ProperName(other) && other != name
    requires Matches(slot, name) || !slot.occupied
    ensures !Matches(slot, other)
  {
    if Matches(slot, other) {
      OneName(slot, name, other);
    }
  }

  /** The first slot with the name stays the first one when it changes under that name; a free slot becomes the first
      one when there was none. */
  lemma OwnEntry(slots: seq<FallbackSlot>, i: nat, slot: FallbackSlot, name: Name)
    requires Table(slots) && i < |slots| && |slot.systemName| == NAME_LENGTH && ProperName(name) && Matches(slot, name)
    requires FindSlot(slots, name) == Some(i) || FindSlot(slots, name) == None
    ensures Entry(slots[i := slot], name) == Some(slot.tf)
  {
    hide Matches;
    FirstStays(slots, i, slot, name, 0);
  }

  lemma {:induction false} FirstStays(slots: seq<FallbackSlot>, i: nat, slot: FallbackSlot, name: Name, k: nat)
    requires Table(slots) && k <= i < |slots| && |slot.systemName| == NAME_LENGTH && ProperName(name) && Matches(slot, name)
    requires FindFrom(slots, name, k) == Some(i) || FindFrom(slots, name, k) == None
    ensures FindFrom(slots[i := slot], name, k) == Some(i)
    decreases i - k
  {
    hide Matches;
    if k < i {
      FirstStays(slots, i, slot, name, k + 1);
    }
  }

  /** An enabling message puts the transform under its name and changes nothing under any other. */
  lemma EnableActs(s: Store, m: FallbackMessage, now: int, other: Name)
    requires Shape(s) && |m.systemName| == NAME_LENGTH && m.enabled && NameOf(m.systemName) != []
    requires Acquire(s.fallbacks, NameOf(m.systemName)).1.Some? && ProperName(other)
    ensures Table(s.fallbacks) && Table(AfterSetFallback(s, m, now).fallbacks)
    ensures Entry(AfterSetFallback(s, m, now).fallbacks, other)
         == if other == NameOf(m.systemName)
            then Some(FallbackTransform(true, IsoTransform(m.rotation, m.translation), m.scale, m.recalibrateOnMovement))
            else Entry(s.fallbacks, other)
    ensures AfterSetFallback(s, m, now) == s.(fallbacks := AfterSetFallback(s, m, now).fallbacks)
  {
    var name := NameOf(m.systemName);
    var r := Acquire(s.fallbacks, name);
    var i := r.1.value;
    var slot := Enabled(r.0[i], m);
    PaddedMatches(name, NO_FALLBACK);
    hide Matches, FindFrom;
    assert r.0[i := slot] == s.fallbacks[i := slot];
    assert Matches(slot, name) by {
      SameName(r.0[i], slot, name);
    }
    if other == name {
      OwnEntry(s.fallbacks, i, slot, name);
    } else {
      OtherEntry(s.fallbacks, i, slot, name, other);
    }
  }

  lemma SameName(slot: FallbackSlot, slot': FallbackSlot, name: Name)
    requires |slot.systemName| == NAME_LENGTH && |name| <= NAME_LENGTH && Matches(slot, name)
    requires slot' == slot.(tf := slot'.tf)
    ensures Matches(slot', name)
  {
  }

  /** A name is refused exactly when it is new and all slots are taken; then nothing changes. */
  lemma RefusedWhenFull(s: Store, m: FallbackMessage, now: int)
    requires Shape(s) && |m.systemName| == NAME_LENGTH && m.enabled && NameOf(m.systemName) != []
    ensures Table(s.fallbacks)
    ensures Acquire(s.fallbacks, NameOf(m.systemName)).1.None?
        <==> Entry(s.fallbacks, NameOf(m.systemName)).None? && forall k :: 0 <= k < MAX_SLOTS ==> s.fallbacks[k].occupied
    ensures Acquire(s.fallbacks, NameOf(m.systemName)).1.None? ==> AfterSetFallback(s, m, now) == s
  {
    hide Matches, FindFrom;
  }

  /** A disabling message disables the entry under its name, leaves all other entries alone, and releases exactly the
      devices of that system that follow it. */
  lemma DisableActs(s: Store, m: FallbackMessage, now: int, other: Name)
    requires Shape(s) && |m.systemName| == NAME_LENGTH && !m.enabled && NameOf(m.systemName) != [] && ProperName(other)
    ensures Table(s.fallbacks) && Table(AfterSetFallback(s, m, now).fallbacks)
    ensures Entry(AfterSetFallback(s, m, now).fallbacks, other)
         == if other == NameOf(m.systemName) && Entry(s.fallbacks, other).Some?
            then Some(Entry(s.fallbacks, other).value.(enabled := false))
            else Entry(s.fallbacks, other)
    ensures forall id: nat :: id < MAX_DEVICES ==>
      var follows := s.transforms[id].fallbackActive && s.deviceSystem[id] == NameOf(m.systemName);
      AfterSetFallback(s, m, now).transforms[id] == if follows then Released(s.transforms[id], now) else s.transforms[id]
  {
    var name := NameOf(m.systemName);
    hide Matches, FindFrom;
    if FindSlot(s.fallbacks, name).Some? {
      var i := FindSlot(s.fallbacks, name).value;
      SameName(s.fallbacks[i], Disabled(s.fallbacks[i]), name);
      if other == name {
        OwnEntry(s.fallbacks, i, Disabled(s.fallbacks[i]), name);
      } else {
        OtherEntry(s.fallbacks, i, Disabled(s.fallbacks[i]), name, other);
      }
    }
  }
}
