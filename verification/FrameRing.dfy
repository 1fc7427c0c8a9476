/** The face-tracking frame ring: 32 seqlocked slots and a publish index, one writer and any number of
    readers in interleaved atomic steps. */
module FrameRing {
  import opened SharedSlot

  const RING_SIZE: nat := 32

  /** Where Publish stands: Numbered has read the publish index, Ready also the slot's generation, Filling is
      copying, and Stamped has made the generation even but not yet stored the index. */
  datatype Publisher =
    | Resting
    | Numbered(body: Body, next: nat)
    | Ready(body: Body, next: nat, prev: nat)
    | Filling(body: Body, next: nat, prev: nat, done: set<nat>)
    | Stamped(next: nat)

  /** What a caller asks for. */
  datatype Request = Latest | ByIndex(target: nat)

  /** Where a reading call stands. `want` is the frame number it looks for. A call that returned remembers the
      number of the frame it got, and the publish index and the number of stamped frames at that moment; the code
      uses none of them. */
  datatype Fetch =
    | Asked(ask: Request, max: nat, out: Body)
    | Trying(ask: Request, want: nat, attempt: nat, max: nat, out: Body)
    | Reading(ask: Request, want: nat, attempt: nat, max: nat, out: Body, g1: nat, got: set<nat>)
    | Done(ask: Request, want: nat, ok: bool, out: Body, frame: nat, at: nat, stamped: nat)

  /** frames[f - 1] is the body of frame f; the list holds the frames whose slot was stamped. */
  datatype Ring = Ring(index: nat, slots: seq<Slot>, writer: Publisher, readers: map<nat, Fetch>, frames: seq<Body>)

  datatype Event =
    | BeginPublish(body: Body)
    | LoadGeneration
    | MarkOdd
    | CopyIn(k: nat)
    | StampEven
    | StoreIndex
    | Ask(r: nat, ask: Request, max: nat, out: Body)
    | LoadIndex(r: nat)
    | LoadBefore(r: nat)
    | CopyOut(r: nat, k: nat)
    | LoadAfter(r: nat)

  function SlotOf(f: nat): (i: nat)
    requires f >= 1
    ensures i < RING_SIZE
  {
    (f - 1) % RING_SIZE
  }

  function Init(n: nat): Ring
  {
    Ring(0, seq(RING_SIZE, (i: nat) => Slot(0, ZeroBody(n))), Resting, map[], [])
  }

  function WriterEvent(s: Ring, n: nat, e: Event): Ring
    requires |s.slots| == RING_SIZE
  {
    match e
    case BeginPublish(body) =>
      if s.writer.Resting? && |body| == n then s.(writer := Numbered(body, s.index + 1)) else s
    case LoadGeneration =>
      if s.writer.Numbered? && s.writer.next >= 1
      then s.(writer := Ready(s.writer.body, s.writer.next, s.slots[SlotOf(s.writer.next)].generation)) else s
    case MarkOdd =>
      if s.writer.Ready? && s.writer.next >= 1 then
        var w := s.writer;
        s.(slots := s.slots[SlotOf(w.next) := s.slots[SlotOf(w.next)].(generation := w.prev + 1)],
           writer := Filling(w.body, w.next, w.prev, {}))
      else s
    case CopyIn(k) =>
      if s.writer.Filling? && s.writer.next >= 1 && k < |s.writer.body| && k < |s.slots[SlotOf(s.writer.next)].body| then
        var w := s.writer;
        var slot := s.slots[SlotOf(w.next)];
        s.(slots := s.slots[SlotOf(w.next) := slot.(body := slot.body[k := w.body[k]])],
           writer := Filling(w.body, w.next, w.prev, w.done + {k}))
      else s
    case StampEven =>
      if s.writer.Filling? && s.writer.next >= 1 && s.writer.done == Pieces(n) then
        var w := s.writer;
        s.(slots := s.slots[SlotOf(w.next) := s.slots[SlotOf(w.next)].(generation := w.prev + 2)],
           writer := Stamped(w.next), frames := s.frames + [w.body])
      else s
    case StoreIndex =>
      if s.writer.Stamped? then s.(index := s.writer.next, writer := Resting) else s
    case _ => s
  }

  /** A reader that reads the publish index: it refuses, or picks a slot. */
  function AfterIndex(t: Fetch, index: nat, stamped: nat): Fetch
    requires t.Asked?
  {
    match t.ask
    case Latest =>
      if index == 0 then Done(Latest, 0, false, t.out, 0, index, stamped) else Trying(Latest, index, 0, t.max, t.out)
    case ByIndex(target) =>
      if target == 0 || target > index || index - target >= RING_SIZE then Done(t.ask, target, false, t.out, 0, index, stamped)
      else Trying(t.ask, target, 0, t.max, t.out)
  }

  function AfterFirstLoad(t: Fetch, g1: nat, index: nat, stamped: nat): Fetch
    requires t.Trying?
  {
    if t.attempt >= t.max then Done(t.ask, t.want, false, t.out, 0, index, stamped)
    else if g1 % 2 != 0 then Trying(t.ask, t.want, t.attempt + 1, t.max, t.out)
    else Reading(t.ask, t.want, t.attempt, t.max, t.out, g1, {})
  }

  function AfterCopy(t: Fetch, k: nat, v: int): Fetch
    requires t.Reading? && k < |t.out|
  {
    Reading(t.ask, t.want, t.attempt, t.max, t.out[k := v], t.g1, t.got + {k})
  }

  function AfterSecondLoad(t: Fetch, g2: nat, index: nat, stamped: nat): Fetch
    requires t.Reading? && t.want >= 1
  {
    if t.g1 == g2 then Done(t.ask, t.want, true, t.out, FrameAt(SlotOf(t.want), t.g1 / 2), index, stamped)
    else Trying(t.ask, t.want, t.attempt + 1, t.max, t.out)
  }

  function ReaderEvent(s: Ring, n: nat, e: Event): Ring
    requires |s.slots| == RING_SIZE
  {
    match e
    case Ask(r, ask, max, out) =>
      if |out| == n && (r in s.readers ==> s.readers[r].Done?) then s.(readers := s.readers[r := Asked(ask, max, out)]) else s
    case LoadIndex(r) =>
      if r in s.readers && s.readers[r].Asked?
      then s.(readers := s.readers[r := AfterIndex(s.readers[r], s.index, |s.frames|)]) else s
    case LoadBefore(r) =>
      if r in s.readers && s.readers[r].Trying? && s.readers[r].want >= 1
      then s.(readers := s.readers[r := AfterFirstLoad(s.readers[r], s.slots[SlotOf(s.readers[r].want)].generation, s.index, |s.frames|)])
      else s
    case CopyOut(r, k) =>
      if r in s.readers && s.readers[r].Reading? && s.readers[r].want >= 1
         && k < |s.readers[r].out| && k < |s.slots[SlotOf(s.readers[r].want)].body|
      then s.(readers := s.readers[r := AfterCopy(s.readers[r], k, s.slots[SlotOf(s.readers[r].want)].body[k])])
      else s
    case LoadAfter(r) =>
      if r in s.readers && s.readers[r].Reading? && s.readers[r].want >= 1 && s.readers[r].got == Pieces(n)
      then s.(readers := s.readers[r := AfterSecondLoad(s.readers[r], s.slots[SlotOf(s.readers[r].want)].generation, s.index, |s.frames|)])
      else s
    case _ => s
  }

  predicate IsWriterEvent(e: Event)
  {
    e.BeginPublish? || e.LoadGeneration? || e.MarkOdd? || e.CopyIn? || e.StampEven? || e.StoreIndex?
  }

  function Apply(s: Ring, n: nat, e: Event): Ring
    requires |s.slots| == RING_SIZE
  {
    if IsWriterEvent(e) then WriterEvent(s, n, e) else ReaderEvent(s, n, e)
  }

  // ----- which frames a slot has held -----

  /** How many of the frames 1, ..., c went to slot i. */
  function Held(i: nat, c: nat): nat
    requires i < RING_SIZE
  {
    (c + (RING_SIZE - 1 - i)) / RING_SIZE
  }

  /** The number of the c-th frame in slot i. */
  function FrameAt(i: nat, c: nat): nat
  {
    if c == 0 then 0 else i + 1 + RING_SIZE * (c - 1)
  }

  lemma HeldStep(i: nat, c: nat)
    requires i < RING_SIZE
    ensures Held(i, c + 1) == Held(i, c) + (if SlotOf(c + 1) == i then 1 else 0)
    ensures SlotOf(c + 1) == i ==> FrameAt(i, Held(i, c + 1)) == c + 1
    ensures Held(i, 0) == 0
  {
  }

  lemma HeldBounds(i: nat, c: nat)
    requires i < RING_SIZE
    ensures FrameAt(i, Held(i, c)) <= c
    ensures Held(i, c) <= Held(i, c + 1)
  {
  }

  /** The slot of a frame that is complete has held it. */
  lemma HeldReaches(want: nat, c: nat)
    requires 1 <= want <= c
    ensures FrameAt(SlotOf(want), Held(SlotOf(want), c)) >= want && Held(SlotOf(want), c) >= 1
  {
  }

  /** The newest of c frames in the slot of a wanted one is the wanted one until 32 frames later. */
  lemma NewestInSlot(want: nat, c: nat)
    requires 1 <= want <= c
    ensures FrameAt(SlotOf(want), Held(SlotOf(want), c)) == want <==> c <= want + 31
  {
    var i, q := SlotOf(want), (want - 1) / RING_SIZE;
    assert want == RING_SIZE * q + i + 1;
    if c <= want + 31 {
      assert (c + (RING_SIZE - 1 - i)) / RING_SIZE == q + 1;
    } else {
      assert (c + (RING_SIZE - 1 - i)) / RING_SIZE >= q + 2;
    }
  }

  lemma FrameCongruent(want: nat, c: nat)
    requires want >= 1 && c >= 1
    ensures FrameAt(SlotOf(want), c) % RING_SIZE == want % RING_SIZE
  {
    var q := (want - 1) / RING_SIZE;
    assert want == RING_SIZE * q + SlotOf(want) + 1;
    WholeTurns(want, c - 1 - q);
  }

  lemma WholeTurns(f: int, k: int)
    ensures (f + RING_SIZE * k) % RING_SIZE == f % RING_SIZE
  {
  }

  /** What slot i holds when it has held c frames. */
  ghost function Content(frames: seq<Body>, i: nat, c: nat, n: nat): Body
    requires FrameAt(i, c) <= |frames|
  {
    if c == 0 then ZeroBody(n) else frames[FrameAt(i, c) - 1]
  }

  // ----- invariant -----

  /** The writer is copying into slot i. */
  predicate FillingSlot(w: Publisher, i: nat)
  {
    w.Filling? && w.next >= 1 && SlotOf(w.next) == i
  }

  ghost predicate SlotHolds(s: Ring, i: nat, n: nat)
    requires i < RING_SIZE && |s.slots| == RING_SIZE
  {
    var c := Held(i, |s.frames|);
    HeldBounds(i, |s.frames|);
    && s.slots[i].generation == 2 * c + (if FillingSlot(s.writer, i) then 1 else 0)
    && |s.slots[i].body| == n && |Content(s.frames, i, c, n)| == n
    && (forall k: nat :: k < n ==>
          (s.slots[i].body[k] == if FillingSlot(s.writer, i) && k in s.writer.done && k < |s.writer.body|
                                 then s.writer.body[k] else Content(s.frames, i, c, n)[k]))
  }

  ghost predicate WriterHolds(s: Ring, n: nat)
  {
    && (if s.writer.Stamped? then |s.frames| == s.index + 1 && s.writer.next == s.index + 1 else |s.frames| == s.index)
    && (forall f :: 0 <= f < |s.frames| ==> |s.frames[f]| == n)
    && (s.writer.Numbered? || s.writer.Ready? || s.writer.Filling? ==> s.writer.next == s.index + 1 && |s.writer.body| == n)
    && (s.writer.Ready? || s.writer.Filling? ==> s.writer.prev == 2 * Held(SlotOf(s.writer.next), |s.frames|))
    && (s.writer.Filling? ==> s.writer.done <= Pieces(n))
  }

  /** What the code has checked about the wanted frame. */
  predicate WantHolds(ask: Request, want: nat, index: nat)
  {
    1 <= want <= index && (ask.ByIndex? ==> want == ask.target)
  }

  /** Copied pieces belong to frame FrameAt(slot, g1 / 2) as long as the generation is still g1. */
  ghost predicate ReadingHolds(t: Fetch, gen: nat, frames: seq<Body>, n: nat)
    requires t.Reading? && t.want >= 1
  {
    var i := SlotOf(t.want);
    && t.g1 % 2 == 0 && t.g1 <= gen && |t.out| == n && t.got <= Pieces(n)
    && FrameAt(i, t.g1 / 2) >= t.want && FrameAt(i, t.g1 / 2) <= |frames|
    && |Content(frames, i, t.g1 / 2, n)| == n
    && (t.g1 == gen ==> (forall k: nat :: k in t.got && k < n ==> t.out[k] == Content(frames, i, t.g1 / 2, n)[k]))
  }

  /** What a successful read delivers: the whole newest frame in the slot of the wanted one, which is not older than
      it; `stamped` is at most one ahead of the publish index at the moment of return. */
  ghost predicate Delivered(t: Fetch, frames: seq<Body>, index: nat)
    requires t.Done? && t.ok
  {
    && WantHolds(t.ask, t.want, t.at) && t.at <= index && t.at <= t.stamped <= t.at + 1 && t.stamped <= |frames|
    && t.frame == FrameAt(SlotOf(t.want), Held(SlotOf(t.want), t.stamped))
    && t.want <= t.frame <= t.stamped && t.frame % RING_SIZE == t.want % RING_SIZE
    && t.out == frames[t.frame - 1]
  }

  ghost predicate ReaderHolds(t: Fetch, s: Ring, n: nat)
    requires |s.slots| == RING_SIZE
  {
    match t
    case Asked(_, _, out) => |out| == n
    case Trying(ask, want, _, _, out) => WantHolds(ask, want, s.index) && |out| == n
    case Reading(ask, want, _, _, _, _, _) =>
      WantHolds(ask, want, s.index) && ReadingHolds(t, s.slots[SlotOf(want)].generation, s.frames, n)
    case Done(_, _, ok, _, _, _, _) => ok ==> Delivered(t, s.frames, s.index)
  }

  ghost predicate Inv(s: Ring, n: nat)
  {
    && |s.slots| == RING_SIZE && WriterHolds(s, n)
    && (forall i :: 0 <= i < RING_SIZE ==> SlotHolds(s, i, n))
    && (forall r :: r in s.readers ==> ReaderHolds(s.readers[r], s, n))
  }

  lemma InitInv(n: nat)
    ensures Inv(Init(n), n)
  {
    forall i | 0 <= i < RING_SIZE ensures SlotHolds(Init(n), i, n) {
      HeldStep(i, 0);
    }
  }

  /** Frames are only appended, so what a slot held stays what it was. */
  lemma ContentStays(frames: seq<Body>, frames': seq<Body>, i: nat, c: nat, n: nat)
    requires frames <= frames' && FrameAt(i, c) <= |frames|
    ensures Content(frames', i, c, n) == Content(frames, i, c, n)
  {
  }

  lemma ReaderSurvives(t: Fetch, s: Ring, s': Ring, n: nat)
    requires |s.slots| == |s'.slots| == RING_SIZE && ReaderHolds(t, s, n)
    requires s.frames <= s'.frames && s.index <= s'.index
    requires forall i :: 0 <= i < RING_SIZE ==> s.slots[i].generation <= s'.slots[i].generation
    ensures ReaderHolds(t, s', n)
  {
    if t.Reading? {
      ContentStays(s.frames, s'.frames, SlotOf(t.want), t.g1 / 2, n);
    }
  }

  /** The writer's events keep slots and writer consistent and only move the shared state forward. */
  lemma WriterSlots(s: Ring, n: nat, e: Event)
    requires Inv(s, n) && IsWriterEvent(e)
    ensures var s' := WriterEvent(s, n, e);
      && |s'.slots| == RING_SIZE && s'.readers == s.readers && WriterHolds(s', n)
      && s.frames <= s'.frames && s.index <= s'.index
  {
    hide ReaderHolds, SlotHolds, Held, Content;
    if e.StampEven? && s.writer.Filling? {
      HeldStep(SlotOf(s.writer.next), |s.frames|);
    } else if e.LoadGeneration? && s.writer.Numbered? {
      GenerationLoaded(s, n);
    }
  }

  lemma GenerationLoaded(s: Ring, n: nat)
    requires Inv(s, n) && s.writer.Numbered?
    ensures s.slots[SlotOf(s.writer.next)].generation == 2 * Held(SlotOf(s.writer.next), |s.frames|)
  {
    assert SlotHolds(s, SlotOf(s.writer.next), n);
  }

  lemma WriterSlot(s: Ring, n: nat, e: Event, i: nat)
    requires Inv(s, n) && IsWriterEvent(e) && i < RING_SIZE
    ensures var s' := WriterEvent(s, n, e);
      |s'.slots| == RING_SIZE && SlotHolds(s', i, n) && s.slots[i].generation <= s'.slots[i].generation
  {
    hide ReaderHolds, Held, FrameAt, SlotOf, Content;
    assert SlotHolds(s, i, n);
    var s' := WriterEvent(s, n, e);
    if e.StampEven? && s.writer.Filling? && s.writer.done == Pieces(n) {
      StampSlot(s, n, i);
    }
  }

  /** Stamping makes the copied body the slot's content. */
  lemma StampSlot(s: Ring, n: nat, i: nat)
    requires Inv(s, n) && s.writer.Filling? && s.writer.done == Pieces(n) && i < RING_SIZE
    ensures var s' := WriterEvent(s, n, StampEven); |s'.slots| == RING_SIZE && SlotHolds(s', i, n)
  {
    hide ReaderHolds, Held, SlotOf;
    assert SlotHolds(s, i, n);
    HeldStep(i, |s.frames|);
    HeldBounds(i, |s.frames|);
    var s' := WriterEvent(s, n, StampEven);
    if SlotOf(s.writer.next) != i {
      ContentStays(s.frames, s'.frames, i, Held(i, |s.frames|), n);
    }
  }

  lemma WriterKeeps(s: Ring, n: nat, e: Event)
    requires Inv(s, n) && IsWriterEvent(e)
    ensures Inv(WriterEvent(s, n, e), n)
  {
    WriterSlots(s, n, e);
    hide ReaderHolds, WriterHolds, SlotHolds, WriterEvent;
    var s' := WriterEvent(s, n, e);
    forall i | 0 <= i < RING_SIZE
      ensures SlotHolds(s', i, n) && s.slots[i].generation <= s'.slots[i].generation
    {
      WriterSlot(s, n, e, i);
    }
    forall r | r in s'.readers ensures ReaderHolds(s'.readers[r], s', n) {
      ReaderSurvives(s.readers[r], s, s', n);
    }
  }

  lemma FirstLoadKeeps(t: Fetch, s: Ring, n: nat)
    requires Inv(s, n) && t.Trying? && ReaderHolds(t, s, n)
    ensures ReaderHolds(AfterFirstLoad(t, s.slots[SlotOf(t.want)].generation, s.index, |s.frames|), s, n)
  {
    hide Held, FrameAt, SlotOf;
    var i := SlotOf(t.want);
    assert SlotHolds(s, i, n);
    HeldReaches(t.want, |s.frames|);
    HeldBounds(i, |s.frames|);
    Halved(Held(i, |s.frames|));
  }

  lemma Halved(c: nat)
    ensures 2 * c % 2 == 0 && 2 * c / 2 == c && (2 * c + 1) % 2 == 1
  {
  }

  lemma CopyKeeps(t: Fetch, s: Ring, n: nat, k: nat)
    requires Inv(s, n) && t.Reading? && ReaderHolds(t, s, n) && k < n && k < |s.slots[SlotOf(t.want)].body|
    ensures ReaderHolds(AfterCopy(t, k, s.slots[SlotOf(t.want)].body[k]), s, n)
  {
    hide Held, FrameAt, SlotOf, Content;
    var i := SlotOf(t.want);
    assert SlotHolds(s, i, n);
    Halved(Held(i, |s.frames|));
  }

  lemma SecondLoadKeeps(t: Fetch, s: Ring, n: nat)
    requires Inv(s, n) && t.Reading? && ReaderHolds(t, s, n) && t.got == Pieces(n)
    ensures ReaderHolds(AfterSecondLoad(t, s.slots[SlotOf(t.want)].generation, s.index, |s.frames|), s, n)
  {
    hide Held, FrameAt, SlotOf;
    var i := SlotOf(t.want);
    assert SlotHolds(s, i, n);
    Halved(Held(i, |s.frames|));
    HeldReaches(t.want, |s.frames|);
    HeldBounds(i, |s.frames|);
    FrameCongruent(t.want, Held(i, |s.frames|));
  }

  lemma ReaderMoved(s: Ring, n: nat, e: Event, r: nat)
    requires Inv(s, n) && !IsWriterEvent(e)
    requires var s' := ReaderEvent(s, n, e); r in s'.readers && !(r in s.readers && s'.readers[r] == s.readers[r])
    ensures var s' := ReaderEvent(s, n, e); ReaderHolds(s'.readers[r], s, n)
  {
    hide AfterFirstLoad, AfterCopy, AfterSecondLoad, Pieces, WriterHolds, SlotHolds, SlotOf, FrameAt, ReadingHolds;
    if r in s.readers {
      assert ReaderHolds(s.readers[r], s, n);
    }
    match e
    case Ask(_, _, _, _) =>
    case LoadIndex(_) =>
    case LoadBefore(_) => FirstLoadKeeps(s.readers[r], s, n);
    case CopyOut(_, k) =>
      OutLength(s.readers[r], s, n);
      CopyKeeps(s.readers[r], s, n, k);
    case LoadAfter(_) => SecondLoadKeeps(s.readers[r], s, n);
    case _ =>
  }

  lemma OutLength(t: Fetch, s: Ring, n: nat)
    requires |s.slots| == RING_SIZE && t.Reading? && ReaderHolds(t, s, n)
    ensures |t.out| == n
  {
  }

  lemma ReaderKeeps(s: Ring, n: nat, e: Event)
    requires Inv(s, n) && !IsWriterEvent(e)
    ensures Inv(ReaderEvent(s, n, e), n)
  {
    hide ReaderHolds, WriterHolds, SlotHolds, AfterIndex, AfterFirstLoad, AfterCopy, AfterSecondLoad;
    var s' := ReaderEvent(s, n, e);
    assert s' == s.(readers := s'.readers);
    OnlyReaders(s, s', n);
    forall r | r in s'.readers ensures ReaderHolds(s'.readers[r], s', n) {
      if !(r in s.readers && s'.readers[r] == s.readers[r]) {
        ReaderMoved(s, n, e, r);
      } else {
        assert ReaderHolds(s.readers[r], s, n);
      }
      SameForReader(s'.readers[r], s, s', n);
    }
  }

  lemma SameForReader(t: Fetch, s: Ring, s': Ring, n: nat)
    requires |s.slots| == RING_SIZE && s' == s.(readers := s'.readers)
    ensures ReaderHolds(t, s', n) <==> ReaderHolds(t, s, n)
  {
  }

  lemma OnlyReaders(s: Ring, s': Ring, n: nat)
    requires Inv(s, n) && s' == s.(readers := s'.readers)
    ensures |s'.slots| == RING_SIZE && WriterHolds(s', n) && forall i :: 0 <= i < RING_SIZE ==> SlotHolds(s', i, n)
  {
    forall i | 0 <= i < RING_SIZE ensures SlotHolds(s', i, n) {
      assert SlotHolds(s, i, n);
    }
  }

  lemma EventKeepsInv(s: Ring, n: nat, e: Event)
    requires Inv(s, n)
    ensures Inv(Apply(s, n, e), n)
  {
    if IsWriterEvent(e) {
      WriterKeeps(s, n, e);
    } else {
      ReaderKeeps(s, n, e);
    }
  }

  // ----- runs -----

  ghost function Run(n: nat, events: seq<Event>): (s: Ring)
    ensures Inv(s, n) && |s.slots| == RING_SIZE
  {
    if events == [] then
      InitInv(n);
      Init(n)
    else
      var s := Run(n, events[..|events| - 1]);
      EventKeepsInv(s, n, events[|events| - 1]);
      Apply(s, n, events[|events| - 1])
  }

  /** In every interleaving, a successful read returns one complete frame f in the slot of the wanted one:
      f = want modulo 32, want <= f, and f is at most one ahead of the publish index at return. */
  lemma ReadsAreFrames(n: nat, events: seq<Event>, r: nat)
    requires r in Run(n, events).readers && Run(n, events).readers[r].Done? && Run(n, events).readers[r].ok
    ensures var s := Run(n, events); Delivered(s.readers[r], s.frames, s.index)
  {
    var s := Run(n, events);
    assert ReaderHolds(s.readers[r], s, n);
  }

  /** A successful read returns the wanted frame exactly when at most 31 later frames were stamped at that moment;
      otherwise it returns a newer one. */
  lemma ReadIsExactIff(n: nat, events: seq<Event>, r: nat)
    requires r in Run(n, events).readers && Run(n, events).readers[r].Done? && Run(n, events).readers[r].ok
    ensures var t := Run(n, events).readers[r];
      && t.at <= t.stamped <= t.at + 1 && t.want <= t.frame
      && (t.frame == t.want <==> t.stamped <= t.want + 31)
  {
    ReadsAreFrames(n, events, r);
    var t := Run(n, events).readers[r];
    NewestInSlot(t.want, t.stamped);
  }

  /** A read by index, by the publish index at its return: at most 30 ahead of the target, it returns exactly that
      frame; 32 or more ahead, a newer one; 31 ahead, it depends on whether the next frame was already stamped. */
  lemma ReadByIndexIsExact(n: nat, events: seq<Event>, r: nat)
    requires r in Run(n, events).readers && Run(n, events).readers[r].Done? && Run(n, events).readers[r].ok
    requires Run(n, events).readers[r].ask.ByIndex?
    ensures var s := Run(n, events); var t := s.readers[r]; var target := t.ask.target;
      && 1 <= target <= t.frame <= |s.frames| && t.out == s.frames[t.frame - 1]
      && (t.at <= target + 30 ==> t.frame == target)
      && (t.at >= target + 32 ==> t.frame >= target + RING_SIZE)
      && (t.at == target + 31 ==> (t.frame == target <==> t.stamped == t.at))
  {
    ReadsAreFrames(n, events, r);
    ReadIsExactIff(n, events, r);
    hide Run;
    var t := Run(n, events).readers[r];
    if t.frame != t.want {
      NextCongruent(t.want, t.frame);
    }
  }

  lemma NextCongruent(want: nat, f: nat)
    requires want < f && f % RING_SIZE == want % RING_SIZE
    ensures f >= want + RING_SIZE
  {
  }

  /** In every reachable state, a slot's generation is odd exactly while a publisher copies into it, and the
      publish index counts the complete frames, except between stamping a frame and storing its number. */
  lemma RingState(n: nat, events: seq<Event>, i: nat)
    requires i < RING_SIZE
    ensures var s := Run(n, events);
      |s.slots| == RING_SIZE && (s.slots[i].generation % 2 == 1 <==> FillingSlot(s.writer, i))
      && |s.frames| == s.index + (if s.writer.Stamped? then 1 else 0)
  {
    var s := Run(n, events);
    hide Run, ReaderHolds, Held;
    assert SlotHolds(s, i, n);
    Halved(Held(i, |s.frames|));
  }

  // ----- what a late reader gets -----

  lemma RunAppend(n: nat, events: seq<Event>, e: Event)
    ensures Run(n, events + [e]) == Apply(Run(n, events), n, e)
  {
    hide Apply, Inv;
    assert (events + [e])[..|events + [e]| - 1] == events;
  }

  /** The body of frame f in the run below: n pieces, all f. */
  function BodyOf(n: nat, f: int): (b: Body)
    ensures |b| == n
  {
    seq(n, (k: nat) => f)
  }

  function CopyIns(events: seq<Event>, k: nat): seq<Event>
  {
    if k == 0 then events else CopyIns(events, k - 1) + [CopyIn(k - 1)]
  }

  /** A publication up to the stamp, piece by piece. */
  function Stamping(n: nat, events: seq<Event>, body: Body): seq<Event>
  {
    CopyIns(events + [BeginPublish(body)] + [LoadGeneration] + [MarkOdd], n) + [StampEven]
  }

  /** k publications, the first one of frame `first`. */
  function PublishMany(n: nat, events: seq<Event>, first: nat, k: nat): seq<Event>
  {
    if k == 0 then events
    else Stamping(n, PublishMany(n, events, first, k - 1), BodyOf(n, first + k - 1)) + [StoreIndex]
  }

  lemma FillingState(s: Ring, n: nat, body: Body)
    requires |s.slots| == RING_SIZE && s.writer.Resting? && |body| == n
    ensures var a := Apply(s, n, BeginPublish(body)); var b := Apply(a, n, LoadGeneration); var c := Apply(b, n, MarkOdd);
      c.writer.Filling? && c.writer.body == body && c.writer.next == s.index + 1 && c.writer.done == {}
      && c.index == s.index && c.readers == s.readers && c.frames == s.frames
  {
  }

  lemma CopyInState(s: Ring, n: nat, k: nat)
    requires Inv(s, n) && s.writer.Filling? && k < n
    ensures var t := Apply(s, n, CopyIn(k));
      && t.writer == s.writer.(done := s.writer.done + {k})
      && t.index == s.index && t.readers == s.readers && t.frames == s.frames
  {
    hide ReaderHolds, Held, Content;
    assert SlotHolds(s, SlotOf(s.writer.next), n);
  }

  lemma {:induction false} CopyInsRun(n: nat, events: seq<Event>, k: nat)
    requires Run(n, events).writer.Filling? && Run(n, events).writer.done == {} && k <= n
    ensures var s, t := Run(n, events), Run(n, CopyIns(events, k));
      && t.writer == s.writer.(done := Pieces(k))
      && t.index == s.index && t.readers == s.readers && t.frames == s.frames
  {
    hide Run, Inv, Apply;
    if k > 0 {
      CopyInsRun(n, events, k - 1);
      RunAppend(n, CopyIns(events, k - 1), CopyIn(k - 1));
      CopyInState(Run(n, CopyIns(events, k - 1)), n, k - 1);
    }
  }

  lemma StampingRun(n: nat, events: seq<Event>, body: Body)
    requires Run(n, events).writer.Resting? && |body| == n
    ensures var s, t := Run(n, events), Run(n, Stamping(n, events, body));
      && t.writer == Stamped(s.index + 1) && t.index == s.index && t.readers == s.readers && t.frames == s.frames + [body]
  {
    hide Run, Inv, Apply, Pieces;
    var e1 := events + [BeginPublish(body)];
    var e2 := e1 + [LoadGeneration];
    var e3 := e2 + [MarkOdd];
    RunAppend(n, events, BeginPublish(body));
    RunAppend(n, e1, LoadGeneration);
    RunAppend(n, e2, MarkOdd);
    FillingState(Run(n, events), n, body);
    CopyInsRun(n, e3, n);
    RunAppend(n, CopyIns(e3, n), StampEven);
    StampState(Run(n, CopyIns(e3, n)), n);
  }

  lemma StampState(s: Ring, n: nat)
    requires |s.slots| == RING_SIZE && s.writer.Filling? && s.writer.next >= 1 && s.writer.done == Pieces(n)
    ensures var t := Apply(s, n, StampEven);
      && t.writer == Stamped(s.writer.next) && t.index == s.index && t.readers == s.readers
      && t.frames == s.frames + [s.writer.body]
  {
  }

  lemma StoreState(s: Ring, n: nat)
    requires |s.slots| == RING_SIZE && s.writer.Stamped?
    ensures Apply(s, n, StoreIndex) == s.(index := s.writer.next, writer := Resting)
  {
  }

  lemma {:induction false} ManyPublishes(n: nat, events: seq<Event>, first: nat, k: nat)
    requires Run(n, events).writer.Resting?
    ensures var s, t := Run(n, events), Run(n, PublishMany(n, events, first, k));
      && t.writer.Resting? && t.index == s.index + k && t.readers == s.readers
      && s.frames <= t.frames && (k > 0 ==> |t.frames| > 0 && t.frames[|t.frames| - 1] == BodyOf(n, first + k - 1))
  {
    hide Run, Inv, Stamping, Apply, BodyOf;
    if k > 0 {
      var e := PublishMany(n, events, first, k - 1);
      ManyPublishes(n, events, first, k - 1);
      StampingRun(n, e, BodyOf(n, first + k - 1));
      RunAppend(n, Stamping(n, e, BodyOf(n, first + k - 1)), StoreIndex);
      StoreState(Run(n, Stamping(n, e, BodyOf(n, first + k - 1))), n);
    }
  }

  /** Reader r copies the first k pieces. */
  function CopyOuts(events: seq<Event>, r: nat, k: nat): seq<Event>
  {
    if k == 0 then events else CopyOuts(events, r, k - 1) + [CopyOut(r, k - 1)]
  }

  lemma CopyOutState(s: Ring, n: nat, r: nat, k: nat)
    requires Inv(s, n) && r in s.readers && s.readers[r].Reading? && k < n
    ensures var t := Apply(s, n, CopyOut(r, k));
      && t == s.(readers := t.readers) && r in t.readers && t.readers[r].Reading?
      && t.readers[r] == s.readers[r].(got := s.readers[r].got + {k}, out := t.readers[r].out)
  {
    assert ReaderHolds(s.readers[r], s, n);
    hide Held, Content;
    assert SlotHolds(s, SlotOf(s.readers[r].want), n);
  }

  lemma {:induction false} CopyOutsRun(n: nat, events: seq<Event>, r: nat, k: nat)
    requires r in Run(n, events).readers && Run(n, events).readers[r].Reading? && Run(n, events).readers[r].got == {} && k <= n
    ensures var s, t := Run(n, events), Run(n, CopyOuts(events, r, k));
      && t == s.(readers := t.readers) && r in t.readers && t.readers[r].Reading?
      && t.readers[r] == s.readers[r].(got := Pieces(k), out := t.readers[r].out)
  {
    hide Run, Inv, Apply;
    if k > 0 {
      CopyOutsRun(n, events, r, k - 1);
      RunAppend(n, CopyOuts(events, r, k - 1), CopyOut(r, k - 1));
      CopyOutState(Run(n, CopyOuts(events, r, k - 1)), n, r, k - 1);
    }
  }

  /** A reader that asks for frame 1 while it is the newest, and copies only when frame 33 is stamped but its
      number is not yet stored. */
  function LateAsk(n: nat): seq<Event>
  {
    PublishMany(n, [], 1, 1) + [Ask(0, ByIndex(1), 8, ZeroBody(n))] + [LoadIndex(0)]
  }

  function LateStamp(n: nat): seq<Event>
  {
    Stamping(n, PublishMany(n, LateAsk(n), 2, 31), BodyOf(n, 33))
  }

  function LateRead(n: nat): seq<Event>
  {
    CopyOuts(LateStamp(n) + [LoadBefore(0)], 0, n) + [LoadAfter(0)]
  }

  lemma EmptyRun(n: nat)
    ensures Run(n, []) == Init(n)
  {
  }

  lemma AskState(s: Ring, n: nat)
    requires |s.slots| == RING_SIZE && s.readers == map[] && s.index == 1
    ensures var a := Apply(s, n, Ask(0, ByIndex(1), 8, ZeroBody(n))); var b := Apply(a, n, LoadIndex(0));
      b == s.(readers := b.readers) && 0 in b.readers && b.readers[0] == Trying(ByIndex(1), 1, 0, 8, ZeroBody(n))
  {
  }

  lemma OnePublished(n: nat)
    ensures var s := Run(n, PublishMany(n, [], 1, 1));
      s.writer.Resting? && s.index == 1 && s.readers == map[] && s.frames == [BodyOf(n, 1)]
  {
    EmptyRun(n);
    hide Run, Inv, Apply, BodyOf, Stamping;
    ManyPublishes(n, [], 1, 1);
    RingState(n, PublishMany(n, [], 1, 1), 0);
  }

  lemma LateAsked(n: nat)
    ensures var s := Run(n, LateAsk(n));
      && s.writer.Resting? && s.index == 1 && 0 in s.readers && s.readers[0] == Trying(ByIndex(1), 1, 0, 8, ZeroBody(n))
      && s.frames == [BodyOf(n, 1)]
  {
    hide Run, Inv, PublishMany, Apply, BodyOf, ZeroBody;
    OnePublished(n);
    var e := PublishMany(n, [], 1, 1);
    RunAppend(n, e, Ask(0, ByIndex(1), 8, ZeroBody(n)));
    RunAppend(n, e + [Ask(0, ByIndex(1), 8, ZeroBody(n))], LoadIndex(0));
    AskState(Run(n, e), n);
  }

  lemma LateStamped(n: nat)
    ensures var s := Run(n, LateStamp(n));
      && s.writer == Stamped(33) && s.index == 32 && |s.frames| == 33
      && s.frames[0] == BodyOf(n, 1) && s.frames[32] == BodyOf(n, 33)
      && 0 in s.readers && s.readers[0] == Trying(ByIndex(1), 1, 0, 8, ZeroBody(n))
  {
    hide Run, Inv, PublishMany, Stamping, LateAsk, BodyOf, ZeroBody, FillingSlot, SlotOf;
    RingState(n, PublishMany(n, LateAsk(n), 2, 31), 0);
    LateAsked(n);
    ManyPublishes(n, LateAsk(n), 2, 31);
    StampingRun(n, PublishMany(n, LateAsk(n), 2, 31), BodyOf(n, 33));
  }

  lemma LateGeneration(s: Ring, n: nat)
    requires Inv(s, n) && |s.frames| == 33 && s.writer == Stamped(33)
    ensures s.slots[0].generation == 4
  {
    assert SlotHolds(s, 0, n);
  }

  lemma FirstLoadState(s: Ring, n: nat)
    requires |s.slots| == RING_SIZE && s.slots[0].generation == 4
    requires 0 in s.readers && s.readers[0] == Trying(ByIndex(1), 1, 0, 8, ZeroBody(n))
    ensures var a := Apply(s, n, LoadBefore(0));
      a == s.(readers := a.readers) && 0 in a.readers && a.readers[0] == Reading(ByIndex(1), 1, 0, 8, ZeroBody(n), 4, {})
  {
    assert SlotOf(1) == 0;
  }

  lemma SecondLoadState(s: Ring, n: nat)
    requires |s.slots| == RING_SIZE && s.slots[0].generation == 4 && s.index == 32 && |s.frames| == 33
    requires 0 in s.readers && s.readers[0].Reading? && s.readers[0].ask == ByIndex(1) && s.readers[0].want == 1
    requires s.readers[0].g1 == 4 && s.readers[0].got == Pieces(n)
    ensures var a := Apply(s, n, LoadAfter(0));
      a == s.(readers := a.readers) && 0 in a.readers
      && a.readers[0] == Done(ByIndex(1), 1, true, s.readers[0].out, 33, 32, 33)
  {
    assert SlotOf(1) == 0 && FrameAt(0, 2) == 33;
  }

  /** The bound on the publish index is the tightest one: with the index 31 ahead, a reader that asked for frame 1
      is told that it has it, but gets the body of frame 33, which is another one. */
  lemma LateReadIsNewer(n: nat)
    requires n >= 1
    ensures 0 in Run(n, LateRead(n)).readers
    ensures var s := Run(n, LateRead(n)); var t := s.readers[0];
      && t == Done(ByIndex(1), 1, true, t.out, 33, 1 + 31, 33)
      && |s.frames| == 33 && t.out == s.frames[32] != s.frames[0]
  {
    hide Run, Inv, Apply, CopyOuts, Stamping, LateStamp, Pieces, Delivered;
    LateStamped(n);
    var e := LateStamp(n);
    LateGeneration(Run(n, e), n);
    RunAppend(n, e, LoadBefore(0));
    FirstLoadState(Run(n, e), n);
    CopyOutsRun(n, e + [LoadBefore(0)], 0, n);
    var f := CopyOuts(e + [LoadBefore(0)], 0, n);
    RunAppend(n, f, LoadAfter(0));
    SecondLoadState(Run(n, f), n);
    ReadsAreFrames(n, LateRead(n), 0);
    OutIsFrame(Run(n, LateRead(n)));
    assert BodyOf(n, 1)[0] == 1 && BodyOf(n, 33)[0] == 33;
  }

  lemma OutIsFrame(s: Ring)
    requires 0 in s.readers && s.readers[0].Done? && s.readers[0].ok && Delivered(s.readers[0], s.frames, s.index)
    ensures 1 <= s.readers[0].frame <= |s.frames| && s.readers[0].out == s.frames[s.readers[0].frame - 1]
  {
  }
}
