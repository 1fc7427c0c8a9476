/** Which frame a read of the ring is after and why it fails, and that a read that nothing disturbs gets it. */
module FrameReads {
  import opened SharedSlot
  import opened FrameRing

  // ----- a call, as the run shows it -----

  /** What the call asked for and how many attempts it was given, the publish index at the moment when it loaded it, and
      how many attempts were spoilt so far. */
  datatype Call = Call(ask: Request, max: nat, loaded: nat, spoilt: nat)

  /** Reader r is not in the middle of a call. */
  predicate Free(s: Ring, r: nat)
  {
    r in s.readers ==> s.readers[r].Done?
  }

  predicate Begins(s: Ring, n: nat, e: Event, r: nat)
  {
    e.Ask? && e.r == r && |e.out| == n && Free(s, r)
  }

  predicate Loads(s: Ring, e: Event, r: nat)
  {
    e == LoadIndex(r) && r in s.readers && s.readers[r].Asked?
  }

  /** The latest frame at the load, or the one with the number asked for. */
  function Wanted(c: Call): nat
  {
    match c.ask
    case Latest => c.loaded
    case ByIndex(target) => target
  }

  /** There was a latest frame, or the number was one of the last 32. */
  predicate Admissible(c: Call)
  {
    match c.ask
    case Latest => c.loaded >= 1
    case ByIndex(target) => 1 <= target <= c.loaded < target + 32
  }

  /** An attempt is spoilt when it finds the generation of the wanted frame's slot odd, or changed behind the copy. */
  predicate Spoils(s: Ring, n: nat, e: Event, r: nat, c: Call)
  {
    && r in s.readers && |s.slots| == 32 && Wanted(c) >= 1
    && var gen := s.slots[(Wanted(c) - 1) % 32].generation;
       || (e == LoadBefore(r) && s.readers[r].Trying? && c.spoilt < c.max && gen % 2 == 1)
       || (e == LoadAfter(r) && s.readers[r].Reading? && s.readers[r].got == Pieces(n) && gen != s.readers[r].g1)
  }

  function CallAfter(s: Ring, n: nat, e: Event, r: nat, c: Call): Call
  {
    if Begins(s, n, e, r) then Call(e.ask, e.max, 0, 0)
    else if Loads(s, e, r) then c.(loaded := s.index)
    else if Spoils(s, n, e, r, c) then c.(spoilt := c.spoilt + 1)
    else c
  }

  /** The last call of reader r. */
  ghost function CallOf(n: nat, events: seq<Event>, r: nat): Call
  {
    if events == [] then Call(Latest, 0, 0, 0)
    else
      var before := events[..|events| - 1];
      CallAfter(Run(n, before), n, events[|events| - 1], r, CallOf(n, before, r))
  }

  /** What a reader remembers of its call. */
  predicate Remembers(t: Fetch, c: Call, index: nat)
  {
    && c.loaded <= index && t.ask == c.ask
    && match t
       case Asked(_, max, _) => max == c.max && c.spoilt == 0
       case Trying(_, want, attempt, max, _) =>
         Admissible(c) && want == Wanted(c) && max == c.max && attempt == c.spoilt <= max
       case Reading(_, want, attempt, max, _, _, _) =>
         Admissible(c) && want == Wanted(c) && max == c.max && attempt == c.spoilt < max
       case Done(_, want, ok, _, _, at, _) =>
         && c.loaded <= at
         && if ok then Admissible(c) && want == Wanted(c) && c.spoilt < c.max else !Admissible(c) || c.spoilt == c.max
  }

  lemma IndexGrows(s: Ring, n: nat, e: Event)
    requires Inv(s, n)
    ensures |Apply(s, n, e).slots| == RING_SIZE && s.index <= Apply(s, n, e).index
  {
    hide SlotHolds, ReaderHolds;
  }

  lemma CallStep(s: Ring, n: nat, e: Event, r: nat, c: Call)
    requires |s.slots| == RING_SIZE && s.index <= Apply(s, n, e).index
    requires r in s.readers ==> Remembers(s.readers[r], c, s.index)
    ensures var s' := Apply(s, n, e);
      r in s'.readers ==> Remembers(s'.readers[r], CallAfter(s, n, e, r, c), s'.index)
  {
    hide Pieces;
  }

  lemma {:induction false} CallKnown(n: nat, events: seq<Event>, r: nat)
    ensures r in Run(n, events).readers ==> Remembers(Run(n, events).readers[r], CallOf(n, events, r), Run(n, events).index)
  {
    hide Apply, Inv, Remembers, CallAfter;
    if events != [] {
      var before, e := events[..|events| - 1], events[|events| - 1];
      CallKnown(n, before, r);
      IndexGrows(Run(n, before), n, e);
      CallStep(Run(n, before), n, e, r, CallOf(n, before, r));
    }
  }

  /** In every interleaving, a successful read of the latest frame gets the body of a frame that is not older than the
      one that was the latest when the call loaded the publish index, not newer than one ahead of the index when it
      returned, and a multiple of 32 frames behind the first. */
  lemma LatestIsNewest(n: nat, events: seq<Event>, r: nat)
    requires r in Run(n, events).readers && Run(n, events).readers[r].Done? && Run(n, events).readers[r].ok
    requires CallOf(n, events, r).ask.Latest?
    ensures var s := Run(n, events); var t := s.readers[r]; var loaded := CallOf(n, events, r).loaded;
      && 1 <= loaded <= t.frame <= t.at + 1 && t.at <= s.index && t.frame % 32 == loaded % 32
      && t.frame <= |s.frames| && t.out == s.frames[t.frame - 1]
      && (t.frame == loaded <==> t.stamped < loaded + 32)
  {
    CallKnown(n, events, r);
    ReadsAreFrames(n, events, r);
    ReadIsExactIff(n, events, r);
    hide Run, Held, FrameAt, SlotOf, CallOf;
  }

  /** A successful read by number gets that frame or one a multiple of 32 frames newer, and the number was one of the
      last 32 when the call loaded the publish index. */
  lemma ByIndexWasRecent(n: nat, events: seq<Event>, r: nat)
    requires r in Run(n, events).readers && Run(n, events).readers[r].Done? && Run(n, events).readers[r].ok
    requires CallOf(n, events, r).ask.ByIndex?
    ensures var s := Run(n, events); var t, c := s.readers[r], CallOf(n, events, r); var target := c.ask.target;
      && 1 <= target <= c.loaded < target + 32 && c.loaded <= t.at <= s.index
      && target <= t.frame <= |s.frames| && t.frame % 32 == target % 32 && t.out == s.frames[t.frame - 1]
      && (t.frame == target <==> t.stamped < target + 32)
  {
    CallKnown(n, events, r);
    ReadsAreFrames(n, events, r);
    ReadIsExactIff(n, events, r);
    hide Run, Held, FrameAt, SlotOf, CallOf;
  }

  /** A read fails only when it was refused by its number or for want of any frame, or when as many attempts were spoilt
      as the call was given. */
  lemma FailsWhenSpoilt(n: nat, events: seq<Event>, r: nat)
    requires r in Run(n, events).readers && Run(n, events).readers[r].Done? && !Run(n, events).readers[r].ok
    ensures var c := CallOf(n, events, r); !Admissible(c) || c.spoilt == c.max
  {
    CallKnown(n, events, r);
    hide Run, CallOf;
  }

  // ----- where frames lie -----

  /** Of the frames that are complete, the last 32 are in the ring: frame f in slot (f - 1) % 32, unless that slot is
      being filled. */
  lemma FrameInSlot(n: nat, events: seq<Event>, f: nat)
    requires 1 <= f <= |Run(n, events).frames| < f + 32
    ensures var s := Run(n, events); var i := (f - 1) % 32;
      && |s.slots| == 32
      && (!FillingSlot(s.writer, i) ==>
            s.slots[i].generation == 2 * ((f - 1) / 32 + 1) && s.slots[i].body == s.frames[f - 1])
  {
    var s := Run(n, events);
    hide Run, ReaderHolds;
    var i := SlotOf(f);
    assert SlotHolds(s, i, n);
    NewestInSlot(f, |s.frames|);
    HeldCount(f, |s.frames|);
  }

  lemma HeldCount(f: nat, c: nat)
    requires 1 <= f <= c < f + 32
    ensures Held(SlotOf(f), c) == (f - 1) / 32 + 1
  {
  }

  // ----- a read that nothing disturbs -----

  /** One call of reader r with no other step in between. */
  function QuietCall(n: nat, events: seq<Event>, r: nat, ask: Request, max: nat, out: Body): seq<Event>
  {
    CopyOuts(events + [Ask(r, ask, max, out)] + [LoadIndex(r)] + [LoadBefore(r)], r, n) + [LoadAfter(r)]
  }

  lemma AskedState(s: Ring, n: nat, r: nat, ask: Request, max: nat, out: Body)
    requires |s.slots| == RING_SIZE && Free(s, r) && |out| == n
    ensures var a := Apply(s, n, Ask(r, ask, max, out)); var b := Apply(a, n, LoadIndex(r));
      b == s.(readers := s.readers[r := AfterIndex(Asked(ask, max, out), s.index, |s.frames|)])
  {
    hide AfterIndex;
  }

  lemma StartedState(s: Ring, n: nat, r: nat)
    requires |s.slots| == RING_SIZE && r in s.readers && s.readers[r].Trying? && s.readers[r].want >= 1
    requires s.readers[r].attempt < s.readers[r].max && s.slots[SlotOf(s.readers[r].want)].generation % 2 == 0
    ensures var t := s.readers[r]; var b := Apply(s, n, LoadBefore(r));
      b == s.(readers := s.readers[r := Reading(t.ask, t.want, t.attempt, t.max, t.out, s.slots[SlotOf(t.want)].generation, {})])
  {
  }

  lemma EndedState(s: Ring, n: nat, r: nat)
    requires |s.slots| == RING_SIZE && r in s.readers && s.readers[r].Reading? && s.readers[r].want >= 1
    requires s.readers[r].got == Pieces(n) && s.readers[r].g1 == s.slots[SlotOf(s.readers[r].want)].generation
    ensures var t := Apply(s, n, LoadAfter(r)); var was := s.readers[r];
      t == s.(readers := t.readers) && r in t.readers && t.readers[r].Done? && t.readers[r].ok
      && t.readers[r].ask == was.ask && t.readers[r].want == was.want && t.readers[r].stamped == |s.frames|
  {
  }

  /** A call that has picked a slot which nobody fills gets the newest frame in it. */
  lemma QuietPicked(n: nat, events: seq<Event>, r: nat)
    requires var s := Run(n, events);
      && r in s.readers && s.readers[r].Trying? && s.readers[r].attempt < s.readers[r].max && s.readers[r].want >= 1
      && !FillingSlot(s.writer, SlotOf(s.readers[r].want)) && |s.frames| < s.readers[r].want + 32
    ensures var s, s' := Run(n, events), Run(n, CopyOuts(events + [LoadBefore(r)], r, n) + [LoadAfter(r)]);
      && s' == s.(readers := s'.readers) && r in s'.readers && s'.readers[r].Done? && s'.readers[r].ok
      && s'.readers[r].frame == s.readers[r].want <= |s.frames| && s'.readers[r].out == s.frames[s.readers[r].want - 1]
  {
    hide Run, Inv, Apply, CopyOuts, FillingSlot, Pieces, SlotOf;
    var s := Run(n, events);
    RingState(n, events, SlotOf(s.readers[r].want));
    RunAppend(n, events, LoadBefore(r));
    StartedState(s, n, r);
    CopyOutsRun(n, events + [LoadBefore(r)], r, n);
    var e := CopyOuts(events + [LoadBefore(r)], r, n);
    RunAppend(n, e, LoadAfter(r));
    EndedState(Run(n, e), n, r);
    ReadsAreFrames(n, e + [LoadAfter(r)], r);
    ReadIsExactIff(n, e + [LoadAfter(r)], r);
  }

  /** Behind a call that has returned, the other steps of the call do nothing. */
  lemma NothingLeft(s: Ring, n: nat, r: nat, e: Event)
    requires |s.slots| == RING_SIZE && r in s.readers && s.readers[r].Done?
    requires e == LoadBefore(r) || e == LoadAfter(r) || (e.CopyOut? && e.r == r)
    ensures Apply(s, n, e) == s
  {
  }

  lemma {:induction false} NoCopies(n: nat, events: seq<Event>, r: nat, k: nat)
    requires r in Run(n, events).readers && Run(n, events).readers[r].Done?
    ensures Run(n, CopyOuts(events, r, k)) == Run(n, events)
  {
    hide Run, Inv, Apply;
    if k > 0 {
      NoCopies(n, events, r, k - 1);
      RunAppend(n, CopyOuts(events, r, k - 1), CopyOut(r, k - 1));
      NothingLeft(Run(n, events), n, r, CopyOut(r, k - 1));
    }
  }

  lemma QuietRefused(n: nat, events: seq<Event>, r: nat)
    requires r in Run(n, events).readers && Run(n, events).readers[r].Done?
    ensures Run(n, CopyOuts(events + [LoadBefore(r)], r, n) + [LoadAfter(r)]) == Run(n, events)
  {
    hide Run, Inv, Apply, CopyOuts;
    RunAppend(n, events, LoadBefore(r));
    NothingLeft(Run(n, events), n, r, LoadBefore(r));
    NoCopies(n, events + [LoadBefore(r)], r, n);
    RunAppend(n, CopyOuts(events + [LoadBefore(r)], r, n), LoadAfter(r));
    NothingLeft(Run(n, events), n, r, LoadAfter(r));
  }

  /** An undisturbed read of the latest frame gets it, whatever the writer was in the middle of; it is refused, with
      the caller's buffer as it was, exactly while nothing has been published. */
  lemma QuietLatest(n: nat, events: seq<Event>, r: nat, max: nat, out: Body)
    requires Free(Run(n, events), r) && |out| == n && max >= 1
    ensures var s, s' := Run(n, events), Run(n, QuietCall(n, events, r, Latest, max, out));
      && s' == s.(readers := s'.readers) && r in s'.readers && s'.readers[r].Done?
      && (s'.readers[r].ok <==> s.index >= 1)
      && (s'.readers[r].ok ==> s.index <= |s.frames| && s'.readers[r].out == s.frames[s.index - 1])
      && (!s'.readers[r].ok ==> s'.readers[r].out == out)
  {
    hide Run, Inv, Apply, CopyOuts, SlotOf, FillingSlot;
    var s := Run(n, events);
    var e1 := events + [Ask(r, Latest, max, out)];
    var e2 := e1 + [LoadIndex(r)];
    RunAppend(n, events, Ask(r, Latest, max, out));
    RunAppend(n, e1, LoadIndex(r));
    AskedState(s, n, r, Latest, max, out);
    if s.index >= 1 {
      FramesAhead(n, events);
      NextSlotDiffers(n, events, s.index);
      QuietPicked(n, e2, r);
    } else {
      QuietRefused(n, e2, r);
    }
  }

  /** The publish index counts the complete frames, or is one behind. */
  lemma FramesAhead(n: nat, events: seq<Event>)
    ensures var s := Run(n, events); s.index <= |s.frames| <= s.index + 1
  {
    RingState(n, events, 0);
  }

  /** The writer fills the slot behind the latest frame's, which is another one. */
  lemma NextSlotDiffers(n: nat, events: seq<Event>, f: nat)
    requires 1 <= f <= Run(n, events).index < f + 31
    ensures !FillingSlot(Run(n, events).writer, SlotOf(f))
  {
    hide Run, SlotHolds, ReaderHolds, SlotOf;
    var s := Run(n, events);
    assert WriterHolds(s, n);
    SlotsDiffer(f, s.index + 1);
  }

  lemma SlotsDiffer(f: nat, g: nat)
    requires 1 <= f < g < f + 32
    ensures SlotOf(f) != SlotOf(g)
  {
  }

  /** An undisturbed read by number while nobody publishes gets the frame of that number; it is refused, with the
      caller's buffer as it was, exactly when the number is not one of the last 32. */
  lemma QuietByIndex(n: nat, events: seq<Event>, r: nat, target: nat, max: nat, out: Body)
    requires Free(Run(n, events), r) && |out| == n && max >= 1 && Run(n, events).writer.Resting?
    ensures var s, s' := Run(n, events), Run(n, QuietCall(n, events, r, ByIndex(target), max, out));
      && s' == s.(readers := s'.readers) && r in s'.readers && s'.readers[r].Done?
      && (s'.readers[r].ok <==> 1 <= target <= s.index < target + 32)
      && (s'.readers[r].ok ==> target <= |s.frames| && s'.readers[r].out == s.frames[target - 1])
      && (!s'.readers[r].ok ==> s'.readers[r].out == out)
  {
    hide Run, Inv, Apply, CopyOuts, SlotOf;
    var s := Run(n, events);
    var e1 := events + [Ask(r, ByIndex(target), max, out)];
    var e2 := e1 + [LoadIndex(r)];
    RunAppend(n, events, Ask(r, ByIndex(target), max, out));
    RunAppend(n, e1, LoadIndex(r));
    AskedState(s, n, r, ByIndex(target), max, out);
    RingState(n, events, 0);
    if 1 <= target <= s.index < target + 32 {
      QuietPicked(n, e2, r);
    } else {
      QuietRefused(n, e2, r);
    }
  }

  // ----- a whole publication -----

  /** A whole publication appends its body to the frames and moves the publish index on by one. */
  lemma PublishAppends(n: nat, events: seq<Event>, body: Body)
    requires Run(n, events).writer.Resting? && |body| == n
    ensures var s, s' := Run(n, events), Run(n, Stamping(n, events, body) + [StoreIndex]);
      s'.writer.Resting? && s'.index == s.index + 1 && s'.frames == s.frames + [body] && s'.readers == s.readers
  {
    hide Run, Inv, Apply, Stamping;
    var e := Stamping(n, events, body);
    StampingRun(n, events, body);
    RunAppend(n, e, StoreIndex);
    StoreState(Run(n, e), n);
  }
}
