/** The per-slot seqlock of the input-health snapshot table: one writer and any number of readers take
    interleaved atomic steps, and bodies are copied piece by piece in any order. */
module Seqlock {

  import opened SharedSlot

  /** Where WriteSlot stands: Loaded has read the generation, Copying has made it odd and copied some pieces. */
  datatype Writer =
    | Idle
    | Loaded(index: nat, body: Body, prev: nat)
    | Copying(index: nat, body: Body, prev: nat, done: set<nat>)

  /** Where a TryReadSlot call stands. `since` is the number of writes to the slot that were complete when the
      call began; it is not used by the code. */
  datatype Reader =
    | Trying(index: nat, attempt: nat, max: nat, out: Body, since: nat)
    | Reading(index: nat, attempt: nat, max: nat, out: Body, since: nat, g1: nat, got: set<nat>)
    | Returned(index: nat, ok: bool, out: Body, since: nat, g: nat)

  /** log[i] lists the bodies that slot i held or holds in full, oldest first; it is not part of the memory. */
  datatype State = State(slots: seq<Slot>, writer: Writer, readers: map<nat, Reader>, log: seq<seq<Body>>)

  /** A fresh segment of m slots is zero; nobody is at work. */
  function Init(m: nat, n: nat): State
  {
    State(seq(m, (i: nat) => Slot(0, ZeroBody(n))), Idle, map[], seq(m, (i: nat) => [ZeroBody(n)]))
  }

  /** The atomic steps. */
  datatype Step =
    | BeginWrite(index: nat, body: Body)
    | MarkOdd
    | CopyIn(k: nat)
    | StampEven
    | BeginRead(r: nat, index: nat, out: Body, max: nat)
    | LoadBefore(r: nat)
    | CopyOut(r: nat, k: nat)
    | LoadAfter(r: nat)

  function WriterStep(s: State, n: nat, step: Step): State
    requires |s.log| == |s.slots|
  {
    match step
    case BeginWrite(index, body) =>
      // A write to a slot that does not exist does nothing.
      if s.writer.Idle? && index < |s.slots| && |body| == n
      then s.(writer := Loaded(index, body, s.slots[index].generation)) else s
    case MarkOdd =>
      if s.writer.Loaded? && s.writer.index < |s.slots| then
        var w := s.writer;
        s.(slots := s.slots[w.index := s.slots[w.index].(generation := w.prev + 1)],
           writer := Copying(w.index, w.body, w.prev, {}))
      else s
    case CopyIn(k) =>
      if s.writer.Copying? && s.writer.index < |s.slots| && k < |s.writer.body| && k < |s.slots[s.writer.index].body| then
        var w, slot := s.writer, s.slots[s.writer.index];
        s.(slots := s.slots[w.index := slot.(body := slot.body[k := w.body[k]])], writer := w.(done := w.done + {k}))
      else s
    case StampEven =>
      if s.writer.Copying? && s.writer.index < |s.slots| && s.writer.done == Pieces(n) then
        var w := s.writer;
        s.(slots := s.slots[w.index := s.slots[w.index].(generation := w.prev + 2)], writer := Idle,
           log := s.log[w.index := s.log[w.index] + [w.body]])
      else s
    case _ => s
  }

  /** A reader that reads the generation: it gives up, waits out a write, or starts to copy. */
  function AfterFirstLoad(t: Reader, g1: nat): Reader
    requires t.Trying?
  {
    if t.attempt >= t.max then Returned(t.index, false, t.out, t.since, 0)
    else if g1 % 2 != 0 then Trying(t.index, t.attempt + 1, t.max, t.out, t.since)
    else Reading(t.index, t.attempt, t.max, t.out, t.since, g1, {})
  }

  function AfterCopy(t: Reader, k: nat, v: int): Reader
    requires t.Reading? && k < |t.out|
  {
    Reading(t.index, t.attempt, t.max, t.out[k := v], t.since, t.g1, t.got + {k})
  }

  /** A reader that reads the generation again: unchanged means success. */
  function AfterSecondLoad(t: Reader, g2: nat): Reader
    requires t.Reading?
  {
    if t.g1 == g2 then Returned(t.index, true, t.out, t.since, t.g1)
    else Trying(t.index, t.attempt + 1, t.max, t.out, t.since)
  }

  /** The number of complete writes. */
  function Writes(log: seq<Body>): nat
  {
    if log == [] then 0 else |log| - 1
  }

  function ReaderStep(s: State, n: nat, step: Step): State
    requires |s.log| == |s.slots|
  {
    match step
    case BeginRead(r, index, out, max) =>
      if |out| != n || (r in s.readers && !s.readers[r].Returned?) then s
      else if index >= |s.slots| then s.(readers := s.readers[r := Returned(index, false, out, 0, 0)])
      else s.(readers := s.readers[r := Trying(index, 0, max, out, Writes(s.log[index]))])
    case LoadBefore(r) =>
      if r in s.readers && s.readers[r].Trying? && s.readers[r].index < |s.slots|
      then s.(readers := s.readers[r := AfterFirstLoad(s.readers[r], s.slots[s.readers[r].index].generation)])
      else s
    case CopyOut(r, k) =>
      if r in s.readers && s.readers[r].Reading? && s.readers[r].index < |s.slots|
         && k < |s.readers[r].out| && k < |s.slots[s.readers[r].index].body|
      then s.(readers := s.readers[r := AfterCopy(s.readers[r], k, s.slots[s.readers[r].index].body[k])])
      else s
    case LoadAfter(r) =>
      if r in s.readers && s.readers[r].Reading? && s.readers[r].index < |s.slots| && s.readers[r].got == Pieces(n)
      then s.(readers := s.readers[r := AfterSecondLoad(s.readers[r], s.slots[s.readers[r].index].generation)])
      else s
    case _ => s
  }

  predicate IsWriterStep(step: Step)
  {
    step.BeginWrite? || step.MarkOdd? || step.CopyIn? || step.StampEven?
  }

  /** One step; a step that is not possible changes nothing. */
  function Apply(s: State, n: nat, step: Step): State
    requires |s.log| == |s.slots|
  {
    if IsWriterStep(step) then WriterStep(s, n, step) else ReaderStep(s, n, step)
  }

  // ----- invariant -----

  predicate WritingTo(w: Writer, i: nat)
  {
    w.Copying? && w.index == i
  }

  /** The body of a slot: the last complete one, with the pieces of a write under way on top. */
  ghost predicate SlotHolds(slot: Slot, log: seq<Body>, w: Writer, i: nat, n: nat)
  {
    && log != [] && (forall j :: 0 <= j < |log| ==> |log[j]| == n) && |slot.body| == n
    && slot.generation == 2 * (|log| - 1) + (if WritingTo(w, i) then 1 else 0)
    && (forall k: nat :: k < n ==> slot.body[k] == if WritingTo(w, i) && k in w.done && k < |w.body| then w.body[k] else log[|log| - 1][k])
  }

  ghost predicate WriterHolds(s: State, n: nat)
    requires |s.log| == |s.slots|
  {
    match s.writer
    case Idle => true
    case Loaded(i, body, prev) => i < |s.slots| && |body| == n && prev == 2 * (|s.log[i]| - 1)
    case Copying(i, body, prev, done) => i < |s.slots| && |body| == n && prev == 2 * (|s.log[i]| - 1) && done <= Pieces(n)
  }

  /** What a reader has copied is right for as long as the generation it started with is still there. */
  ghost predicate ReaderHolds(r: Reader, slots: seq<Slot>, log: seq<seq<Body>>, n: nat)
    requires |log| == |slots|
  {
    && |r.out| == n
    && (!r.Returned? ==> r.index < |slots| && log[r.index] != [] && r.since <= |log[r.index]| - 1)
    && (r.Reading? ==>
          && r.g1 % 2 == 0 && r.g1 / 2 <= |log[r.index]| - 1 && r.since <= r.g1 / 2 && r.got <= Pieces(n)
          && r.g1 <= slots[r.index].generation
          && (r.g1 == slots[r.index].generation ==>
                |log[r.index][r.g1 / 2]| == n && forall k: nat :: k in r.got ==> r.out[k] == log[r.index][r.g1 / 2][k]))
    && (r.Returned? && r.ok ==>
          && r.index < |slots| && r.since <= r.g / 2 < |log[r.index]| && r.out == log[r.index][r.g / 2])
  }

  ghost predicate Inv(s: State, n: nat)
  {
    && |s.log| == |s.slots|
    && (forall i :: 0 <= i < |s.slots| ==> SlotHolds(s.slots[i], s.log[i], s.writer, i, n))
    && WriterHolds(s, n)
    && (forall r :: r in s.readers ==> ReaderHolds(s.readers[r], s.slots, s.log, n))
  }

  lemma InitInv(m: nat, n: nat)
    ensures Inv(Init(m, n), n)
  {
  }

  /** What the writer does to the memory, as far as readers can tell. */
  lemma MemoryMovesOn(r: Reader, s: State, s': State, n: nat)
    requires |s.log| == |s.slots| == |s'.log| == |s'.slots| && ReaderHolds(r, s.slots, s.log, n)
    requires forall i :: 0 <= i < |s.slots| ==> s.log[i] <= s'.log[i] && s.slots[i].generation <= s'.slots[i].generation
    ensures ReaderHolds(r, s'.slots, s'.log, n)
  {
    if r.index < |s.slots| {
      assert s.log[r.index] <= s'.log[r.index];
    }
  }

  lemma WriterKeeps(s: State, n: nat, step: Step)
    requires Inv(s, n) && IsWriterStep(step)
    ensures Inv(WriterStep(s, n, step), n)
  {
    hide ReaderHolds;
    var s' := WriterStep(s, n, step);
    WriterSlots(s, n, step);
    forall r | r in s'.readers ensures ReaderHolds(s'.readers[r], s'.slots, s'.log, n) {
      MemoryMovesOn(s.readers[r], s, s', n);
    }
  }

  /** The writer changes one slot and its log; the log only grows, and the generation with it. */
  lemma WriterSlots(s: State, n: nat, step: Step)
    requires Inv(s, n) && IsWriterStep(step)
    ensures var s' := WriterStep(s, n, step);
      && |s'.log| == |s'.slots| == |s.slots| && s'.readers == s.readers && WriterHolds(s', n)
      && (forall i :: 0 <= i < |s.slots| ==> SlotHolds(s'.slots[i], s'.log[i], s'.writer, i, n))
      && (forall i :: 0 <= i < |s.slots| ==> s.log[i] <= s'.log[i] && s.slots[i].generation <= s'.slots[i].generation)
  {
    hide ReaderHolds;
    var s' := WriterStep(s, n, step);
    if !s.writer.Idle? {
      assert SlotHolds(s.slots[s.writer.index], s.log[s.writer.index], s.writer, s.writer.index, n);
    }
    forall i | 0 <= i < |s.slots|
      ensures SlotHolds(s'.slots[i], s'.log[i], s'.writer, i, n)
      ensures s.log[i] <= s'.log[i] && s.slots[i].generation <= s'.slots[i].generation
    {
      assert SlotHolds(s.slots[i], s.log[i], s.writer, i, n);
    }
  }

  lemma ReaderKeeps(s: State, n: nat, step: Step)
    requires Inv(s, n) && !IsWriterStep(step)
    ensures Inv(ReaderStep(s, n, step), n)
  {
    var s' := ReaderStep(s, n, step);
    assert s'.slots == s.slots && s'.log == s.log && s'.writer == s.writer;
    forall r | r in s'.readers ensures ReaderHolds(s'.readers[r], s'.slots, s'.log, n) {
      if r in s.readers && s'.readers[r] == s.readers[r] {
      } else {
        ReaderMoved(s, n, step, r);
      }
    }
  }

  lemma FirstLoadKeeps(t: Reader, s: State, n: nat)
    requires Inv(s, n) && t.Trying? && ReaderHolds(t, s.slots, s.log, n)
    ensures ReaderHolds(AfterFirstLoad(t, s.slots[t.index].generation), s.slots, s.log, n)
  {
    assert SlotHolds(s.slots[t.index], s.log[t.index], s.writer, t.index, n);
  }

  /** An even generation means that the body is the last complete one. */
  lemma CopyKeeps(t: Reader, s: State, n: nat, k: nat)
    requires Inv(s, n) && t.Reading? && ReaderHolds(t, s.slots, s.log, n) && k < n && k < |s.slots[t.index].body|
    ensures ReaderHolds(AfterCopy(t, k, s.slots[t.index].body[k]), s.slots, s.log, n)
  {
    assert SlotHolds(s.slots[t.index], s.log[t.index], s.writer, t.index, n);
  }

  lemma SecondLoadKeeps(t: Reader, s: State, n: nat)
    requires Inv(s, n) && t.Reading? && ReaderHolds(t, s.slots, s.log, n) && t.got == Pieces(n)
    ensures ReaderHolds(AfterSecondLoad(t, s.slots[t.index].generation), s.slots, s.log, n)
  {
    hide SlotHolds, WriterHolds;
  }

  lemma ReaderMoved(s: State, n: nat, step: Step, r: nat)
    requires Inv(s, n) && !IsWriterStep(step)
    requires var s' := ReaderStep(s, n, step); r in s'.readers && !(r in s.readers && s'.readers[r] == s.readers[r])
    ensures var s' := ReaderStep(s, n, step); ReaderHolds(s'.readers[r], s.slots, s.log, n)
  {
    hide AfterFirstLoad, AfterCopy, AfterSecondLoad, Pieces, WriterHolds;
    match step
    case BeginRead(_, index, _, _) =>
      if index < |s.slots| {
        assert SlotHolds(s.slots[index], s.log[index], s.writer, index, n);
      }
    case LoadBefore(_) => FirstLoadKeeps(s.readers[r], s, n);
    case CopyOut(_, k) =>
      assert ReaderHolds(s.readers[r], s.slots, s.log, n);
      CopyKeeps(s.readers[r], s, n, k);
    case LoadAfter(_) => SecondLoadKeeps(s.readers[r], s, n);
    case _ =>
  }

  /** Every step keeps the invariant. */
  lemma StepKeepsInv(s: State, n: nat, step: Step)
    requires Inv(s, n)
    ensures Inv(Apply(s, n, step), n)
  {
    hide Inv;
    if IsWriterStep(step) {
      WriterKeeps(s, n, step);
    } else {
      ReaderKeeps(s, n, step);
    }
  }

  // ----- runs -----

  /** The state behind a list of steps. */
  ghost function Run(m: nat, n: nat, steps: seq<Step>): (s: State)
    ensures Inv(s, n)
  {
    if steps == [] then
      InitInv(m, n);
      Init(m, n)
    else
      var s := Run(m, n, steps[..|steps| - 1]);
      StepKeepsInv(s, n, steps[|steps| - 1]);
      Apply(s, n, steps[|steps| - 1])
  }

  /** In every interleaving, a read that succeeds returns one body in full: the zero body the segment starts
      with, or a body that some write has completed, and none older than the last one complete when the call began. */
  lemma NoTornReads(m: nat, n: nat, steps: seq<Step>, r: nat)
    requires r in Run(m, n, steps).readers && Run(m, n, steps).readers[r].Returned? && Run(m, n, steps).readers[r].ok
    ensures var s := Run(m, n, steps); var t := s.readers[r];
      t.index < |s.log| && t.since <= t.g / 2 < |s.log[t.index]| && t.out == s.log[t.index][t.g / 2]
  {
    var s := Run(m, n, steps);
    assert ReaderHolds(s.readers[r], s.slots, s.log, n);
  }

  /** In every reachable state a slot's generation is odd exactly while a write to it is copying, and twice the
      number of completed writes otherwise. */
  lemma EvenMeansQuiet(m: nat, n: nat, steps: seq<Step>, i: nat)
    requires i < |Run(m, n, steps).slots|
    ensures var s := Run(m, n, steps);
      (s.slots[i].generation % 2 == 0 <==> !WritingTo(s.writer, i))
      && (!WritingTo(s.writer, i) ==> s.slots[i].body == s.log[i][|s.log[i]| - 1])
  {
    hide Run, SlotHolds, ReaderHolds, WriterHolds;
    var s := Run(m, n, steps);
    SlotQuiet(s, n, i);
  }

  lemma SlotQuiet(s: State, n: nat, i: nat)
    requires Inv(s, n) && i < |s.slots|
    ensures s.slots[i].generation % 2 == 0 <==> !WritingTo(s.writer, i)
    ensures !WritingTo(s.writer, i) ==> s.slots[i].body == s.log[i][|s.log[i]| - 1]
  {
    hide ReaderHolds;
    assert SlotHolds(s.slots[i], s.log[i], s.writer, i, n);
    Parity(Writes(s.log[i]));
  }

  lemma Parity(k: nat)
    ensures 2 * k % 2 == 0 && (2 * k + 1) % 2 == 1
  {
  }

  // ----- progress -----

  /** The pieces a reader copies while nobody writes. */
  function CopyAll(s: State, n: nat, r: nat, k: nat): State
    requires |s.log| == |s.slots| && k <= n
    ensures |CopyAll(s, n, r, k).log| == |CopyAll(s, n, r, k).slots|
  {
    if k == 0 then s else ReaderStep(CopyAll(s, n, r, k - 1), n, CopyOut(r, k - 1))
  }

  /** What copying all pieces gets. */
  ghost predicate GotSome(s: State, s': State, r: nat, k: nat, n: nat)
    requires r in s.readers
  {
    && s'.slots == s.slots && s'.log == s.log && r in s'.readers && s'.readers[r].Reading? && s.readers[r].Reading?
    && s'.readers[r].index == s.readers[r].index < |s.slots| && s'.readers[r].g1 == s.readers[r].g1
    && |s'.readers[r].out| == n && s'.readers[r].got == Pieces(k) && |s.slots[s.readers[r].index].body| == n
    && forall j: nat :: j < k <= n ==> s'.readers[r].out[j] == s.slots[s.readers[r].index].body[j]
  }

  lemma {:induction false} CopyAllGets(s: State, n: nat, r: nat, k: nat)
    requires r in s.readers && s.readers[r].Reading? && s.readers[r].got == {} && k <= n && |s.log| == |s.slots|
    requires |s.readers[r].out| == n && s.readers[r].index < |s.slots| && |s.slots[s.readers[r].index].body| == n
    ensures GotSome(s, CopyAll(s, n, r, k), r, k, n)
  {
    if k > 0 {
      CopyAllGets(s, n, r, k - 1);
    }
  }

  /** An attempt that no write disturbs succeeds and returns the slot's current body. */
  lemma QuietReadSucceeds(s: State, n: nat, r: nat)
    requires Inv(s, n) && r in s.readers && s.readers[r].Trying? && s.readers[r].attempt < s.readers[r].max
    requires !WritingTo(s.writer, s.readers[r].index)
    ensures var s1 := ReaderStep(s, n, LoadBefore(r));
      var t := ReaderStep(CopyAll(s1, n, r, n), n, LoadAfter(r));
      && r in t.readers && t.readers[r].Returned? && t.readers[r].ok
      && t.readers[r].out == s.log[s.readers[r].index][|s.log[s.readers[r].index]| - 1]
  {
    hide CopyAll, WriterHolds;
    var i := s.readers[r].index;
    assert ReaderHolds(s.readers[r], s.slots, s.log, n);
    SlotQuiet(s, n, i);
    assert SlotHolds(s.slots[i], s.log[i], s.writer, i, n);
    var s1 := ReaderStep(s, n, LoadBefore(r));
    CopyAllGets(s1, n, r, n);
    var body := s.slots[i].body;
    assert CopyAll(s1, n, r, n).readers[r].out == body;
  }
}
