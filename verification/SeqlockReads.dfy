/** What a read of the snapshot table is after and why it fails, and what a whole write and an undisturbed read do. */
module SeqlockReads {
  import opened SharedSlot
  import opened Seqlock

  // ----- a call, as the run shows it -----

  /** The slot and the number of attempts that the call asked for, the number of complete writes to the slot when it
      began, and how many attempts were spoilt so far. */
  datatype Call = Call(index: nat, max: nat, writes: nat, spoilt: nat)

  predicate Begins(s: State, n: nat, step: Step, r: nat)
  {
    step.BeginRead? && step.r == r && |step.out| == n && (r in s.readers ==> s.readers[r].Returned?)
  }

  /** An attempt is spoilt when it finds the slot's generation odd, or changed behind the copy. */
  predicate Spoils(s: State, n: nat, step: Step, r: nat, c: Call)
  {
    && r in s.readers && c.index < |s.slots|
    && ((step == LoadBefore(r) && s.readers[r].Trying? && c.spoilt < c.max && s.slots[c.index].generation % 2 == 1)
        || (step == LoadAfter(r) && s.readers[r].Reading? && s.readers[r].got == Pieces(n)
            && s.slots[c.index].generation != s.readers[r].g1))
  }

  function CallAfter(s: State, n: nat, step: Step, r: nat, c: Call): Call
    requires |s.log| == |s.slots|
  {
    if Begins(s, n, step, r) then Call(step.index, step.max, if step.index < |s.log| then Writes(s.log[step.index]) else 0, 0)
    else if Spoils(s, n, step, r, c) then c.(spoilt := c.spoilt + 1)
    else c
  }

  /** The last call of reader r. */
  ghost function CallOf(m: nat, n: nat, steps: seq<Step>, r: nat): Call
  {
    if steps == [] then Call(0, 0, 0, 0)
    else
      var before := steps[..|steps| - 1];
      CallAfter(Run(m, n, before), n, steps[|steps| - 1], r, CallOf(m, n, before, r))
  }

  /** What a reader remembers of its call. */
  predicate Remembers(t: Reader, c: Call, slots: nat)
  {
    && t.index == c.index && (t.Trying? || t.Reading? ==> t.index < slots && t.max == c.max && t.attempt == c.spoilt)
    && match t
       case Trying(_, _, _, _, since) => since == c.writes && c.spoilt <= c.max
       case Reading(_, _, _, _, since, _, _) => since == c.writes && c.spoilt < c.max
       case Returned(_, ok, _, since, _) =>
         if ok then t.index < slots && since == c.writes && c.spoilt < c.max else t.index >= slots || c.spoilt == c.max
  }

  lemma SameLengths(m: nat, n: nat, steps: seq<Step>)
    ensures |Run(m, n, steps).log| == |Run(m, n, steps).slots|
  {
    hide Run;
  }

  lemma CallStep(s: State, n: nat, step: Step, r: nat, c: Call)
    requires |s.log| == |s.slots| && (r in s.readers ==> Remembers(s.readers[r], c, |s.slots|))
    ensures var s' := Apply(s, n, step);
      r in s'.readers ==> Remembers(s'.readers[r], CallAfter(s, n, step, r, c), |s'.slots|)
  {
    hide Pieces, Writes;
  }

  lemma {:induction false} CallKnown(m: nat, n: nat, steps: seq<Step>, r: nat)
    ensures var s := Run(m, n, steps); r in s.readers ==> Remembers(s.readers[r], CallOf(m, n, steps, r), |s.slots|)
  {
    hide Apply, Inv, Remembers, CallAfter;
    if steps != [] {
      var before := steps[..|steps| - 1];
      CallKnown(m, n, before, r);
      SameLengths(m, n, before);
      CallStep(Run(m, n, before), n, steps[|steps| - 1], r, CallOf(m, n, before, r));
    }
  }

  /** In every interleaving, a successful read returns a whole body of the slot that was asked for, none older than the
      last one that was complete when the call began. */
  lemma ReadOfSlot(m: nat, n: nat, steps: seq<Step>, r: nat)
    requires r in Run(m, n, steps).readers && Run(m, n, steps).readers[r].Returned? && Run(m, n, steps).readers[r].ok
    ensures var s := Run(m, n, steps); var t, c := s.readers[r], CallOf(m, n, steps, r);
      c.index < |s.log| && c.writes <= t.g / 2 < |s.log[c.index]| && t.out == s.log[c.index][t.g / 2]
  {
    CallKnown(m, n, steps, r);
    NoTornReads(m, n, steps, r);
    hide Run, CallOf;
  }

  /** A read fails only when there is no such slot, or when as many attempts were spoilt as the call was given. */
  lemma FailsWhenSpoilt(m: nat, n: nat, steps: seq<Step>, r: nat)
    requires r in Run(m, n, steps).readers && Run(m, n, steps).readers[r].Returned? && !Run(m, n, steps).readers[r].ok
    ensures var c := CallOf(m, n, steps, r); c.index >= |Run(m, n, steps).slots| || c.spoilt == c.max
  {
    CallKnown(m, n, steps, r);
    hide Run, CallOf;
  }

  // ----- a whole call that nothing disturbs -----

  function QuietCall(s: State, n: nat, r: nat, index: nat, out: Body, max: nat): State
    requires |s.log| == |s.slots|
  {
    ReaderStep(CopyAll(ReaderStep(ReaderStep(s, n, BeginRead(r, index, out, max)), n, LoadBefore(r)), n, r, n), n, LoadAfter(r))
  }

  lemma {:induction false} NothingCopied(s: State, n: nat, r: nat, k: nat)
    requires |s.log| == |s.slots| && k <= n && r in s.readers && s.readers[r].Returned?
    ensures CopyAll(s, n, r, k) == s
  {
    if k > 0 {
      NothingCopied(s, n, r, k - 1);
    }
  }

  /** A read of a slot that is not being written returns its body; a read of no slot is refused with the buffer as it
      was. */
  lemma QuietCallReads(m: nat, n: nat, steps: seq<Step>, r: nat, index: nat, out: Body, max: nat)
    requires r in Run(m, n, steps).readers ==> Run(m, n, steps).readers[r].Returned?
    requires |out| == n && max >= 1 && !WritingTo(Run(m, n, steps).writer, index)
    ensures var s := Run(m, n, steps); var t := QuietCall(s, n, r, index, out, max);
      && r in t.readers && t.readers[r].Returned? && (t.readers[r].ok <==> index < |s.slots|)
      && (index < |s.slots| ==> s.log[index] != [] && t.readers[r].out == s.log[index][|s.log[index]| - 1] == s.slots[index].body)
      && (index >= |s.slots| ==> t.readers[r].out == out)
  {
    hide Run, CopyAll, Inv, ReaderHolds, SlotHolds, WriterHolds;
    var s := Run(m, n, steps);
    SameLengths(m, n, steps);
    var s1 := ReaderStep(s, n, BeginRead(r, index, out, max));
    StepKeepsInv(s, n, BeginRead(r, index, out, max));
    if index < |s.slots| {
      EvenMeansQuiet(m, n, steps, index);
      LogHolds(s, n, index);
      QuietReadSucceeds(s1, n, r);
    } else {
      NothingCopied(s1, n, r, n);
    }
  }

  lemma LogHolds(s: State, n: nat, i: nat)
    requires Inv(s, n) && i < |s.slots|
    ensures s.log[i] != [] && |s.slots[i].body| == n && s.slots[i].generation == 2 * (|s.log[i]| - 1) + (if WritingTo(s.writer, i) then 1 else 0)
  {
    assert SlotHolds(s.slots[i], s.log[i], s.writer, i, n);
  }

  // ----- a whole write -----

  /** The pieces a writer copies. */
  function CopyInAll(s: State, n: nat, k: nat): State
    requires |s.log| == |s.slots| && k <= n
    ensures |CopyInAll(s, n, k).log| == |CopyInAll(s, n, k).slots|
  {
    if k == 0 then s else WriterStep(CopyInAll(s, n, k - 1), n, CopyIn(k - 1))
  }

  function WholeWrite(s: State, n: nat, index: nat, body: Body): State
    requires |s.log| == |s.slots|
  {
    WriterStep(CopyInAll(WriterStep(WriterStep(s, n, BeginWrite(index, body)), n, MarkOdd), n, n), n, StampEven)
  }

  ghost predicate PutSome(s: State, s': State, k: nat, n: nat)
    requires s.writer.Copying? && s.writer.index < |s.slots|
  {
    var i := s.writer.index;
    && s'.log == s.log && s'.readers == s.readers && |s'.slots| == |s.slots| && s'.writer == s.writer.(done := Pieces(k))
    && s'.slots == s.slots[i := s'.slots[i]] && s'.slots[i].generation == s.slots[i].generation && |s'.slots[i].body| == n
    && forall j: nat :: j < k <= n == |s.writer.body| ==> s'.slots[i].body[j] == s.writer.body[j]
  }

  lemma {:induction false} CopyInAllPuts(s: State, n: nat, k: nat)
    requires |s.log| == |s.slots| && k <= n && s.writer.Copying? && s.writer.index < |s.slots| && s.writer.done == {}
    requires |s.writer.body| == n == |s.slots[s.writer.index].body|
    ensures PutSome(s, CopyInAll(s, n, k), k, n)
  {
    if k > 0 {
      CopyInAllPuts(s, n, k - 1);
    }
  }

  /** A whole write puts the body into its slot and nothing else anywhere, and adds two to the slot's generation. */
  lemma WholeWritePuts(m: nat, n: nat, steps: seq<Step>, index: nat, body: Body)
    requires Run(m, n, steps).writer.Idle? && |body| == n && index < |Run(m, n, steps).slots|
    ensures var s := Run(m, n, steps);
      WholeWrite(s, n, index, body)
      == s.(slots := s.slots[index := Slot(s.slots[index].generation + 2, body)], log := s.log[index := s.log[index] + [body]])
  {
    hide Run, CopyInAll, Inv;
    var s := Run(m, n, steps);
    SameLengths(m, n, steps);
    LogHolds(s, n, index);
    var s2 := WriterStep(WriterStep(s, n, BeginWrite(index, body)), n, MarkOdd);
    CopyInAllPuts(s2, n, n);
    var s3 := CopyInAll(s2, n, n);
    assert s3.slots[index].body == body;
  }
}
