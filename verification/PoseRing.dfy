/** The driver pose ring: 65536 poses in shared memory, a publish index, and a reader with a lagging cursor. */
module PoseRing {

  const BUFFERED_SAMPLES: nat := 65536

  const MAX_DEVICES: nat := 64

  /** A pose as it is stored: the device, its pose, and the time it was set. */
  datatype Pose = Pose(deviceId: nat, pose: int, time: int)

  const ZERO_POSE := Pose(0, 0, 0)

  // ----- meaning -----

  /** Slot number 0 is never written; number n holds the n-th published pose. */
  function PoseNumber(published: seq<Pose>, n: nat): Pose
    requires n <= |published|
  {
    if n == 0 then ZERO_POSE else published[n - 1]
  }

  /** Where a read starts: at the cursor, or half a ring back if the reader is further behind than that.
      A cursor ahead of the index means that the segment was created anew. */
  function ReadFrom(index: nat, cursor: nat): (from: nat)
    ensures from <= index && index - from <= BUFFERED_SAMPLES / 2
  {
    if index < cursor || index - cursor > BUFFERED_SAMPLES / 2 then
      (if index < BUFFERED_SAMPLES / 2 then index else index - BUFFERED_SAMPLES / 2)
    else cursor
  }

  /** The poses number from, ..., to - 1. */
  function Deliver(published: seq<Pose>, from: nat, to: nat): (d: seq<Pose>)
    requires from <= to <= |published| + 1
    ensures |d| == to - from
  {
    if from == to then [] else Deliver(published, from, to - 1) + [PoseNumber(published, to - 1)]
  }

  // ----- the segment -----

  /** The shared memory. `published` lists all poses set so far; it is not part of the memory. */
  class Segment {
    const poses: array<Pose>
    var index: nat
    ghost var published: seq<Pose>

    /** Each slot holds the last pose whose number leads there. */
    ghost predicate Valid()
      reads this, poses
    {
      && poses.Length == BUFFERED_SAMPLES && index == |published|
      && forall n: nat {:trigger PoseNumber(published, n)} :: n <= index && index < n + BUFFERED_SAMPLES ==>
           poses[n % BUFFERED_SAMPLES] == PoseNumber(published, n)
    }

    /** New file mappings are zero. */
    constructor ()
      ensures Valid() && published == [] && fresh(poses)
    {
      poses := new Pose[BUFFERED_SAMPLES](i => ZERO_POSE);
      index := 0;
      published := [];
    }
  }

  lemma OtherSlot(n: nat, m: nat)
    requires n < m < n + BUFFERED_SAMPLES
    ensures n % BUFFERED_SAMPLES != m % BUFFERED_SAMPLES
  {
  }

  /** One side's view of the segment: the driver sets poses, the overlay reads them. */
  class DriverPoseShmem {
    const pData: Segment
    var cursor: nat

    constructor (pData: Segment)
      ensures this.pData == pData && cursor == 0
    {
      this.pData, cursor := pData, 0;
    }

    /** Publishes a pose. Devices beyond the last one are ignored, and so are negative ones, which the comparison
        takes for large unsigned numbers. */
    method SetPose(device: int, pose: int, time: int)
      requires pData.Valid()
      modifies pData, pData.poses
      ensures pData.Valid()
      ensures pData.published == old(pData.published) + (if 0 <= device < 64 then [Pose(device, pose, time)] else [])
    {
      if device < 0 || device >= MAX_DEVICES {
        return;
      }
      var augPose := Pose(device, pose, time);
      var cur_index := pData.index + 1;
      pData.poses[cur_index % BUFFERED_SAMPLES] := augPose;
      pData.index := cur_index;
      pData.published := pData.published + [augPose];
      forall n: nat {:trigger PoseNumber(pData.published, n)} | n <= cur_index && cur_index < n + BUFFERED_SAMPLES
        ensures pData.poses[n % BUFFERED_SAMPLES] == PoseNumber(pData.published, n)
      {
        if n < cur_index {
          OtherSlot(n, cur_index);
          assert PoseNumber(old(pData.published), n) == PoseNumber(pData.published, n);
        }
      }
    }

    /** Hands all new poses but the newest one to the caller, in the order of their numbers. */
    method ReadNewPoses() returns (got: seq<Pose>)
      requires pData.Valid()
      modifies this`cursor
      ensures cursor == pData.index
      ensures got == Deliver(pData.published, ReadFrom(pData.index, old(cursor)), pData.index)
      ensures old(cursor) <= pData.index ==>
        ReadFrom(pData.index, old(cursor)) == if pData.index - old(cursor) <= 32768 then old(cursor) else pData.index - 32768
    {
      var cur_index := pData.index;
      if cur_index < cursor || cur_index - cursor > BUFFERED_SAMPLES / 2 {
        if cur_index < BUFFERED_SAMPLES / 2 {
          cursor := cur_index;
        } else {
          cursor := cur_index - BUFFERED_SAMPLES / 2;
        }
      }
      ghost var from := ReadFrom(cur_index, old(cursor));
      got := [];
      while cursor < cur_index
        invariant from <= cursor <= cur_index && got == Deliver(pData.published, from, cursor)
      {
        assert PoseNumber(pData.published, cursor) == pData.poses[cursor % BUFFERED_SAMPLES];
        got := got + [pData.poses[cursor % BUFFERED_SAMPLES]];
        cursor := cursor + 1;
      }
    }
  }

  // ----- runs of whole calls -----

  datatype Call = Set(device: int, pose: int, time: int) | Read

  /** What a run has published and delivered: the numbers and the poses that went with them. */
  datatype Log = Log(published: seq<Pose>, cursor: nat, numbers: seq<nat>, got: seq<Pose>)

  function Numbers(from: nat, to: nat): (s: seq<nat>)
    requires from <= to
    ensures |s| == to - from && forall i :: 0 <= i < |s| ==> s[i] == from + i
  {
    seq(to - from, (i: nat) => from + i)
  }

  function After(l: Log, c: Call): Log
    requires l.cursor <= |l.published|
  {
    match c
    case Set(device, pose, time) =>
      if 0 <= device < MAX_DEVICES then l.(published := l.published + [Pose(device, pose, time)]) else l
    case Read =>
      var index := |l.published|;
      var from := ReadFrom(index, l.cursor);
      Log(l.published, index, l.numbers + Numbers(from, index), l.got + Deliver(l.published, from, index))
  }

  function Run(calls: seq<Call>): (l: Log)
    ensures l.cursor <= |l.published|
  {
    if calls == [] then Log([], 0, [], []) else After(Run(calls[..|calls| - 1]), calls[|calls| - 1])
  }

  lemma {:induction false} DeliverAt(published: seq<Pose>, from: nat, to: nat, i: nat)
    requires from <= to <= |published| + 1 && i < to - from
    ensures from + i <= |published| && Deliver(published, from, to)[i] == PoseNumber(published, from + i)
  {
    if i < to - 1 - from {
      DeliverAt(published, from, to - 1, i);
    }
  }

  /** All deliveries of a run. */
  ghost predicate Faithful(l: Log)
  {
    && l.cursor <= |l.published| && |l.got| == |l.numbers|
    && (forall i, j :: 0 <= i < j < |l.numbers| ==> l.numbers[i] < l.numbers[j])
    && (forall i :: 0 <= i < |l.numbers| ==> l.numbers[i] < l.cursor && l.got[i] == PoseNumber(l.published, l.numbers[i]))
  }

  lemma ReadKeeps(l: Log)
    requires Faithful(l)
    ensures Faithful(After(l, Read))
  {
    var index := |l.published|;
    var from := ReadFrom(index, l.cursor);
    var l' := After(l, Read);
    forall i | 0 <= i < |l'.numbers|
      ensures l'.numbers[i] < l'.cursor && l'.got[i] == PoseNumber(l'.published, l'.numbers[i])
    {
      if i >= |l.numbers| {
        DeliverAt(l.published, from, index, i - |l.numbers|);
      }
    }
  }

  /** Over any run of whole calls, delivered numbers strictly increase, and each number carries the pose that
      was published under it. */
  lemma {:induction false} RunIsFaithful(calls: seq<Call>)
    ensures Faithful(Run(calls))
  {
    hide After;
    if calls != [] {
      var l, c := Run(calls[..|calls| - 1]), calls[|calls| - 1];
      RunIsFaithful(calls[..|calls| - 1]);
      if c.Read? {
        ReadKeeps(l);
      } else {
        SetKeeps(l, c);
      }
    }
  }

  lemma SetKeeps(l: Log, c: Call)
    requires Faithful(l) && c.Set?
    ensures Faithful(After(l, c))
  {
  }

  /** Each read holds the newest pose back, and leaves out numbers only when the reader is more than half a ring
      behind; then it delivers exactly the last half ring in front of the newest pose. */
  lemma ReadDelivers(calls: seq<Call>)
    ensures var before, after := Run(calls), Run(calls + [Read]);
      var index := |before.published|;
      && after.cursor == index
      && after.numbers == before.numbers +
         (if index - before.cursor <= 32768 then Numbers(before.cursor, index) else Numbers(index - 32768, index))
  {
    assert (calls + [Read])[..|calls + [Read]| - 1] == calls;
  }
}
