/** Counting votes on the frames of a solution (VideoUpscalerThread.go). */
module Tally {
  import opened Records

  /** slices.IndexFunc on the filename: the first frame of that name, or -1. */
  function IndexNamed(frames: seq<Frame>, name: Text): (i: int)
    ensures -1 <= i < |frames|
    ensures i >= 0 ==> frames[i].filename == name && forall j :: 0 <= j < i ==> frames[j].filename != name
    ensures i < 0 ==> forall j :: 0 <= j < |frames| ==> frames[j].filename != name
  {
    if frames == [] then -1
    else if frames[0].filename == name then 0
    else
      var i := IndexNamed(frames[1..], name);
      if i < 0 then -1 else i + 1
  }

  datatype Ballot = Absent | Unreadable | Valid | Invalid

  /** What one validation says about one frame: its first frame of that name decides. */
  function Cast(o: Oracle, f: Frame, v: Validation): Ballot {
    var idx := IndexNamed(v.frames, f.filename);
    if idx < 0 then Absent
    else if !o.keyDecodes(v.publicKey) || !o.signatureDecodes(v.frames[idx].signature) then Unreadable
    else if o.verifies(v.publicKey, f.hash, v.validator, v.frames[idx].signature) then Valid
    else Invalid
  }

  function Count(o: Oracle, f: Frame, vs: seq<Validation>, b: Ballot): nat {
    if vs == [] then 0
    else Count(o, f, vs[..|vs| - 1], b) + if Cast(o, f, vs[|vs| - 1]) == b then 1 else 0
  }

  /** Number of validations read before the first unreadable one. */
  function Heard(o: Oracle, f: Frame, vs: seq<Validation>): (n: nat)
    ensures n <= |vs|
    ensures forall k :: 0 <= k < n ==> Cast(o, f, vs[k]) != Unreadable
    ensures n < |vs| ==> Cast(o, f, vs[n]) == Unreadable
  {
    if vs == [] || Cast(o, f, vs[0]) == Unreadable then 0 else 1 + Heard(o, f, vs[1..])
  }

  /** The frame with the ballots of the first n validations added. */
  function Added(o: Oracle, f: Frame, vs: seq<Validation>): Frame {
    f.(validCount := f.validCount + Count(o, f, vs, Valid), invalidCount := f.invalidCount + Count(o, f, vs, Invalid))
  }

  /** The pass reaches frame j: every validation was readable for every earlier frame. */
  predicate Reached(o: Oracle, frames: seq<Frame>, vs: seq<Validation>, j: nat)
    requires j <= |frames|
  {
    forall k :: 0 <= k < j ==> Heard(o, frames[k], vs) == |vs|
  }

  /** One EvaluateVerifications pass. The first unreadable key or signature ends it; ballots already counted stay. */
  function Evaluated(o: Oracle, frames: seq<Frame>, vs: seq<Validation>): (r: seq<Frame>)
    ensures |r| == |frames|
    ensures forall j :: 0 <= j < |frames| ==>
      r[j] == if Reached(o, frames, vs, j) then Added(o, frames[j], vs[..Heard(o, frames[j], vs)]) else frames[j]
  {
    seq(|frames|, j requires 0 <= j < |frames| =>
      if Reached(o, frames, vs, j) then Added(o, frames[j], vs[..Heard(o, frames[j], vs)]) else frames[j])
  }

  lemma {:induction false} HeardAt(o: Oracle, f: Frame, vs: seq<Validation>, n: nat)
    requires n <= |vs| && forall k :: 0 <= k < n ==> Cast(o, f, vs[k]) != Unreadable
    ensures n <= Heard(o, f, vs)
    ensures n < |vs| && Cast(o, f, vs[n]) == Unreadable ==> Heard(o, f, vs) == n
  {
  }

  /** The inner loop: one frame against the validations. `ok` is false when the pass ends here. */
  method EvaluateFrame(o: Oracle, start: Frame, vs: seq<Validation>) returns (frame: Frame, ok: bool)
    ensures frame == Added(o, start, vs[..Heard(o, start, vs)])
    ensures ok <==> Heard(o, start, vs) == |vs|
  {
    frame := start;
    for k := 0 to |vs|
      invariant frame == Added(o, start, vs[..k])
      invariant forall j :: 0 <= j < k ==> Cast(o, start, vs[j]) != Unreadable
    {
      assert vs[..k + 1][..k] == vs[..k];
      HeardAt(o, start, vs, k);
      var idx := IndexNamed(vs[k].frames, frame.filename);
      if idx < 0 {
        continue;
      }
      if !o.keyDecodes(vs[k].publicKey) {
        return frame, false;
      }
      if !o.signatureDecodes(vs[k].frames[idx].signature) {
        return frame, false;
      }
      if o.verifies(vs[k].publicKey, frame.hash, vs[k].validator, vs[k].frames[idx].signature) {
        frame := frame.(validCount := frame.validCount + 1);
      } else {
        frame := frame.(invalidCount := frame.invalidCount + 1);
      }
    }
    HeardAt(o, start, vs, |vs|);
    return frame, true;
  }

  /** The frames once the outer loop has done the first n. */
  function EvaluatedUpTo(o: Oracle, frames: seq<Frame>, vs: seq<Validation>, n: nat): seq<Frame>
    requires n <= |frames|
  {
    Evaluated(o, frames, vs)[..n] + frames[n..]
  }

  lemma MergeNext<T>(done: seq<T>, todo: seq<T>, n: nat)
    requires |done| == |todo| && n < |done|
    ensures (done[..n] + todo[n..])[n] == todo[n]
    ensures (done[..n] + todo[n..])[n := done[n]] == done[..n + 1] + todo[n + 1..]
  {
  }

  lemma MergeEnd<T>(done: seq<T>, todo: seq<T>, n: nat)
    requires |done| == |todo| && n <= |done| && forall j :: n <= j < |done| ==> done[j] == todo[j]
    ensures done[..n] + todo[n..] == done
  {
  }

  lemma EvaluatedNext(o: Oracle, frames: seq<Frame>, vs: seq<Validation>, n: nat)
    requires n < |frames| && Reached(o, frames, vs, n)
    ensures var now := EvaluatedUpTo(o, frames, vs, n);
            && |now| == |frames| && now[n] == frames[n]
            && now[n := Added(o, frames[n], vs[..Heard(o, frames[n], vs)])] == EvaluatedUpTo(o, frames, vs, n + 1)
  {
    MergeNext(Evaluated(o, frames, vs), frames, n);
  }

  lemma ReachedNext(o: Oracle, frames: seq<Frame>, vs: seq<Validation>, n: nat)
    requires n < |frames| && Reached(o, frames, vs, n)
    ensures Reached(o, frames, vs, n + 1) <==> Heard(o, frames[n], vs) == |vs|
  {
  }

  /** After the frame that ends the pass, or after the last one, nothing changes. */
  lemma EvaluatedEnd(o: Oracle, frames: seq<Frame>, vs: seq<Validation>, n: nat)
    requires n <= |frames| && (n == |frames| || !Reached(o, frames, vs, n))
    ensures EvaluatedUpTo(o, frames, vs, n) == Evaluated(o, frames, vs)
  {
    var all := Evaluated(o, frames, vs);
    forall j | n <= j < |frames|
      ensures all[j] == frames[j]
    {
      assert !Reached(o, frames, vs, j);
    }
    MergeEnd(all, frames, n);
  }

  /** The outer loop's turn for frame j. */
  method EvaluateAt(o: Oracle, now: seq<Frame>, vs: seq<Validation>, j: nat, ghost start: seq<Frame>)
    returns (frames: seq<Frame>, ok: bool)
    requires j < |start| && Reached(o, start, vs, j) && now == EvaluatedUpTo(o, start, vs, j)
    ensures frames == EvaluatedUpTo(o, start, vs, j + 1) && (ok <==> Reached(o, start, vs, j + 1))
  {
    EvaluatedNext(o, start, vs, j);
    ReachedNext(o, start, vs, j);
    var frame;
    frame, ok := EvaluateFrame(o, now[j], vs);
    frames := now[j := frame];
  }

  method EvaluateVerifications(o: Oracle, start: seq<Frame>, vs: seq<Validation>) returns (frames: seq<Frame>)
    ensures frames == Evaluated(o, start, vs)
  {
    frames := start;
    for j := 0 to |start|
      invariant Reached(o, start, vs, j) && frames == EvaluatedUpTo(o, start, vs, j)
    {
      var ok;
      frames, ok := EvaluateAt(o, frames, vs, j, start);
      if !ok {
        EvaluatedEnd(o, start, vs, j + 1);
        return;
      }
    }
    EvaluatedEnd(o, start, vs, |start|);
  }

  /** When every key and signature decodes, a pass raises each frame's counts by exactly the number of validations
      whose first frame of that name verifies or fails. */
  lemma ExactTally(o: Oracle, frames: seq<Frame>, vs: seq<Validation>, j: nat)
    requires j < |frames|
    requires forall v :: v in vs ==> o.keyDecodes(v.publicKey)
    requires forall v, f :: v in vs && f in v.frames ==> o.signatureDecodes(f.signature)
    ensures Evaluated(o, frames, vs)[j] == Added(o, frames[j], vs)
    ensures Count(o, frames[j], vs, Valid) + Count(o, frames[j], vs, Invalid) + Count(o, frames[j], vs, Absent) == |vs|
  {
    forall k | 0 <= k <= j
      ensures Heard(o, frames[k], vs) == |vs|
    {
      forall i | 0 <= i < |vs|
        ensures Cast(o, frames[k], vs[i]) != Unreadable
      {
        assert vs[i] in vs;
      }
      HeardAt(o, frames[k], vs, |vs|);
    }
    assert vs[..|vs|] == vs;
    BallotsAddUp(o, frames[j], vs);
  }

  lemma {:induction false} BallotsAddUp(o: Oracle, f: Frame, vs: seq<Validation>)
    ensures Count(o, f, vs, Valid) + Count(o, f, vs, Invalid) + Count(o, f, vs, Absent)
            + Count(o, f, vs, Unreadable) == |vs|
    ensures Heard(o, f, vs) == |vs| ==> Count(o, f, vs, Unreadable) == 0
  {
    if vs != [] {
      var front := vs[..|vs| - 1];
      BallotsAddUp(o, f, front);
      if Heard(o, f, vs) == |vs| {
        HeardAt(o, f, front, |front|);
      }
    }
  }

  lemma {:induction false} SameBallots(o: Oracle, f: Frame, g: Frame, vs: seq<Validation>, b: Ballot)
    requires f.filename == g.filename && f.hash == g.hash
    ensures Count(o, f, vs, b) == Count(o, g, vs, b)
  {
    if vs != [] {
      SameBallots(o, f, g, vs[..|vs| - 1], b);
    }
  }

  lemma {:induction false} SameHeard(o: Oracle, f: Frame, g: Frame, vs: seq<Validation>)
    requires f.filename == g.filename && f.hash == g.hash
    ensures Heard(o, f, vs) == Heard(o, g, vs)
  {
    if vs != [] {
      SameHeard(o, f, g, vs[1..]);
    }
  }

  lemma SameReached(o: Oracle, frames: seq<Frame>, vs: seq<Validation>, j: nat)
    requires j <= |frames|
    ensures Reached(o, Evaluated(o, frames, vs), vs, j) <==> Reached(o, frames, vs, j)
  {
    forall k | 0 <= k < j
      ensures Heard(o, Evaluated(o, frames, vs)[k], vs) == Heard(o, frames[k], vs)
    {
      SameHeard(o, Evaluated(o, frames, vs)[k], frames[k], vs);
    }
  }

  /** The frame with the ballots of the readable validations added a number of times. */
  function AddedTimes(o: Oracle, f: Frame, vs: seq<Validation>, times: nat): Frame {
    var heard := vs[..Heard(o, f, vs)];
    f.(validCount := f.validCount + times * Count(o, f, heard, Valid),
       invalidCount := f.invalidCount + times * Count(o, f, heard, Invalid))
  }

  /** Counts are not reset: whatever is readable, a second pass over stored counts adds again what the first added, and
      leaves alone what the first did not reach. */
  lemma RepeatedPass(o: Oracle, frames: seq<Frame>, vs: seq<Validation>, j: nat)
    requires j < |frames|
    ensures var once := Evaluated(o, frames, vs);
            && once[j] == (if Reached(o, frames, vs, j) then AddedTimes(o, frames[j], vs, 1) else frames[j])
            && Evaluated(o, once, vs)[j] ==
               if Reached(o, frames, vs, j) then AddedTimes(o, frames[j], vs, 2) else frames[j]
  {
    var once := Evaluated(o, frames, vs);
    SameReached(o, frames, vs, j);
    SameHeard(o, once[j], frames[j], vs);
    var heard := vs[..Heard(o, frames[j], vs)];
    SameBallots(o, frames[j], once[j], heard, Valid);
    SameBallots(o, frames[j], once[j], heard, Invalid);
  }

  /** When everything decodes, two passes over the same validations add every ballot twice. */
  lemma RepeatedTally(o: Oracle, frames: seq<Frame>, vs: seq<Validation>, j: nat)
    requires j < |frames|
    requires forall v :: v in vs ==> o.keyDecodes(v.publicKey)
    requires forall v, f :: v in vs && f in v.frames ==> o.signatureDecodes(f.signature)
    ensures var again := Evaluated(o, Evaluated(o, frames, vs), vs)[j];
            && again.validCount == frames[j].validCount + 2 * Count(o, frames[j], vs, Valid)
            && again.invalidCount == frames[j].invalidCount + 2 * Count(o, frames[j], vs, Invalid)
  {
    var once := Evaluated(o, frames, vs);
    ExactTally(o, frames, vs, j);
    ExactTally(o, once, vs, j);
    SameBallots(o, frames[j], once[j], vs, Valid);
    SameBallots(o, frames[j], once[j], vs, Invalid);
  }

  // ---- acceptance ----

  function CountReaching(frames: seq<Frame>, need: int): nat {
    if frames == [] then 0
    else CountReaching(frames[..|frames| - 1], need) + if frames[|frames| - 1].validCount >= need then 1 else 0
  }

  function Reaching(frames: seq<Frame>, need: int): set<nat> {
    set j: nat | j < |frames| && frames[j].validCount >= need
  }

  /** It counts the places of the frames that reach the votes needed. */
  lemma {:induction false} CountReachingIsSize(frames: seq<Frame>, need: int)
    ensures CountReaching(frames, need) == |Reaching(frames, need)|
  {
    if frames != [] {
      var n := |frames| - 1;
      CountReachingIsSize(frames[..n], need);
      var last: set<nat> := if frames[n].validCount >= need then {n} else {};
      assert Reaching(frames, need) == Reaching(frames[..n], need) + last;
    }
  }

  function Max(a: int, b: int): int { if a >= b then a else b }

  /** Votes a frame needs: one when the thread has a single worker, else two. */
  function VotesNeeded(workers: seq<Text>): int { if |workers| == 1 then 1 else 2 }

  /** At least a fifth of the frames, and at least one, reached the required count. */
  predicate Accepted(frames: seq<Frame>, workers: seq<Text>) {
    frames != [] && CountReaching(frames, VotesNeeded(workers)) >= Max(1, |frames| / 5)
  }

  lemma {:induction false} SameCount(a: seq<Frame>, b: seq<Frame>, need: int)
    requires |a| == |b| && forall j :: 0 <= j < |a| ==> a[j].validCount == b[j].validCount
    ensures CountReaching(a, need) == CountReaching(b, need)
  {
    if a != [] {
      SameCount(a[..|a| - 1], b[..|b| - 1], need);
    }
  }

  /** Votes against a frame play no part: with any invalid counts the verdict is the same. */
  lemma InvalidVotesIgnored(a: seq<Frame>, b: seq<Frame>, workers: seq<Text>)
    requires |a| == |b| && forall j :: 0 <= j < |a| ==> a[j].validCount == b[j].validCount
    ensures Accepted(a, workers) <==> Accepted(b, workers)
  {
    SameCount(a, b, VotesNeeded(workers));
  }

  /** A solution of one frame is accepted exactly when the frame has the votes needed, however many are against it. */
  lemma OneFrameAccepted(f: Frame, workers: seq<Text>)
    ensures Accepted([f], workers) <==> f.validCount >= VotesNeeded(workers)
  {
    assert [f][..0] == [] && CountReaching([f][..0], VotesNeeded(workers)) == 0;
  }

  method IsSolutionAccepted(frames: seq<Frame>, workers: seq<Text>) returns (accepted: bool)
    ensures accepted <==> Accepted(frames, workers)
  {
    var validFrameCount := 0;
    var minValidValidations := 2;
    if |workers| == 1 {
      minValidValidations := 1;
    }
    var totalFrames := |frames|;
    if totalFrames == 0 {
      return false;
    }
    for i := 0 to |frames|
      invariant validFrameCount == CountReaching(frames[..i], minValidValidations)
    {
      assert frames[..i + 1][..i] == frames[..i];
      if frames[i].validCount >= minValidValidations {
        validFrameCount := validFrameCount + 1;
      }
    }
    assert frames[..|frames|] == frames;
    var required := totalFrames / 5;
    if required == 0 && totalFrames > 0 {
      required := 1;
    }
    return validFrameCount >= required;
  }

  method IsReverse(workers: seq<Text>, worker: Text) returns (reverse: bool)
    ensures reverse == OddPlace(workers, worker)
  {
    for i := 0 to |workers|
      invariant forall j :: 0 <= j < i ==> workers[j] != worker
    {
      if workers[i] == worker {
        return i % 2 != 0;
      }
    }
    return false;
  }

  /** The worker's first place in the list is odd (0-based). */
  predicate OddPlace(workers: seq<Text>, worker: Text) {
    exists i :: 0 <= i < |workers| && workers[i] == worker && i % 2 != 0 &&
                forall j :: 0 <= j < i ==> workers[j] != worker
  }
}
