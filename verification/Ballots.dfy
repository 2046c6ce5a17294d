/** Ballots that count more than once: counts left in the store by one pass, and the proposer's repeated validation. */
module Ballots {
  import opened Records
  import opened Tally
  import opened Chain
  import opened Invariant

  predicate AcceptedFrom(o: Oracle, ts: seq<Thread>, i: nat) {
    exists j :: i <= j < |ts| && NewlyAccepted(o, ts[j])
  }

  lemma LastTrueIs(flags: seq<bool>, i: nat)
    ensures i < LastTrue(flags) <==> exists j :: i <= j < |flags| && flags[j]
  {
    var n := LastTrue(flags);
    assert n > 0 ==> flags[n - 1];
  }

  lemma WrittenBackIs(o: Oracle, ts: seq<Thread>, i: nat)
    requires i < |ts|
    ensures i < WrittenBack(o, ts) <==> AcceptedFrom(o, ts, i)
  {
    var flags := Verdicts(o, ts);
    LastTrueIs(flags, i);
    assert forall j :: 0 <= j < |ts| ==> flags[j] == NewlyAccepted(o, ts[j]);
  }

  /** BeginBlock stores what a pass made of thread i exactly when it accepts that thread or a later one of the task. */
  lemma StoredExactlyWhen(o: Oracle, t: Task, i: nat)
    requires i < |t.threads|
    ensures JudgedTask(o, t).threads[i] ==
            if !t.completed && AcceptedFrom(o, t.threads, i) then Judged(o, t.threads[i]) else t.threads[i]
  {
    WrittenBackIs(o, t.threads, i);
  }

  /** So a thread that is not accepted itself keeps the counts of the pass exactly when a later one is accepted. */
  lemma CountsLeftBehind(o: Oracle, t: Task, i: nat)
    requires i < |t.threads| && !t.completed && !NewlyAccepted(o, t.threads[i])
    ensures JudgedTask(o, t).threads[i] ==
            if exists j :: i < j < |t.threads| && NewlyAccepted(o, t.threads[j]) then Judged(o, t.threads[i])
            else t.threads[i]
  {
    StoredExactlyWhen(o, t, i);
    assert AcceptedFrom(o, t.threads, i) <==> exists j :: i < j < |t.threads| && NewlyAccepted(o, t.threads[j]);
  }

  predicate Readable(o: Oracle, vs: seq<Validation>) {
    && (forall v :: v in vs ==> o.keyDecodes(v.publicKey))
    && forall v, f :: v in vs && f in v.frames ==> o.signatureDecodes(f.signature)
  }

  lemma JudgedTwice(o: Oracle, th: Thread, j: nat)
    requires Ready(th) && !NewlyAccepted(o, th) && j < |th.solution.value.frames|
    ensures var frames, vs, th' := th.solution.value.frames, th.validations, Judged(o, th);
            && Ready(th') && |th'.solution.value.frames| == |frames|
            && |Judged(o, th').solution.value.frames| == |frames|
            && th'.solution.value.frames[j] ==
               (if Reached(o, frames, vs, j) then AddedTimes(o, frames[j], vs, 1) else frames[j])
            && Judged(o, th').solution.value.frames[j] ==
               if Reached(o, frames, vs, j) then AddedTimes(o, frames[j], vs, 2) else frames[j]
  {
    RepeatedPass(o, th.solution.value.frames, th.validations, j);
    RepeatedPass(o, th.solution.value.frames, th.validations, 0);
  }

  /** What the next pass makes of a frame it reaches: every readable ballot counted, and counted once more exactly when
      a later thread was accepted before. */
  lemma CountedAgain(o: Oracle, t: Task, i: nat, j: nat)
    requires i < |t.threads| && !t.completed && Ready(t.threads[i]) && !NewlyAccepted(o, t.threads[i])
    requires j < |t.threads[i].solution.value.frames|
    ensures var th, th' := t.threads[i], JudgedTask(o, t).threads[i];
            var frames, vs := th.solution.value.frames, th.validations;
            var times := if exists k :: i < k < |t.threads| && NewlyAccepted(o, t.threads[k]) then 2 else 1;
            && Ready(th') && |Judged(o, th').solution.value.frames| == |frames|
            && Judged(o, th').solution.value.frames[j] ==
               if Reached(o, frames, vs, j) then AddedTimes(o, frames[j], vs, times) else frames[j]
  {
    CountsLeftBehind(o, t, i);
    JudgedTwice(o, t.threads[i], j);
  }

  // ---- the proposer's repeated validation ----

  /** The same validation, sent again, is accepted exactly when it comes from the proposer. */
  lemma ValidatesAgain(s: State, m: Msg)
    requires Inv(s) && m.MsgValidate? && Validate(s, m).Committed?
    ensures var th := s.tasks[m.taskId].threads[s.workers[m.creator].currentThreadIndex];
            Validate(Validate(s, m).state, m).Committed? <==> Proposer(th, m.creator)
  {
    assert WorkerInv(s, m.creator) && TaskInv(s, m.taskId);
  }

  function VerifiedBy(o: Oracle, frames: seq<Frame>, v: Validation): set<nat> {
    set j: nat | j < |frames| && Cast(o, frames[j], v) == Valid
  }

  lemma TwoBallots(o: Oracle, f: Frame, v: Validation)
    ensures Count(o, f, [v, v], Valid) == if Cast(o, f, v) == Valid then 2 else 0
  {
    assert [v, v][..1] == [v] && [v][..0] == [];
    assert Count(o, f, [v], Valid) == if Cast(o, f, v) == Valid then 1 else 0;
  }

  /** One validation, stored twice, decides alone: the thread is accepted exactly when it verifies enough frames, even
      if no other worker of the thread has voted. */
  lemma OneVoterDecides(o: Oracle, th: Thread, v: Validation)
    requires Ready(th) && th.validations == [v, v] && Readable(o, [v])
    requires forall f :: f in th.solution.value.frames ==> f.validCount == 0
    ensures NewlyAccepted(o, th) <==>
            |VerifiedBy(o, th.solution.value.frames, v)| >= Max(1, |th.solution.value.frames| / 5)
  {
    var frames, need := th.solution.value.frames, VotesNeeded(th.workers);
    var after := Judged(o, th).solution.value.frames;
    forall j: nat | j < |frames|
      ensures after[j].validCount == if Cast(o, frames[j], v) == Valid then 2 else 0
    {
      assert frames[j] in frames && forall x :: x in th.validations ==> x in [v];
      ExactTally(o, frames, th.validations, j);
      TwoBallots(o, frames[j], v);
    }
    assert Reaching(after, need) == VerifiedBy(o, frames, v);
    CountReachingIsSize(after, need);
    assert |after| == |frames| && NewlyAccepted(o, th) == Accepted(after, th.workers);
  }
}
