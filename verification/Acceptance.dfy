/** What an accepted solution has behind it, in one pass and over whole runs. */
module Acceptance {
  import opened Records
  import opened Decimal
  import opened Rewards
  import opened Tally
  import opened Reveal
  import opened CliFormat
  import opened Chain
  import opened Invariant
  import opened Ballots
  import opened Runs

  // ---- one pass ----

  /** The validators whose ballot on the frame is valid. */
  function Voters(o: Oracle, f: Frame, vs: seq<Validation>): set<Text> {
    set v | v in vs && Cast(o, f, v) == Valid :: v.validator
  }

  lemma VotersAppend(o: Oracle, f: Frame, front: seq<Validation>, last: Validation)
    ensures Voters(o, f, front + [last]) ==
            Voters(o, f, front) + if Cast(o, f, last) == Valid then {last.validator} else {}
  {
    assert forall v :: v in front + [last] <==> v in front || v == last;
  }

  lemma {:induction false} VotersCounted(o: Oracle, f: Frame, vs: seq<Validation>)
    requires DistinctValidators(vs)
    ensures Count(o, f, vs, Valid) == |Voters(o, f, vs)|
  {
    if vs == [] {
      assert Voters(o, f, vs) == {};
    } else {
      var front, last := vs[..|vs| - 1], vs[|vs| - 1];
      VotersCounted(o, f, front);
      assert vs == front + [last];
      VotersAppend(o, f, front, last);
      assert last.validator !in Voters(o, f, front);
    }
  }

  lemma {:induction false} CountPrefix(o: Oracle, f: Frame, vs: seq<Validation>, n: nat)
    requires n <= |vs|
    ensures Count(o, f, vs[..n], Valid) <= Count(o, f, vs, Valid)
    decreases |vs|
  {
    if n < |vs| {
      assert vs[..|vs| - 1][..n] == vs[..n];
      CountPrefix(o, f, vs[..|vs| - 1], n);
    } else {
      assert vs[..n] == vs;
    }
  }

  /** Frames verified by as many different workers as are needed. */
  function Verified(o: Oracle, th: Thread): set<nat>
    requires th.solution.Some?
  {
    set j: nat | j < |th.solution.value.frames| &&
                 |Voters(o, th.solution.value.frames[j], th.validations)| >= VotesNeeded(th.workers)
  }

  lemma SetsGrow(a: set<nat>, b: set<nat>)
    requires a <= b
    ensures |a| <= |b|
  {
    assert b == a + (b - a);
  }

  lemma OneFramesVotes(o: Oracle, th: Thread, j: nat)
    requires Ready(th) && DistinctValidators(th.validations) && j < |th.solution.value.frames|
    requires th.solution.value.frames[j].validCount == 0
    ensures var f := th.solution.value.frames[j];
            var votes := Evaluated(o, th.solution.value.frames, th.validations)[j].validCount;
            && votes <= |Voters(o, f, th.validations)|
            && (Readable(o, th.validations) ==> votes == |Voters(o, f, th.validations)|)
  {
    var frames, vs := th.solution.value.frames, th.validations;
    VotersCounted(o, frames[j], vs);
    CountPrefix(o, frames[j], vs, Heard(o, frames[j], vs));
    if Readable(o, vs) {
      ExactTally(o, frames, vs, j);
    }
  }

  /** In a pass that starts from zero counts, no one having voted twice, a solution is accepted only when a fifth of its
      frames, and at least one, were each verified by as many different workers as are needed; and exactly then when
      every key and signature decodes. */
  lemma AcceptedByDistinctWorkers(o: Oracle, th: Thread)
    requires Ready(th) && DistinctValidators(th.validations)
    requires forall f :: f in th.solution.value.frames ==> f.validCount == 0
    ensures NewlyAccepted(o, th) ==> |Verified(o, th)| >= Max(1, |th.solution.value.frames| / 5)
    ensures Readable(o, th.validations) ==>
      (NewlyAccepted(o, th) <==> |Verified(o, th)| >= Max(1, |th.solution.value.frames| / 5))
  {
    var frames, need := th.solution.value.frames, VotesNeeded(th.workers);
    var after := Evaluated(o, frames, th.validations);
    forall j: nat | j < |frames|
      ensures after[j].validCount <= |Voters(o, frames[j], th.validations)|
      ensures Readable(o, th.validations) ==> after[j].validCount == |Voters(o, frames[j], th.validations)|
    {
      assert frames[j] in frames;
      OneFramesVotes(o, th, j);
    }
    CountReachingIsSize(after, need);
    assert Reaching(after, need) <= Verified(o, th);
    SetsGrow(Reaching(after, need), Verified(o, th));
    if Readable(o, th.validations) {
      assert Reaching(after, need) == Verified(o, th);
    }
    assert NewlyAccepted(o, th) == Accepted(after, th.workers);
  }

  function VerifiedNowFrames(o: Oracle, th: Thread): set<nat>
    requires th.solution.Some?
  {
    set j: nat | j < |th.solution.value.frames| && VerifiedNow(o, th.solution.value.frames[j], th.validations)
  }

  /** Some validation verifies the frame as it is revealed now. */
  predicate VerifiedNow(o: Oracle, f: Frame, vs: seq<Validation>) {
    exists v :: v in vs && Cast(o, f, v) == Valid
  }

  lemma {:induction false} CountedVote(o: Oracle, f: Frame, vs: seq<Validation>)
    ensures Count(o, f, vs, Valid) > 0 ==> VerifiedNow(o, f, vs)
  {
    if vs != [] {
      CountedVote(o, f, vs[..|vs| - 1]);
      assert vs[|vs| - 1] in vs;
    }
  }

  /** A pass that starts from zero counts accepts only frames that are verified as they are revealed now. */
  lemma FreshCountsAreCurrent(o: Oracle, th: Thread)
    requires NewlyAccepted(o, th) && forall f :: f in th.solution.value.frames ==> f.validCount == 0
    ensures |VerifiedNowFrames(o, th)| >= Max(1, |th.solution.value.frames| / 5)
  {
    var frames, need, vs := th.solution.value.frames, VotesNeeded(th.workers), th.validations;
    var after := Evaluated(o, frames, vs);
    forall j: nat | j < |frames| && after[j].validCount >= need
      ensures VerifiedNow(o, frames[j], vs)
    {
      assert frames[j] in frames;
      CountPrefix(o, frames[j], vs, Heard(o, frames[j], vs));
      CountedVote(o, frames[j], vs);
    }
    CountReachingIsSize(after, need);
    assert Reaching(after, need) <= VerifiedNowFrames(o, th);
    SetsGrow(Reaching(after, need), VerifiedNowFrames(o, th));
  }

  // ---- whole runs: verdicts ----

  /** An accepted solution has enough frames with a vote and a frame verified as it is; one that is not accepted has not
      reached the threshold. */
  predicate VerdictHolds(o: Oracle, th: Thread) {
    match th.solution
    case None => true
    case Some(sol) =>
      if sol.accepted
      then CountReaching(sol.frames, 1) >= Max(1, |sol.frames| / 5)
           && exists j :: 0 <= j < |sol.frames| && VerifiedNow(o, sol.frames[j], th.validations)
      else CountReaching(sol.frames, VotesNeeded(th.workers)) < Max(1, |sol.frames| / 5)
  }

  predicate TaskVerdicts(o: Oracle, t: Task) { forall i :: 0 <= i < |t.threads| ==> VerdictHolds(o, t.threads[i]) }

  predicate AllVerdicts(o: Oracle, s: State) { forall k :: k in s.tasks ==> TaskVerdicts(o, s.tasks[k]) }

  lemma {:induction false} FewerReachMore(frames: seq<Frame>, low: int, high: int)
    requires low <= high
    ensures CountReaching(frames, high) <= CountReaching(frames, low)
  {
    if frames != [] {
      FewerReachMore(frames[..|frames| - 1], low, high);
    }
  }

  lemma {:induction false} NoneReach(frames: seq<Frame>, need: int)
    requires forall f :: f in frames ==> f.validCount < need
    ensures CountReaching(frames, need) == 0
  {
    if frames != [] {
      assert frames[|frames| - 1] in frames;
      NoneReach(frames[..|frames| - 1], need);
    }
  }

  lemma {:induction false} NewlyReached(a: seq<Frame>, b: seq<Frame>, need: int) returns (j: nat)
    requires |a| == |b| && CountReaching(a, need) < CountReaching(b, need)
    ensures j < |a| && a[j].validCount < need <= b[j].validCount
  {
    var n := |a| - 1;
    if a[n].validCount < need <= b[n].validCount {
      j := n;
    } else {
      j := NewlyReached(a[..n], b[..n], need);
    }
  }

  lemma VotedThen(o: Oracle, f: Frame, g: Frame, vs: seq<Validation>, ws: seq<Validation>)
    requires f.filename == g.filename && f.hash == g.hash && forall v :: v in vs ==> v in ws
    ensures VerifiedNow(o, f, vs) ==> VerifiedNow(o, g, ws)
  {
    if VerifiedNow(o, f, vs) {
      var v :| v in vs && Cast(o, f, v) == Valid;
      assert Cast(o, g, v) == Valid;
    }
  }

  /** What a pass adds to a frame was voted for. */
  lemma PassAdds(o: Oracle, frames: seq<Frame>, vs: seq<Validation>, j: nat)
    requires j < |frames|
    ensures var f, g := frames[j], Evaluated(o, frames, vs)[j];
            && g.validCount >= f.validCount && (g.validCount > f.validCount ==> VerifiedNow(o, g, vs))
  {
    var f, heard := frames[j], vs[..Heard(o, frames[j], vs)];
    CountedVote(o, f, heard);
    VotedThen(o, f, Evaluated(o, frames, vs)[j], heard, vs);
  }

  lemma JudgedVerdict(o: Oracle, th: Thread)
    requires VerdictHolds(o, th)
    ensures VerdictHolds(o, Judged(o, th))
  {
    if Ready(th) {
      var frames, vs, need := th.solution.value.frames, th.validations, VotesNeeded(th.workers);
      var after := Evaluated(o, frames, vs);
      if Accepted(after, th.workers) {
        FewerReachMore(after, 1, need);
        var j := NewlyReached(frames, after, need);
        PassAdds(o, frames, vs, j);
      }
    }
  }

  lemma JudgedTaskVerdicts(o: Oracle, t: Task)
    requires TaskVerdicts(o, t)
    ensures TaskVerdicts(o, JudgedTask(o, t))
  {
    forall i | 0 <= i < |t.threads|
      ensures VerdictHolds(o, JudgedTask(o, t).threads[i])
    {
      JudgedVerdict(o, t.threads[i]);
    }
  }

  lemma ThreadPutVerdicts(o: Oracle, s: State, k: Text, i: nat, th: Thread)
    requires AllVerdicts(o, s) && k in s.tasks && i < |s.tasks[k].threads| && VerdictHolds(o, th)
    ensures AllVerdicts(o, PutThread(s, k, i, th))
  {
    assert TaskVerdicts(o, s.tasks[k]);
    assert TaskVerdicts(o, PutThread(s, k, i, th).tasks[k]);
  }

  lemma SubscribeVerdicts(o: Oracle, s: State, m: Msg)
    requires Inv(s) && AllVerdicts(o, s) && m.MsgSubscribe? && Subscribe(s, m).Committed?
    ensures AllVerdicts(o, Subscribe(s, m).state)
  {
    var i := ThreadIndex(s.tasks[m.taskId].threads, m.threadId);
    if i >= 0 && Subscribe(s, m).state != s {
      var th := s.tasks[m.taskId].threads[i];
      assert TaskInv(s, m.taskId) && TaskVerdicts(o, s.tasks[m.taskId]);
      assert ThreadInv(th, m.taskId, i, s.params.maxWorkersPerThread, s.workers.Keys);
      if th.solution.Some? {
        assert th.workers != [];
        FewerReachMore(th.solution.value.frames, VotesNeeded(th.workers), VotesNeeded(th.workers + [m.creator]));
      }
      ThreadPutVerdicts(o, s, m.taskId, i, th.(workers := th.workers + [m.creator]));
    }
  }

  lemma ProposeVerdicts(o: Oracle, s: State, m: Msg)
    requires AllVerdicts(o, s) && m.MsgPropose? && Propose(o, s, m).Committed?
    ensures AllVerdicts(o, Propose(o, s, m).state)
  {
    var i := ThreadIndex(s.tasks[m.taskId].threads, m.threadId);
    if i >= 0 {
      var th, frames := s.tasks[m.taskId].threads[i], ProposedFrames(m.signatures).value;
      NoneReach(frames, VotesNeeded(th.workers));
      ThreadPutVerdicts(o, s, m.taskId, i, th.(solution := Some(Solution(m.creator, frames, m.publicKey, [], false))));
    }
  }

  lemma RevealedVerdicts(o: Oracle, th: Thread, shown: map<Text, Frame>)
    requires VerdictHolds(o, th) && th.solution.Some? && !th.solution.value.accepted
    requires Outcome(th.solution.value.frames, shown).Some?
    ensures var sol := th.solution.value;
            VerdictHolds(o, th.(solution := Some(sol.(frames := Outcome(sol.frames, shown).value))))
  {
    var frames, after := th.solution.value.frames, Outcome(th.solution.value.frames, shown).value;
    SameCount(frames, after, VotesNeeded(th.workers));
  }

  lemma DiscloseVerdicts(o: Oracle, s: State, m: Msg)
    requires AllVerdicts(o, s) && m.MsgReveal? && Disclose(s, m).Committed?
    ensures AllVerdicts(o, Disclose(s, m).state)
  {
    var i := s.workers[m.creator].currentThreadIndex;
    var th := s.tasks[m.taskId].threads[i];
    assert TaskVerdicts(o, s.tasks[m.taskId]);
    RevealedVerdicts(o, th, FramesOf(m.entries));
    var frames := Outcome(th.solution.value.frames, FramesOf(m.entries)).value;
    ThreadPutVerdicts(o, s, m.taskId, i, th.(solution := Some(th.solution.value.(frames := frames))));
  }

  lemma VoteVerdicts(o: Oracle, th: Thread, v: Validation)
    requires VerdictHolds(o, th)
    ensures VerdictHolds(o, th.(validations := th.validations + [v]))
  {
    if th.solution.Some? {
      var frames := th.solution.value.frames;
      forall j | 0 <= j < |frames|
        ensures VerifiedNow(o, frames[j], th.validations) ==> VerifiedNow(o, frames[j], th.validations + [v])
      {
        VotedThen(o, frames[j], frames[j], th.validations, th.validations + [v]);
      }
    }
  }

  lemma ValidateVerdicts(o: Oracle, s: State, m: Msg)
    requires AllVerdicts(o, s) && m.MsgValidate? && Validate(s, m).Committed?
    ensures AllVerdicts(o, Validate(s, m).state)
  {
    var w := s.workers[m.creator];
    var i := w.currentThreadIndex;
    var th := s.tasks[m.taskId].threads[i];
    var v := Validation(m.creator, ProposedFrames(m.signatures).value, m.publicKey, OddPlace(th.workers, w.address));
    assert TaskVerdicts(o, s.tasks[m.taskId]);
    VoteVerdicts(o, th, v);
    ThreadPutVerdicts(o, s, m.taskId, i, th.(validations := th.validations + [v]));
  }

  lemma SubmitVerdicts(o: Oracle, s: State, m: Msg)
    requires AllVerdicts(o, s) && m.MsgSubmit? && Submit(s, m).Committed?
    ensures AllVerdicts(o, Submit(s, m).state)
  {
    var i := ThreadIndex(s.tasks[m.taskId].threads, m.threadId);
    if i >= 0 {
      var th := s.tasks[m.taskId].threads[i];
      assert TaskVerdicts(o, s.tasks[m.taskId]);
      ThreadPutVerdicts(o, s, m.taskId, i, Settled(th, m));
      assert Submit(s, m).state.tasks == PutThread(s, m.taskId, i, Settled(th, m)).tasks;
    }
  }

  lemma HandleVerdicts(o: Oracle, s: State, m: Msg)
    requires Inv(s) && AllVerdicts(o, s) && Handle(o, s, m).Committed?
    ensures AllVerdicts(o, Handle(o, s, m).state)
  {
    match m
    case MsgCreateTask(_, _, _, _, _, _, _) => assert TaskVerdicts(o, NewTask(Itoa(s.nextId), m));
    case MsgAddWorker(_, _, _, _, _) =>
    case MsgSubscribe(_, _, _) => SubscribeVerdicts(o, s, m);
    case MsgPropose(_, _, _, _, _) => ProposeVerdicts(o, s, m);
    case MsgReveal(_, _, _, _) => DiscloseVerdicts(o, s, m);
    case MsgValidate(_, _, _, _, _) => ValidateVerdicts(o, s, m);
    case MsgSubmit(_, _, _, _, _) => SubmitVerdicts(o, s, m);
  }

  lemma StepVerdicts(o: Oracle, s: State, e: Event)
    requires Inv(s) && AllVerdicts(o, s)
    ensures AllVerdicts(o, Step(o, s, e))
  {
    match e
    case Tx(m) =>
      if Handle(o, s, m).Committed? {
        HandleVerdicts(o, s, m);
      }
    case Begin =>
      forall k | k in s.tasks
        ensures TaskVerdicts(o, JudgedTask(o, s.tasks[k]))
      {
        JudgedTaskVerdicts(o, s.tasks[k]);
      }
    case End =>
      forall k | k in EndBlock(s).tasks
        ensures TaskVerdicts(o, EndBlock(s).tasks[k])
      {
        if k in s.tasks {
          assert TaskInv(s, k) && TaskVerdicts(o, s.tasks[k]);
        }
      }
    case External(_, _) =>
  }

  lemma {:induction false} RunVerdicts(o: Oracle, s: State, es: seq<Event>)
    requires Inv(s) && AllVerdicts(o, s)
    ensures AllVerdicts(o, Run(o, s, es))
    decreases |es|
  {
    if es != [] {
      StepVerdicts(o, s, es[0]);
      StepKeepsInv(o, s, es[0]);
      RunVerdicts(o, Step(o, s, es[0]), es[1..]);
    }
  }

  // ---- whole runs: counted votes ----

  predicate FrameAt(s: State, k: Text, i: nat, j: nat) {
    && k in s.tasks && i < |s.tasks[k].threads| && s.tasks[k].threads[i].solution.Some?
    && j < |s.tasks[k].threads[i].solution.value.frames|
  }

  function TheFrame(s: State, k: Text, i: nat, j: nat): Frame
    requires FrameAt(s, k, i, j)
  {
    s.tasks[k].threads[i].solution.value.frames[j]
  }

  /** The frame has a valid vote counted. */
  predicate Counted(s: State, k: Text, i: nat, j: nat) { FrameAt(s, k, i, j) && TheFrame(s, k, i, j).validCount > 0 }

  /** The frame is verified by a stored validation as it is revealed in this state. */
  predicate VerifiedIn(o: Oracle, s: State, k: Text, i: nat, j: nat) {
    FrameAt(s, k, i, j) && VerifiedNow(o, TheFrame(s, k, i, j), s.tasks[k].threads[i].validations)
  }

  /** A committed reveal of thread i of task k. */
  predicate Reshows(s: State, e: Event, k: Text, i: nat) {
    && e.Tx? && e.msg.MsgReveal? && Disclose(s, e.msg).Committed?
    && e.msg.taskId == k && s.workers[e.msg.creator].currentThreadIndex == i
  }

  /** The frame is as it was, and it has no vote counted if it was not there. */
  predicate SameFrame(s: State, s': State, k: Text, i: nat, j: nat) {
    && (FrameAt(s, k, i, j) ==> FrameAt(s', k, i, j) && TheFrame(s', k, i, j) == TheFrame(s, k, i, j))
    && (Counted(s', k, i, j) ==> FrameAt(s, k, i, j))
  }

  lemma CreateSame(o: Oracle, s: State, m: Msg, k: Text, i: nat, j: nat)
    requires Inv(s) && m.MsgCreateTask? && CreateTask(o, s, m).Committed?
    ensures SameFrame(s, CreateTask(o, s, m).state, k, i, j)
  {
    IdOf(s.nextId, s.nextId);
    assert Itoa(s.nextId) in s.tasks ==> TaskInv(s, Itoa(s.nextId));
  }

  lemma SubscribeSame(s: State, m: Msg, k: Text, i: nat, j: nat)
    requires Inv(s) && m.MsgSubscribe? && Subscribe(s, m).Committed?
    ensures SameFrame(s, Subscribe(s, m).state, k, i, j)
  {
    assert m.taskId in s.tasks ==> TaskInv(s, m.taskId);
  }

  lemma ProposeSame(o: Oracle, s: State, m: Msg, k: Text, i: nat, j: nat)
    requires m.MsgPropose? && Propose(o, s, m).Committed?
    ensures SameFrame(s, Propose(o, s, m).state, k, i, j)
  {
    var s' := Propose(o, s, m).state;
    if FrameAt(s', k, i, j) && !FrameAt(s, k, i, j) {
      assert s'.tasks[k].threads[i].solution.value.frames == ProposedFrames(m.signatures).value;
    }
  }

  lemma ValidateSame(s: State, m: Msg, k: Text, i: nat, j: nat)
    requires m.MsgValidate? && Validate(s, m).Committed?
    ensures SameFrame(s, Validate(s, m).state, k, i, j)
  {
  }

  lemma SubmitSame(s: State, m: Msg, k: Text, i: nat, j: nat)
    requires m.MsgSubmit? && Submit(s, m).Committed?
    ensures SameFrame(s, Submit(s, m).state, k, i, j)
  {
    var n := ThreadIndex(s.tasks[m.taskId].threads, m.threadId);
    if n >= 0 {
      assert Submit(s, m).state.tasks == PutThread(s, m.taskId, n, Settled(s.tasks[m.taskId].threads[n], m)).tasks;
    }
  }

  /** The frame after a reveal: another thread's is as it was, a revealed one keeps its name and counts. */
  lemma DiscloseFrame(s: State, m: Msg, k: Text, i: nat, j: nat)
    requires m.MsgReveal? && Disclose(s, m).Committed?
    ensures var s' := Disclose(s, m).state;
            if Reshows(s, Tx(m), k, i)
            then (FrameAt(s', k, i, j) <==> FrameAt(s, k, i, j))
                 && (FrameAt(s, k, i, j) ==>
                       var frames := s.tasks[k].threads[i].solution.value.frames;
                       TheFrame(s', k, i, j) == Outcome(frames, FramesOf(m.entries)).value[j]
                       && TheFrame(s', k, i, j).validCount == frames[j].validCount)
            else SameFrame(s, s', k, i, j)
  {
  }

  /** A message counts no votes, and only a reveal changes a hash. */
  lemma HandleCounts(o: Oracle, s: State, m: Msg, k: Text, i: nat, j: nat)
    requires Inv(s) && Handle(o, s, m).Committed?
    ensures var s' := Handle(o, s, m).state;
            && (Counted(s', k, i, j) ==> Counted(s, k, i, j))
            && (!Reshows(s, Tx(m), k, i) ==> SameFrame(s, s', k, i, j))
  {
    match m
    case MsgCreateTask(_, _, _, _, _, _, _) => CreateSame(o, s, m, k, i, j);
    case MsgAddWorker(_, _, _, _, _) =>
    case MsgSubscribe(_, _, _) => SubscribeSame(s, m, k, i, j);
    case MsgPropose(_, _, _, _, _) => ProposeSame(o, s, m, k, i, j);
    case MsgReveal(_, _, _, _) => DiscloseFrame(s, m, k, i, j);
    case MsgValidate(_, _, _, _, _) => ValidateSame(s, m, k, i, j);
    case MsgSubmit(_, _, _, _, _) => SubmitSame(s, m, k, i, j);
  }

  lemma BeginCounts(o: Oracle, s: State, k: Text, i: nat, j: nat)
    requires Counted(BeginBlock(o, s), k, i, j)
    ensures Counted(s, k, i, j) || VerifiedIn(o, BeginBlock(o, s), k, i, j)
    ensures FrameAt(s, k, i, j) && TheFrame(BeginBlock(o, s), k, i, j).hash == TheFrame(s, k, i, j).hash
  {
    var th := s.tasks[k].threads[i];
    assert BeginBlock(o, s).tasks[k] == JudgedTask(o, s.tasks[k]);
    StoredExactlyWhen(o, s.tasks[k], i);
    if Ready(th) {
      PassAdds(o, th.solution.value.frames, th.validations, j);
    }
  }

  lemma EndCounts(s: State, k: Text, i: nat, j: nat)
    requires Inv(s)
    ensures SameFrame(s, EndBlock(s), k, i, j)
  {
    assert k in s.tasks ==> TaskInv(s, k);
  }

  /** A vote is counted only when the frame is verified as it is. */
  lemma StepCounts(o: Oracle, s: State, e: Event, k: Text, i: nat, j: nat)
    requires Inv(s) && Counted(Step(o, s, e), k, i, j)
    ensures Counted(s, k, i, j) || VerifiedIn(o, Step(o, s, e), k, i, j)
    ensures Counted(s, k, i, j) && !Reshows(s, e, k, i) ==>
              TheFrame(Step(o, s, e), k, i, j).hash == TheFrame(s, k, i, j).hash
  {
    match e
    case Tx(m) =>
      if Handle(o, s, m).Committed? {
        HandleCounts(o, s, m, k, i, j);
      }
    case Begin => BeginCounts(o, s, k, i, j);
    case End => EndCounts(s, k, i, j);
    case External(_, _) =>
  }

  /** Every counted vote goes back to a state of the run in which the frame was verified as it was revealed then. */
  lemma {:induction false} CountedWasVerified(o: Oracle, genesis: State, es: seq<Event>, k: Text, i: nat, j: nat)
    returns (n: nat)
    requires Genesis(genesis) && Counted(Run(o, genesis, es), k, i, j)
    ensures n <= |es| && VerifiedIn(o, Run(o, genesis, es[..n]), k, i, j)
    decreases |es|
  {
    var front, last := es[..|es| - 1], es[|es| - 1];
    assert es == front + [last] && es[..|es|] == es;
    RunThen(o, genesis, front, last);
    ReachableInv(o, genesis, front);
    StepCounts(o, Run(o, genesis, front), last, k, i, j);
    if VerifiedIn(o, Run(o, genesis, es), k, i, j) {
      n := |es|;
    } else {
      n := CountedWasVerified(o, genesis, front, k, i, j);
      assert es[..n] == front[..n];
    }
  }

  /** v is stored in both states and verifies the frame with the hash it had then. */
  predicate VoteSince(o: Oracle, past: State, s: State, k: Text, i: nat, j: nat, v: Validation) {
    && FrameAt(past, k, i, j) && FrameAt(s, k, i, j)
    && TheFrame(s, k, i, j).filename == TheFrame(past, k, i, j).filename
    && v in past.tasks[k].threads[i].validations && v in s.tasks[k].threads[i].validations
    && Cast(o, TheFrame(past, k, i, j), v) == Valid
    && Cast(o, TheFrame(s, k, i, j).(hash := TheFrame(past, k, i, j).hash), v) == Valid
  }

  /** In some state of the run a validation that is still stored verified the frame with the hash it had in that
      state. */
  ghost predicate VerifiedOnce(o: Oracle, genesis: State, es: seq<Event>, k: Text, i: nat, j: nat) {
    exists n: nat, v :: n <= |es| && VoteSince(o, Run(o, genesis, es[..n]), Run(o, genesis, es), k, i, j, v)
  }

  lemma CountedIsBacked(o: Oracle, genesis: State, es: seq<Event>, k: Text, i: nat, j: nat)
    requires Genesis(genesis) && Counted(Run(o, genesis, es), k, i, j)
    ensures VerifiedOnce(o, genesis, es, k, i, j)
  {
    var n := CountedWasVerified(o, genesis, es, k, i, j);
    var past, s := Run(o, genesis, es[..n]), Run(o, genesis, es);
    RunSplit(o, genesis, es, n);
    ReachableInv(o, genesis, es[..n]);
    MonotoneHistory(o, past, es[n..]);
    VoteStays(o, past, s, k, i, j);
  }

  lemma VoteStays(o: Oracle, past: State, s: State, k: Text, i: nat, j: nat)
    requires Kept(past, s) && VerifiedIn(o, past, k, i, j)
    ensures exists v :: VoteSince(o, past, s, k, i, j, v)
  {
    assert TaskKept(past.tasks[k], s.tasks[k]);
    var a, b := past.tasks[k].threads[i], s.tasks[k].threads[i];
    assert ThreadKept(a, b);
    assert FrameKept(a.solution.value.frames[j], b.solution.value.frames[j], a.solution.value.accepted);
    var v :| v in a.validations && Cast(o, TheFrame(past, k, i, j), v) == Valid;
    assert Cast(o, TheFrame(s, k, i, j).(hash := TheFrame(past, k, i, j).hash), v) == Valid;
    assert VoteSince(o, past, s, k, i, j, v);
  }

  // ---- whole runs: votes for the present hash ----

  /** Every counted frame is verified as it is revealed now. */
  ghost predicate AllCurrent(o: Oracle, s: State) {
    forall k: Text, i: nat, j: nat :: Counted(s, k, i, j) ==> VerifiedIn(o, s, k, i, j)
  }

  /** A reveal leaves each counted frame its hash, or gives it one that a stored validation verifies. */
  predicate CurrentEvent(o: Oracle, s: State, e: Event) {
    e.Tx? && e.msg.MsgReveal? && Disclose(s, e.msg).Committed? ==>
      var th := s.tasks[e.msg.taskId].threads[s.workers[e.msg.creator].currentThreadIndex];
      var frames := th.solution.value.frames;
      var after := Outcome(frames, FramesOf(e.msg.entries)).value;
      forall j :: 0 <= j < |frames| && frames[j].validCount > 0 ==>
        after[j].hash == frames[j].hash || VerifiedNow(o, after[j], th.validations)
  }

  lemma StillVerified(o: Oracle, s: State, s': State, k: Text, i: nat, j: nat)
    requires Kept(s, s') && VerifiedIn(o, s, k, i, j)
    requires FrameAt(s', k, i, j) && TheFrame(s', k, i, j).hash == TheFrame(s, k, i, j).hash
    ensures VerifiedIn(o, s', k, i, j)
  {
    VoteStays(o, s, s', k, i, j);
    var v :| VoteSince(o, s, s', k, i, j, v);
    assert Cast(o, TheFrame(s', k, i, j), v) == Valid;
  }

  lemma ReshownCurrent(o: Oracle, s: State, e: Event, k: Text, i: nat, j: nat)
    requires Reshows(s, e, k, i) && CurrentEvent(o, s, e) && Counted(Step(o, s, e), k, i, j)
    requires Kept(s, Step(o, s, e)) && VerifiedIn(o, s, k, i, j)
    ensures VerifiedIn(o, Step(o, s, e), k, i, j)
  {
    var s' := Step(o, s, e);
    DiscloseFrame(s, e.msg, k, i, j);
    assert s'.tasks[k].threads[i].validations == s.tasks[k].threads[i].validations;
    if TheFrame(s', k, i, j).hash == TheFrame(s, k, i, j).hash {
      StillVerified(o, s, s', k, i, j);
    }
  }

  lemma StaysCurrent(o: Oracle, s: State, e: Event, k: Text, i: nat, j: nat)
    requires Inv(s) && CurrentEvent(o, s, e) && Counted(Step(o, s, e), k, i, j)
    requires Counted(s, k, i, j) ==> VerifiedIn(o, s, k, i, j)
    ensures VerifiedIn(o, Step(o, s, e), k, i, j)
  {
    StepCounts(o, s, e, k, i, j);
    if !VerifiedIn(o, Step(o, s, e), k, i, j) {
      StepKept(o, s, e);
      if Reshows(s, e, k, i) {
        ReshownCurrent(o, s, e, k, i, j);
      } else {
        StillVerified(o, s, Step(o, s, e), k, i, j);
      }
    }
  }

  /** One event keeps every counted vote current exactly when it is no reveal that gives a counted frame an unverified
      hash. */
  lemma StepCurrent(o: Oracle, s: State, e: Event)
    requires Inv(s) && AllCurrent(o, s)
    ensures AllCurrent(o, Step(o, s, e)) <==> CurrentEvent(o, s, e)
  {
    if CurrentEvent(o, s, e) {
      forall k: Text, i: nat, j: nat | Counted(Step(o, s, e), k, i, j)
        ensures VerifiedIn(o, Step(o, s, e), k, i, j)
      {
        StaysCurrent(o, s, e, k, i, j);
      }
    }
    if AllCurrent(o, Step(o, s, e)) {
      EventWasCurrent(o, s, e);
    }
  }

  lemma EventWasCurrent(o: Oracle, s: State, e: Event)
    requires Inv(s) && AllCurrent(o, Step(o, s, e))
    ensures CurrentEvent(o, s, e)
  {
    if e.Tx? && e.msg.MsgReveal? && Disclose(s, e.msg).Committed? {
      var k, i := e.msg.taskId, s.workers[e.msg.creator].currentThreadIndex;
      var th := s.tasks[k].threads[i];
      var after := Outcome(th.solution.value.frames, FramesOf(e.msg.entries)).value;
      forall j | 0 <= j < |after| && th.solution.value.frames[j].validCount > 0
        ensures VerifiedNow(o, after[j], th.validations)
      {
        DiscloseFrame(s, e.msg, k, i, j);
        assert Counted(Step(o, s, e), k, i, j);
      }
    }
  }

  predicate CurrentRun(o: Oracle, s: State, es: seq<Event>)
    decreases |es|
  {
    es != [] ==> CurrentEvent(o, s, es[0]) && CurrentRun(o, Step(o, s, es[0]), es[1..])
  }

  ghost predicate CurrentThroughout(o: Oracle, s: State, es: seq<Event>) {
    forall n: nat :: n <= |es| ==> AllCurrent(o, Run(o, s, es[..n]))
  }

  /** Main result: counted votes are for the present hashes in every state of a run exactly when no event of it is a
      reveal that gives a counted frame an unverified hash. */
  lemma {:induction false} RunCurrent(o: Oracle, s: State, es: seq<Event>)
    requires Inv(s) && AllCurrent(o, s)
    ensures CurrentThroughout(o, s, es) <==> CurrentRun(o, s, es)
    decreases |es|
  {
    if es == [] {
      assert forall n: nat :: n <= |es| ==> es[..n] == [];
    } else {
      var next, later := Step(o, s, es[0]), es[1..];
      forall n: nat | n <= |later|
        ensures Run(o, s, es[..n + 1]) == Run(o, next, later[..n])
      {
        assert es[..n + 1][1..] == later[..n];
      }
      StepCurrent(o, s, es[0]);
      StepKeepsInv(o, s, es[0]);
      assert later[..0] == [] && es[..0] == [];
      if CurrentEvent(o, s, es[0]) {
        RunCurrent(o, next, later);
        CurrentFromNext(o, s, es);
      } else {
        assert !AllCurrent(o, Run(o, s, es[..1]));
      }
    }
  }

  lemma CurrentFromNext(o: Oracle, s: State, es: seq<Event>)
    requires es != [] && AllCurrent(o, s)
    ensures CurrentThroughout(o, s, es) <==> CurrentThroughout(o, Step(o, s, es[0]), es[1..])
  {
    var next, later := Step(o, s, es[0]), es[1..];
    forall n: nat | n <= |later|
      ensures Run(o, s, es[..n + 1]) == Run(o, next, later[..n])
    {
      assert es[..n + 1][1..] == later[..n];
    }
    if CurrentThroughout(o, next, later) {
      forall n: nat | n <= |es|
        ensures AllCurrent(o, Run(o, s, es[..n]))
      {
        if n == 0 {
          assert es[..0] == [];
        } else {
          assert AllCurrent(o, Run(o, next, later[..n - 1]));
        }
      }
    }
    if CurrentThroughout(o, s, es) {
      forall n: nat | n <= |later|
        ensures AllCurrent(o, Run(o, next, later[..n]))
      {
        assert AllCurrent(o, Run(o, s, es[..n + 1]));
      }
    }
  }

  // ---- whole runs: accepted solutions ----

  ghost function VerifiedFrames(o: Oracle, genesis: State, es: seq<Event>, k: Text, i: nat): set<nat>
    requires k in Run(o, genesis, es).tasks && i < |Run(o, genesis, es).tasks[k].threads|
    requires Run(o, genesis, es).tasks[k].threads[i].solution.Some?
  {
    set j: nat | j < |Run(o, genesis, es).tasks[k].threads[i].solution.value.frames| &&
                 VerifiedOnce(o, genesis, es, k, i, j)
  }

  lemma ReachedFrames(frames: seq<Frame>, verified: set<nat>)
    requires CountReaching(frames, 1) >= Max(1, |frames| / 5)
    requires forall j: nat :: j < |frames| && frames[j].validCount > 0 ==> j in verified
    ensures |verified| >= Max(1, |frames| / 5)
  {
    CountReachingIsSize(frames, 1);
    SetsGrow(Reaching(frames, 1), verified);
  }

  lemma AcceptedVerdict(o: Oracle, genesis: State, es: seq<Event>, k: Text, i: nat)
    requires Genesis(genesis) && k in Run(o, genesis, es).tasks && i < |Run(o, genesis, es).tasks[k].threads|
    ensures VerdictHolds(o, Run(o, genesis, es).tasks[k].threads[i])
  {
    ReachableInv(o, genesis, []);
    RunVerdicts(o, genesis, es);
    assert TaskVerdicts(o, Run(o, genesis, es).tasks[k]);
  }

  lemma OneVerifiedNow(o: Oracle, th: Thread)
    requires VerdictHolds(o, th) && th.solution.Some? && th.solution.value.accepted
    ensures |VerifiedNowFrames(o, th)| >= 1
  {
    var j: nat :| j < |th.solution.value.frames| && VerifiedNow(o, th.solution.value.frames[j], th.validations);
    SetsGrow({j}, VerifiedNowFrames(o, th));
  }

  /** Main result: in every reachable state at least a fifth of the frames of an accepted solution, and at least one,
      were each verified by a validation that is still stored with the hash the frame had in some state of the run, and
      at least one is verified with the hash it has now. When no reveal of the run gave a counted frame an unverified
      hash, the whole fifth is. */
  lemma AcceptanceBacked(o: Oracle, genesis: State, es: seq<Event>, k: Text, i: nat)
    requires Genesis(genesis)
    requires k in Run(o, genesis, es).tasks && i < |Run(o, genesis, es).tasks[k].threads|
    requires var sol := Run(o, genesis, es).tasks[k].threads[i].solution; sol.Some? && sol.value.accepted
    ensures var th := Run(o, genesis, es).tasks[k].threads[i];
            var needed := Max(1, |th.solution.value.frames| / 5);
            && |VerifiedFrames(o, genesis, es, k, i)| >= needed && |VerifiedNowFrames(o, th)| >= 1
            && (CurrentRun(o, genesis, es) ==> |VerifiedNowFrames(o, th)| >= needed)
  {
    var s := Run(o, genesis, es);
    AcceptedVerdict(o, genesis, es, k, i);
    OneVerifiedNow(o, s.tasks[k].threads[i]);
    AllOnceVerified(o, genesis, es, k, i);
    if CurrentRun(o, genesis, es) {
      AllNowVerified(o, genesis, es, k, i);
    }
  }

  lemma AllOnceVerified(o: Oracle, genesis: State, es: seq<Event>, k: Text, i: nat)
    requires Genesis(genesis)
    requires k in Run(o, genesis, es).tasks && i < |Run(o, genesis, es).tasks[k].threads|
    requires var sol := Run(o, genesis, es).tasks[k].threads[i].solution; sol.Some? && sol.value.accepted
    ensures var th := Run(o, genesis, es).tasks[k].threads[i];
            |VerifiedFrames(o, genesis, es, k, i)| >= Max(1, |th.solution.value.frames| / 5)
  {
    var s := Run(o, genesis, es);
    var frames := s.tasks[k].threads[i].solution.value.frames;
    AcceptedVerdict(o, genesis, es, k, i);
    forall j: nat | j < |frames| && frames[j].validCount > 0
      ensures VerifiedOnce(o, genesis, es, k, i, j)
    {
      assert Counted(s, k, i, j);
      CountedIsBacked(o, genesis, es, k, i, j);
    }
    ReachedFrames(frames, VerifiedFrames(o, genesis, es, k, i));
  }

  lemma AllNowVerified(o: Oracle, genesis: State, es: seq<Event>, k: Text, i: nat)
    requires Genesis(genesis) && CurrentRun(o, genesis, es)
    requires k in Run(o, genesis, es).tasks && i < |Run(o, genesis, es).tasks[k].threads|
    requires var sol := Run(o, genesis, es).tasks[k].threads[i].solution; sol.Some? && sol.value.accepted
    ensures var th := Run(o, genesis, es).tasks[k].threads[i];
            |VerifiedNowFrames(o, th)| >= Max(1, |th.solution.value.frames| / 5)
  {
    var s := Run(o, genesis, es);
    var th := s.tasks[k].threads[i];
    ReachableInv(o, genesis, []);
    RunCurrent(o, genesis, es);
    assert es[..|es|] == es;
    AcceptedVerdict(o, genesis, es, k, i);
    forall j: nat | j < |th.solution.value.frames| && th.solution.value.frames[j].validCount > 0
      ensures VerifiedNow(o, th.solution.value.frames[j], th.validations)
    {
      assert Counted(s, k, i, j);
    }
    ReachedFrames(th.solution.value.frames, VerifiedNowFrames(o, th));
  }
}
