/** The inductive invariant of the chain state, and that every step keeps it. */
module Invariant {
  import opened Records
  import opened Decimal
  import opened FrameSplit
  import opened CliFormat
  import opened Tally
  import opened Reveal
  import opened Chain

  predicate Voted(th: Thread, a: Text) {
    exists j :: 0 <= j < |th.validations| && th.validations[j].validator == a
  }

  predicate Proposer(th: Thread, a: Text) {
    th.solution.Some? && th.solution.value.proposedBy == a
  }

  /** No worker but the proposer has two validations. */
  predicate VotesOnce(th: Thread) {
    forall j, k :: 0 <= j < k < |th.validations| && th.validations[j].validator == th.validations[k].validator ==>
      Proposer(th, th.validations[j].validator)
  }

  predicate SolutionInv(th: Thread) {
    match th.solution
    case None => th.validations == [] && !th.completed
    case Some(sol) =>
      && sol.proposedBy in th.workers && AllOrNothing(sol.frames)
      && (sol.accepted ==> sol.frames != [] && AllFull(sol.frames))
  }

  /** Worker lists are duplicate-free, registered and within the limit. */
  predicate MembersInv(th: Thread, max: int, registered: set<Text>) {
    && Distinct(th.workers) && |th.workers| <= Max(0, max)
    && (forall a :: a in th.workers ==> a in registered)
    && (forall v :: v in th.validations ==> v.validator in th.workers)
  }

  predicate ThreadInv(th: Thread, k: Text, i: nat, max: int, registered: set<Text>) {
    && th.threadId == ThreadName(k, i) && th.taskId == k
    && MembersInv(th, max, registered) && SolutionInv(th) && VotesOnce(th)
  }

  /** The empty key holds the phantom task, every other key a real one. */
  predicate TaskInv(s: State, k: Text)
    requires k in s.tasks
  {
    var t := s.tasks[k];
    if k == [] then t == PHANTOM
    else
      && t.taskId == k && IsId(k, s.nextId) && t.threads != [] && (t.completed ==> AllDone(t))
      && forall i :: 0 <= i < |t.threads| ==>
           ThreadInv(t.threads[i], k, i, s.params.maxWorkersPerThread, s.workers.Keys)
  }

  /** A worker pointing at a thread is listed there, the thread is not completed, and only its proposer can have
      validated already. */
  predicate PointerInv(s: State, a: Text)
    requires a in s.workers
  {
    var w := s.workers[a];
    w.currentTaskId != [] ==>
      && PointsAt(s, a, w.currentTaskId, w.currentThreadIndex)
      && var th := s.tasks[w.currentTaskId].threads[w.currentThreadIndex];
         a in th.workers && !th.completed && (Voted(th, a) ==> Proposer(th, a))
  }

  predicate WorkerInv(s: State, a: Text)
    requires a in s.workers
  {
    s.workers[a].address == a && PointerInv(s, a)
  }

  predicate Inv(s: State) {
    && (forall k {:trigger TaskInv(s, k)} :: k in s.tasks ==> TaskInv(s, k))
    && (forall a {:trigger WorkerInv(s, a)} :: a in s.workers ==> WorkerInv(s, a))
  }

  // ---- consequences used throughout ----

  lemma UniqueThread(s: State, k: Text, i: nat)
    requires Inv(s) && k in s.tasks && i < |s.tasks[k].threads|
    ensures ThreadIndex(s.tasks[k].threads, s.tasks[k].threads[i].threadId) == i
  {
    var ts := s.tasks[k].threads;
    var j := ThreadIndex(ts, ts[i].threadId);
    assert TaskInv(s, k);
    assert k != [];
    assert ThreadInv(ts[i], k, i, s.params.maxWorkersPerThread, s.workers.Keys);
    assert ThreadInv(ts[j], k, j, s.params.maxWorkersPerThread, s.workers.Keys);
    ThreadNamesUnique(k, i, j);
  }

  // ---- one thread of one task changes ----

  predicate SameButThread(s: State, s': State, k: Text, i: nat)
    requires k in s.tasks && i < |s.tasks[k].threads|
  {
    && s'.params == s.params && s'.nextId == s.nextId && s'.workers.Keys == s.workers.Keys
    && k in s'.tasks && |s'.tasks[k].threads| == |s.tasks[k].threads|
    && s'.tasks == PutThread(s, k, i, s'.tasks[k].threads[i]).tasks
  }

  lemma TasksAfterThread(s: State, s': State, k: Text, i: nat)
    requires Inv(s) && k in s.tasks && i < |s.tasks[k].threads| && SameButThread(s, s', k, i)
    requires ThreadInv(s'.tasks[k].threads[i], k, i, s.params.maxWorkersPerThread, s.workers.Keys)
    requires s.tasks[k].completed ==> s'.tasks[k].threads[i].completed
    ensures forall k' :: k' in s'.tasks ==> TaskInv(s', k')
  {
    assert TaskInv(s, k);
    assert k != [];
    var t, t' := s.tasks[k], s'.tasks[k];
    assert t' == t.(threads := t.threads[i := t'.threads[i]]);
    if t.completed {
      assert forall j :: 0 <= j < |t.threads| ==> t.threads[j] in t.threads;
    }
    forall j | 0 <= j < |t'.threads|
      ensures ThreadInv(t'.threads[j], k, j, s'.params.maxWorkersPerThread, s'.workers.Keys)
    {
      assert ThreadInv(t.threads[j], k, j, s.params.maxWorkersPerThread, s.workers.Keys);
    }
    assert TaskInv(s', k);
    forall k' | k' in s'.tasks
      ensures TaskInv(s', k')
    {
      if k' != k {
        assert TaskInv(s, k') && s'.tasks[k'] == s.tasks[k'];
      }
    }
  }

  /** A pointer that does not select the changed thread is unaffected. */
  lemma PointerElsewhere(s: State, s': State, k: Text, i: nat, a: Text)
    requires Inv(s) && k in s.tasks && i < |s.tasks[k].threads| && SameButThread(s, s', k, i)
    requires a in s.workers && s'.workers[a] == s.workers[a] && !PointsAt(s, a, k, i)
    ensures WorkerInv(s', a)
  {
    assert WorkerInv(s, a);
  }

  lemma CreateKeepsInv(o: Oracle, s: State, m: Msg)
    requires Inv(s) && m.MsgCreateTask? && CreateTask(o, s, m).Committed?
    ensures Inv(CreateTask(o, s, m).state)
  {
    var s' := CreateTask(o, s, m).state;
    var id := Itoa(s.nextId);
    IdOf(s.nextId, s.nextId);
    IdOf(s.nextId, s.nextId + 1);
    assert id in s.tasks ==> TaskInv(s, id);
    assert id !in s.tasks;
    forall k | k in s'.tasks
      ensures TaskInv(s', k)
    {
      if k != id {
        assert TaskInv(s, k);
      } else {
        forall i | 0 <= i < |s'.tasks[k].threads|
          ensures ThreadInv(s'.tasks[k].threads[i], k, i, s'.params.maxWorkersPerThread, s'.workers.Keys)
        {
        }
      }
    }
    forall a | a in s'.workers
      ensures WorkerInv(s', a)
    {
      assert WorkerInv(s, a);
    }
  }

  lemma AddWorkerKeepsInv(s: State, m: Msg)
    requires Inv(s) && m.MsgAddWorker? && AddWorker(s, m).Committed?
    ensures Inv(AddWorker(s, m).state)
  {
    var s' := AddWorker(s, m).state;
    forall k | k in s'.tasks
      ensures TaskInv(s', k)
    {
      assert TaskInv(s, k);
      forall i | 0 <= i < |s.tasks[k].threads|
        ensures ThreadInv(s.tasks[k].threads[i], k, i, s'.params.maxWorkersPerThread, s'.workers.Keys)
      {
        assert ThreadInv(s.tasks[k].threads[i], k, i, s.params.maxWorkersPerThread, s.workers.Keys);
      }
    }
    forall a | a in s'.workers
      ensures WorkerInv(s', a)
    {
      if a != m.creator {
        assert WorkerInv(s, a);
      }
    }
  }

  /** A worker that enters a thread's list has not voted there. */
  lemma NewcomerHasNotVoted(th: Thread, a: Text)
    requires (forall v :: v in th.validations ==> v.validator in th.workers) && a !in th.workers
    ensures !Voted(th, a)
  {
    assert forall j :: 0 <= j < |th.validations| ==> th.validations[j] in th.validations;
  }

  lemma Joined(th: Thread, a: Text, k: Text, i: nat, max: int, registered: set<Text>)
    requires ThreadInv(th, k, i, max, registered) && Open(th, max) && a !in th.workers && a in registered
    ensures ThreadInv(th.(workers := th.workers + [a]), k, i, max, registered)
  {
    var th' := th.(workers := th.workers + [a]);
    assert forall x :: x in th'.workers <==> x in th.workers || x == a;
  }

  lemma SubscribeKeepsInv(s: State, m: Msg)
    requires Inv(s) && m.MsgSubscribe? && Subscribe(s, m).Committed?
    ensures Inv(Subscribe(s, m).state)
  {
    var s', k := Subscribe(s, m).state, m.taskId;
    var i := ThreadIndex(s.tasks[k].threads, m.threadId);
    if s' != s {
      assert TaskInv(s, k) && WorkerInv(s, m.creator);
      var th := s.tasks[k].threads[i];
      assert ThreadInv(th, k, i, s.params.maxWorkersPerThread, s.workers.Keys);
      Joined(th, m.creator, k, i, s.params.maxWorkersPerThread, s.workers.Keys);
      NewcomerHasNotVoted(th, m.creator);
      assert s'.workers.Keys == s.workers.Keys;
      TasksAfterThread(s, s', k, i);
      forall a | a in s'.workers
        ensures WorkerInv(s', a)
      {
        if a != m.creator {
          if !PointsAt(s, a, k, i) {
            PointerElsewhere(s, s', k, i, a);
          } else {
            assert WorkerInv(s, a);
          }
        }
      }
    }
  }

  lemma BlankFrames(lines: seq<Text>)
    requires ProposedFrames(lines).Some?
    ensures AllBlank(ProposedFrames(lines).value)
  {
  }

  lemma ProposeKeepsInv(o: Oracle, s: State, m: Msg)
    requires Inv(s) && m.MsgPropose? && Propose(o, s, m).Committed?
    ensures Inv(Propose(o, s, m).state)
  {
    var s', k := Propose(o, s, m).state, m.taskId;
    var i := ThreadIndex(s.tasks[k].threads, m.threadId);
    if i >= 0 {
      assert TaskInv(s, k);
      assert ThreadInv(s.tasks[k].threads[i], k, i, s.params.maxWorkersPerThread, s.workers.Keys);
      BlankFrames(m.signatures);
      TasksAfterThread(s, s', k, i);
      forall a | a in s'.workers
        ensures WorkerInv(s', a)
      {
        assert WorkerInv(s, a);
      }
    }
  }

  lemma DiscloseKeepsInv(s: State, m: Msg)
    requires Inv(s) && m.MsgReveal? && Disclose(s, m).Committed?
    ensures Inv(Disclose(s, m).state)
  {
    var s', k, i := Disclose(s, m).state, m.taskId, s.workers[m.creator].currentThreadIndex;
    assert TaskInv(s, k);
    var th := s.tasks[k].threads[i];
    assert ThreadInv(th, k, i, s.params.maxWorkersPerThread, s.workers.Keys);
    RevealKeepsAllOrNothing(th.solution.value.frames, FramesOf(m.entries));
    TasksAfterThread(s, s', k, i);
    forall a | a in s'.workers
      ensures WorkerInv(s', a)
    {
      assert WorkerInv(s, a);
    }
  }

  /** Appending the validation of a worker that has not voted, or is the proposer, keeps the once-only rule. */
  lemma VoteAppended(th: Thread, v: Validation)
    requires VotesOnce(th) && (Voted(th, v.validator) ==> Proposer(th, v.validator))
    ensures VotesOnce(th.(validations := th.validations + [v]))
    ensures forall a :: Voted(th.(validations := th.validations + [v]), a) <==> Voted(th, a) || a == v.validator
  {
    var th' := th.(validations := th.validations + [v]);
    forall a
      ensures Voted(th', a) <==> Voted(th, a) || a == v.validator
    {
      if Voted(th, a) {
        var j :| 0 <= j < |th.validations| && th.validations[j].validator == a;
        assert th'.validations[j].validator == a;
      }
      assert th'.validations[|th.validations|] == v;
    }
  }

  lemma VoteKeepsThread(th: Thread, v: Validation, k: Text, i: nat, max: int, registered: set<Text>)
    requires ThreadInv(th, k, i, max, registered) && v.validator in th.workers && th.solution.Some?
    requires Voted(th, v.validator) ==> Proposer(th, v.validator)
    ensures ThreadInv(th.(validations := th.validations + [v]), k, i, max, registered)
  {
    VoteAppended(th, v);
  }

  lemma ValidateKeepsInv(s: State, m: Msg)
    requires Inv(s) && m.MsgValidate? && Validate(s, m).Committed?
    ensures Inv(Validate(s, m).state)
  {
    var s', k, i := Validate(s, m).state, m.taskId, s.workers[m.creator].currentThreadIndex;
    assert TaskInv(s, k) && WorkerInv(s, m.creator);
    assert k != [];
    var th, th' := s.tasks[k].threads[i], s'.tasks[k].threads[i];
    var v := th'.validations[|th.validations|];
    VoteKeepsThread(th, v, k, i, s.params.maxWorkersPerThread, s.workers.Keys);
    VoteAppended(th, v);
    assert s'.workers.Keys == s.workers.Keys;
    TasksAfterThread(s, s', k, i);
    forall a | a in s'.workers
      ensures WorkerInv(s', a)
    {
      if a != m.creator {
        if !PointsAt(s, a, k, i) {
          PointerElsewhere(s, s', k, i, a);
        } else {
          assert WorkerInv(s, a);
        }
      }
    }
  }

  lemma SubmitKeepsInv(s: State, m: Msg)
    requires Inv(s) && m.MsgSubmit? && Submit(s, m).Committed?
    ensures Inv(Submit(s, m).state)
  {
    var s', k := Submit(s, m).state, m.taskId;
    var i := ThreadIndex(s.tasks[k].threads, m.threadId);
    if i >= 0 {
      assert TaskInv(s, k);
      var th := s.tasks[k].threads[i];
      assert ThreadInv(th, k, i, s.params.maxWorkersPerThread, s.workers.Keys);
      assert s'.workers.Keys == s.workers.Keys;
      TasksAfterThread(s, s', k, i);
      forall a | a in s'.workers
        ensures WorkerInv(s', a)
      {
        assert WorkerInv(s, a);
        if a != m.creator && !PointsAt(s, a, k, i) {
          PointerElsewhere(s, s', k, i, a);
        }
      }
    }
  }

  lemma HandleKeepsInv(o: Oracle, s: State, m: Msg)
    requires Inv(s) && Handle(o, s, m).Committed?
    ensures Inv(Handle(o, s, m).state)
  {
    match m
    case MsgCreateTask(_, _, _, _, _, _, _) => CreateKeepsInv(o, s, m);
    case MsgAddWorker(_, _, _, _, _) => AddWorkerKeepsInv(s, m);
    case MsgSubscribe(_, _, _) => SubscribeKeepsInv(s, m);
    case MsgPropose(_, _, _, _, _) => ProposeKeepsInv(o, s, m);
    case MsgReveal(_, _, _, _) => DiscloseKeepsInv(s, m);
    case MsgValidate(_, _, _, _, _) => ValidateKeepsInv(s, m);
    case MsgSubmit(_, _, _, _, _) => SubmitKeepsInv(s, m);
  }

  // ---- block hooks ----

  lemma CountedFrames(before: seq<Frame>, after: seq<Frame>)
    requires |before| == |after| && forall j :: 0 <= j < |before| ==> SameReveal(before[j], after[j])
    requires AllFull(before) && DistinctNames(before)
    ensures AllFull(after) && DistinctNames(after)
  {
    forall f | f in after
      ensures Full(f)
    {
      var j :| 0 <= j < |after| && after[j] == f;
      assert before[j] in before && SameReveal(before[j], after[j]);
    }
    forall i, j | 0 <= i < j < |after|
      ensures after[i].filename != after[j].filename
    {
      assert SameReveal(before[i], after[i]) && SameReveal(before[j], after[j]);
    }
  }

  lemma JudgedFrames(o: Oracle, th: Thread)
    requires Ready(th) && AllOrNothing(th.solution.value.frames)
    ensures var sol := Judged(o, th).solution.value;
            sol.frames != [] && AllFull(sol.frames) && DistinctNames(sol.frames)
  {
    var frames := th.solution.value.frames;
    assert frames[0] in frames && !Blank(frames[0]);
    var after := Evaluated(o, frames, th.validations);
    assert forall j :: 0 <= j < |frames| ==> SameReveal(frames[j], after[j]);
    CountedFrames(frames, after);
  }

  lemma JudgedThread(o: Oracle, th: Thread, k: Text, i: nat, max: int, registered: set<Text>)
    requires ThreadInv(th, k, i, max, registered)
    ensures ThreadInv(Judged(o, th), k, i, max, registered)
    ensures Judged(o, th).workers == th.workers && Judged(o, th).validations == th.validations
    ensures Judged(o, th).completed == th.completed
    ensures forall a :: Proposer(Judged(o, th), a) <==> Proposer(th, a)
  {
    if Ready(th) {
      JudgedFrames(o, th);
    }
  }

  lemma JudgedTaskInv(o: Oracle, s: State, k: Text)
    requires Inv(s) && k in s.tasks
    ensures TaskInv(BeginBlock(o, s), k)
  {
    var t, t' := s.tasks[k], JudgedTask(o, s.tasks[k]);
    assert TaskInv(s, k);
    forall i | 0 <= i < |t.threads|
      ensures ThreadInv(t'.threads[i], k, i, s.params.maxWorkersPerThread, s.workers.Keys)
    {
      JudgedThread(o, t.threads[i], k, i, s.params.maxWorkersPerThread, s.workers.Keys);
    }
  }

  lemma BeginKeepsInv(o: Oracle, s: State)
    requires Inv(s)
    ensures Inv(BeginBlock(o, s))
  {
    var s' := BeginBlock(o, s);
    forall k | k in s'.tasks
      ensures TaskInv(s', k)
    {
      JudgedTaskInv(o, s, k);
    }
    forall a | a in s'.workers
      ensures WorkerInv(s', a)
    {
      assert WorkerInv(s, a);
      var w := s.workers[a];
      if w.currentTaskId != [] {
        assert TaskInv(s, w.currentTaskId);
        JudgedThread(o, s.tasks[w.currentTaskId].threads[w.currentThreadIndex], w.currentTaskId, w.currentThreadIndex,
                     s.params.maxWorkersPerThread, s.workers.Keys);
      }
    }
  }

  lemma EndKeepsInv(s: State)
    requires Inv(s)
    ensures Inv(EndBlock(s))
  {
    var s' := EndBlock(s);
    forall k | k in s'.tasks
      ensures TaskInv(s', k)
    {
      if k in s.tasks {
        assert TaskInv(s, k);
      }
    }
    forall a | a in s'.workers
      ensures WorkerInv(s', a)
    {
      assert WorkerInv(s, a);
      if s.workers[a].currentTaskId != [] {
        assert TaskInv(s, s.workers[a].currentTaskId);
      }
    }
  }

  /** The invariant does not read the bank or minValidators. */
  lemma InertInv(s: State, s': State)
    requires Inv(s) && s'.tasks == s.tasks && s'.workers == s.workers && s'.nextId == s.nextId
    requires s'.params.maxWorkersPerThread == s.params.maxWorkersPerThread
    ensures Inv(s')
  {
    forall k | k in s'.tasks
      ensures TaskInv(s', k)
    {
      assert TaskInv(s, k);
    }
    forall a | a in s'.workers
      ensures WorkerInv(s', a)
    {
      assert WorkerInv(s, a);
    }
  }

  lemma StepKeepsInv(o: Oracle, s: State, e: Event)
    requires Inv(s)
    ensures Inv(Step(o, s, e))
  {
    match e
    case Tx(m) =>
      if Handle(o, s, m).Committed? {
        HandleKeepsInv(o, s, m);
      }
    case Begin => BeginKeepsInv(o, s);
    case End => EndKeepsInv(s);
    case External(a, b) =>
      InertInv(s, Step(o, s, e));
  }

  /** Every state of every run from genesis satisfies the invariant. */
  lemma {:induction false} ReachableInv(o: Oracle, s: State, es: seq<Event>)
    requires Genesis(s) || Inv(s)
    ensures Inv(Run(o, s, es))
    decreases |es|
  {
    if es != [] {
      StepKeepsInv(o, s, es[0]);
      ReachableInv(o, Step(o, s, es[0]), es[1..]);
    }
  }
}
