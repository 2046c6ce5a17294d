/** What holds of every run: pointers resolve, votes are counted once, reveals are whole, history only grows. */
module Runs {
  import opened Records
  import opened Decimal
  import opened CliFormat
  import opened Tally
  import opened Reveal
  import opened Chain
  import opened Invariant

  // ---- pointers ----

  /** A worker with a task set names a stored task in progress, its index is in range, and it is listed in that thread,
      whose list is duplicate-free and within the limit. */
  lemma PointersResolve(o: Oracle, genesis: State, es: seq<Event>, a: Text)
    requires Genesis(genesis)
    ensures var s := Run(o, genesis, es);
            a in s.workers && s.workers[a].currentTaskId != [] ==>
              var w := s.workers[a];
              && Running(s, w.currentTaskId) && PointsAt(s, a, w.currentTaskId, w.currentThreadIndex)
              && var th := s.tasks[w.currentTaskId].threads[w.currentThreadIndex];
                 a in th.workers && Distinct(th.workers) && |th.workers| <= Max(0, s.params.maxWorkersPerThread)
  {
    ReachableInv(o, genesis, es);
    var s := Run(o, genesis, es);
    if a in s.workers {
      assert WorkerInv(s, a);
      var k := s.workers[a].currentTaskId;
      if k in s.tasks {
        assert TaskInv(s, k);
      }
      if k != [] {
        var th := s.tasks[k].threads[s.workers[a].currentThreadIndex];
        assert th in s.tasks[k].threads;
        assert ThreadInv(th, k, s.workers[a].currentThreadIndex, s.params.maxWorkersPerThread, s.workers.Keys);
      }
    }
  }

  /** No worker points at a completed thread or into a completed task. */
  lemma NobodyOnCompletedWork(o: Oracle, genesis: State, es: seq<Event>, a: Text, k: Text, i: nat)
    requires Genesis(genesis)
    ensures var s := Run(o, genesis, es);
            k != [] && PointsAt(s, a, k, i) ==> !s.tasks[k].completed && !s.tasks[k].threads[i].completed
  {
    ReachableInv(o, genesis, es);
    var s := Run(o, genesis, es);
    if k != [] && PointsAt(s, a, k, i) {
      assert WorkerInv(s, a) && TaskInv(s, k);
      assert s.tasks[k].threads[i] in s.tasks[k].threads;
    }
  }

  /** A successful SubmitSolution leaves no worker of the whole store pointing at the thread, although it visits only
      the thread's own list. */
  lemma CompleteRelease(s: State, m: Msg)
    requires Inv(s) && m.MsgSubmit? && Submit(s, m).Committed?
    requires ThreadIndex(s.tasks[m.taskId].threads, m.threadId) >= 0
    ensures var s', i := Submit(s, m).state, ThreadIndex(s.tasks[m.taskId].threads, m.threadId);
            s'.tasks[m.taskId].threads[i].completed && forall a :: !PointsAt(s', a, m.taskId, i)
  {
    SubmitKeepsInv(s, m);
    var s', i := Submit(s, m).state, ThreadIndex(s.tasks[m.taskId].threads, m.threadId);
    assert TaskInv(s, m.taskId);
    forall a
      ensures !PointsAt(s', a, m.taskId, i)
    {
      if a in s'.workers {
        assert WorkerInv(s', a);
      }
    }
  }

  // ---- votes ----

  /** Validations not made by the proposer. */
  function OtherVotes(vs: seq<Validation>, proposer: Text): nat {
    if vs == [] then 0
    else OtherVotes(vs[..|vs| - 1], proposer) + if vs[|vs| - 1].validator != proposer then 1 else 0
  }

  function OtherVoters(vs: seq<Validation>, proposer: Text): set<Text> {
    set v | v in vs && v.validator != proposer :: v.validator
  }

  lemma {:induction false} VotersCounted(vs: seq<Validation>, proposer: Text)
    requires forall j, k :: 0 <= j < k < |vs| && vs[j].validator == vs[k].validator ==> vs[j].validator == proposer
    ensures OtherVotes(vs, proposer) == |OtherVoters(vs, proposer)|
  {
    if vs == [] {
      assert OtherVoters(vs, proposer) == {};
    } else {
      var front, last := vs[..|vs| - 1], vs[|vs| - 1];
      VotersCounted(front, proposer);
      assert vs == front + [last];
      if last.validator == proposer {
        assert OtherVoters(vs, proposer) == OtherVoters(front, proposer);
      } else {
        assert last.validator !in OtherVoters(front, proposer);
        assert last in vs;
        assert OtherVoters(vs, proposer) == OtherVoters(front, proposer) + {last.validator};
      }
    }
  }

  /** In every reachable state a worker other than the proposer has at most one validation in a thread, so at most
      |workers| - 1 validations come from others; a thread that has validations has a solution. */
  lemma ValidateAtMostOnce(o: Oracle, genesis: State, es: seq<Event>, k: Text, i: nat)
    requires Genesis(genesis)
    requires k in Run(o, genesis, es).tasks && i < |Run(o, genesis, es).tasks[k].threads|
    ensures var th := Run(o, genesis, es).tasks[k].threads[i];
            && VotesOnce(th)
            && (th.validations != [] ==> th.solution.Some?)
            && (th.solution.Some? ==> OtherVotes(th.validations, th.solution.value.proposedBy) <= |th.workers| - 1)
  {
    ReachableInv(o, genesis, es);
    var s := Run(o, genesis, es);
    assert TaskInv(s, k);
    var th := s.tasks[k].threads[i];
    assert ThreadInv(th, k, i, s.params.maxWorkersPerThread, s.workers.Keys);
    if th.solution.Some? {
      var proposer := th.solution.value.proposedBy;
      VotersCounted(th.validations, proposer);
      var members := set a | a in th.workers;
      OrderingSize(th.workers, members);
      assert OtherVoters(th.validations, proposer) <= members - {proposer};
      SubsetSize(OtherVoters(th.validations, proposer), members - {proposer});
    }
  }

  lemma {:induction false} SubsetSize<T>(a: set<T>, b: set<T>)
    requires a <= b
    ensures |a| <= |b|
  {
    if a != {} {
      var x :| x in a;
      SubsetSize(a - {x}, b - {x});
    }
  }

  // ---- reveals ----

  /** BeginBlock's look at the first frame decides the reveal of the whole solution. */
  lemma FirstFrameDecides(o: Oracle, genesis: State, es: seq<Event>, k: Text, i: nat)
    requires Genesis(genesis)
    requires k in Run(o, genesis, es).tasks && i < |Run(o, genesis, es).tasks[k].threads|
    requires var sol := Run(o, genesis, es).tasks[k].threads[i].solution; sol.Some? && sol.value.frames != []
    ensures var frames := Run(o, genesis, es).tasks[k].threads[i].solution.value.frames;
            && (frames[0].hash != [] <==> AllFull(frames) && DistinctNames(frames))
            && (frames[0].hash == [] <==> AllBlank(frames))
  {
    ReachableInv(o, genesis, es);
    var s := Run(o, genesis, es);
    assert TaskInv(s, k);
    assert ThreadInv(s.tasks[k].threads[i], k, i, s.params.maxWorkersPerThread, s.workers.Keys);
    var frames := s.tasks[k].threads[i].solution.value.frames;
    assert frames[0] in frames;
  }

  // ---- completion ----

  /** After EndBlock a real task is completed exactly when all its threads are. */
  lemma CompletionExact(s: State, k: Text)
    requires Inv(s) && k in s.tasks && k != []
    ensures k in EndBlock(s).tasks && EndBlock(s).tasks[k].threads == s.tasks[k].threads
    ensures EndBlock(s).tasks[k].completed <==> AllDone(s.tasks[k])
  {
    assert TaskInv(s, k);
  }

  /** The phantom task fills no hole in the ids. */
  lemma HoleStays(s: State)
    ensures Hole(EndBlock(s).tasks, s.nextId) <==> Hole(s.tasks, s.nextId)
  {
    forall i: nat | i < s.nextId
      ensures Itoa(i) in EndBlock(s).tasks <==> Itoa(i) in s.tasks
    {
    }
  }

  /** Running the completion pass again changes nothing. */
  lemma CompletionIdempotent(s: State)
    requires Inv(s)
    ensures EndBlock(EndBlock(s)) == EndBlock(s)
  {
    var s' := EndBlock(s);
    HoleStays(s);
    if Hole(s.tasks, s.nextId) {
      assert s'.tasks[[]] == PHANTOM;
    } else if [] in s.tasks {
      assert TaskInv(s, []);
    }
    forall k | k in s'.tasks && k != []
      ensures SweptTasks(s'.tasks, s'.nextId)[k] == s'.tasks[k]
    {
      assert s'.tasks[k] == SweptTasks(s.tasks, s.nextId)[k];
    }
    assert EndBlock(s').tasks == s'.tasks;
  }

  // ---- history ----

  predicate FrameKept(f: Frame, g: Frame, frozen: bool) {
    && f.filename == g.filename && f.signature == g.signature
    && (frozen ==> f == g)
  }

  predicate SolutionKept(a: Option<Solution>, b: Option<Solution>) {
    a.Some? ==>
      && b.Some? && b.value.proposedBy == a.value.proposedBy && b.value.publicKey == a.value.publicKey
      && |b.value.frames| == |a.value.frames|
      && (forall j :: 0 <= j < |a.value.frames| ==>
            FrameKept(a.value.frames[j], b.value.frames[j], a.value.accepted))
      && (a.value.accepted ==> b.value.accepted)
  }

  predicate ThreadKept(a: Thread, b: Thread) {
    && b.threadId == a.threadId && b.taskId == a.taskId && b.startFrame == a.startFrame && b.endFrame == a.endFrame
    && a.workers <= b.workers && a.validations <= b.validations
    && SolutionKept(a.solution, b.solution) && (a.completed ==> b.completed)
  }

  predicate TaskKept(a: Task, b: Task) {
    && b == a.(completed := b.completed, threads := b.threads) && |b.threads| == |a.threads|
    && (forall i :: 0 <= i < |a.threads| ==> ThreadKept(a.threads[i], b.threads[i]))
    && (a.completed ==> b.completed)
  }

  predicate WorkerKept(a: Worker, b: Worker) {
    && b.address == a.address && b.enabled == a.enabled && b.reputation.staked == a.reputation.staked
    && a.reputation.winnings <= b.reputation.winnings
    && a.reputation.renderDurations <= b.reputation.renderDurations
  }

  /** Nothing recorded in s is lost or rewritten in s'. */
  predicate Kept(s: State, s': State) {
    && s.nextId <= s'.nextId
    && (forall k :: k in s.tasks ==> k in s'.tasks && TaskKept(s.tasks[k], s'.tasks[k]))
    && (forall a :: a in s.workers ==> a in s'.workers && WorkerKept(s.workers[a], s'.workers[a]))
  }

  lemma TaskKeptTransitive(a: Task, b: Task, c: Task)
    requires TaskKept(a, b) && TaskKept(b, c)
    ensures TaskKept(a, c)
  {
    forall i | 0 <= i < |a.threads|
      ensures ThreadKept(a.threads[i], c.threads[i])
    {
      var x, y, z := a.threads[i], b.threads[i], c.threads[i];
      assert ThreadKept(x, y) && ThreadKept(y, z);
      if x.solution.Some? {
        var fx, fy, fz := x.solution.value.frames, y.solution.value.frames, z.solution.value.frames;
        assert forall j :: 0 <= j < |fx| ==>
          FrameKept(fx[j], fy[j], x.solution.value.accepted) && FrameKept(fy[j], fz[j], y.solution.value.accepted);
      }
    }
  }

  lemma KeptTransitive(s: State, s': State, s'': State)
    requires Kept(s, s') && Kept(s', s'')
    ensures Kept(s, s'')
  {
    forall k | k in s.tasks
      ensures k in s''.tasks && TaskKept(s.tasks[k], s''.tasks[k])
    {
      TaskKeptTransitive(s.tasks[k], s'.tasks[k], s''.tasks[k]);
    }
  }

  lemma ThreadKeptReflexive(th: Thread)
    ensures ThreadKept(th, th)
  {
  }

  /** A step that changes one thread of one task keeps the history if it keeps that thread's. */
  lemma ThreadStepKept(s: State, s': State, k: Text, i: nat)
    requires k in s.tasks && i < |s.tasks[k].threads| && SameButThread(s, s', k, i)
    requires ThreadKept(s.tasks[k].threads[i], s'.tasks[k].threads[i])
    requires forall a :: a in s.workers ==> WorkerKept(s.workers[a], s'.workers[a])
    ensures Kept(s, s')
  {
    forall k' | k' in s.tasks
      ensures TaskKept(s.tasks[k'], s'.tasks[k'])
    {
      forall j | 0 <= j < |s.tasks[k'].threads|
        ensures ThreadKept(s.tasks[k'].threads[j], s'.tasks[k'].threads[j])
      {
        ThreadKeptReflexive(s.tasks[k'].threads[j]);
      }
    }
    assert forall a :: a in s.workers.Keys ==> a in s'.workers.Keys;
  }

  lemma OutcomeKept(frames: seq<Frame>, shown: map<Text, Frame>, j: nat)
    requires Outcome(frames, shown).Some? && j < |frames|
    ensures |Outcome(frames, shown).value| == |frames|
    ensures FrameKept(frames[j], Outcome(frames, shown).value[j], false)
  {
  }

  lemma DiscloseKept(s: State, m: Msg)
    requires Inv(s) && m.MsgReveal? && Disclose(s, m).Committed?
    ensures Kept(s, Disclose(s, m).state)
  {
    var s', k, i := Disclose(s, m).state, m.taskId, s.workers[m.creator].currentThreadIndex;
    var frames := s.tasks[k].threads[i].solution.value.frames;
    forall j | 0 <= j < |frames|
      ensures FrameKept(frames[j], s'.tasks[k].threads[i].solution.value.frames[j], false)
    {
      OutcomeKept(frames, FramesOf(m.entries), j);
    }
    ThreadStepKept(s, s', k, i);
  }

  lemma TaskKeptReflexive(t: Task)
    ensures TaskKept(t, t)
  {
    forall i | 0 <= i < |t.threads|
      ensures ThreadKept(t.threads[i], t.threads[i])
    {
      ThreadKeptReflexive(t.threads[i]);
    }
  }

  /** A step that rewrites no stored task or worker keeps the history. */
  lemma AdditionKept(s: State, s': State)
    requires s.nextId <= s'.nextId
    requires forall k :: k in s.tasks ==> k in s'.tasks && s'.tasks[k] == s.tasks[k]
    requires forall a :: a in s.workers ==> a in s'.workers && s'.workers[a] == s.workers[a]
    ensures Kept(s, s')
  {
    forall k | k in s.tasks
      ensures TaskKept(s.tasks[k], s'.tasks[k])
    {
      TaskKeptReflexive(s.tasks[k]);
    }
  }

  lemma CreateKept(o: Oracle, s: State, m: Msg)
    requires Inv(s) && m.MsgCreateTask? && CreateTask(o, s, m).Committed?
    ensures Kept(s, CreateTask(o, s, m).state)
  {
    IdOf(s.nextId, s.nextId);
    assert Itoa(s.nextId) in s.tasks ==> TaskInv(s, Itoa(s.nextId));
    AdditionKept(s, CreateTask(o, s, m).state);
  }

  lemma SubscribeKept(s: State, m: Msg)
    requires Inv(s) && m.MsgSubscribe? && Subscribe(s, m).Committed?
    ensures Kept(s, Subscribe(s, m).state)
  {
    var s' := Subscribe(s, m).state;
    if s' == s {
      AdditionKept(s, s');
    } else {
      assert s'.workers.Keys == s.workers.Keys;
      ThreadStepKept(s, s', m.taskId, ThreadIndex(s.tasks[m.taskId].threads, m.threadId));
    }
  }

  lemma ProposeKept(o: Oracle, s: State, m: Msg)
    requires Inv(s) && m.MsgPropose? && Propose(o, s, m).Committed?
    ensures Kept(s, Propose(o, s, m).state)
  {
    var s' := Propose(o, s, m).state;
    if s' == s {
      AdditionKept(s, s');
    } else {
      ThreadStepKept(s, s', m.taskId, ThreadIndex(s.tasks[m.taskId].threads, m.threadId));
    }
  }

  lemma ValidateKept(s: State, m: Msg)
    requires Inv(s) && m.MsgValidate? && Validate(s, m).Committed?
    ensures Kept(s, Validate(s, m).state)
  {
    var s' := Validate(s, m).state;
    assert s'.workers.Keys == s.workers.Keys;
    ThreadStepKept(s, s', m.taskId, s.workers[m.creator].currentThreadIndex);
  }

  lemma SettledKept(th: Thread, m: Msg)
    requires m.MsgSubmit? && th.solution.Some?
    ensures ThreadKept(th, Settled(th, m))
  {
  }

  lemma SettledWorkersKept(s: State, m: Msg, a: Text)
    requires m.MsgSubmit? && Submit(s, m).Committed? && a in s.workers
    ensures a in Submit(s, m).state.workers && WorkerKept(s.workers[a], Submit(s, m).state.workers[a])
  {
  }

  lemma SubmitKept(s: State, m: Msg)
    requires Inv(s) && m.MsgSubmit? && Submit(s, m).Committed?
    ensures Kept(s, Submit(s, m).state)
  {
    var s', i := Submit(s, m).state, ThreadIndex(s.tasks[m.taskId].threads, m.threadId);
    if i < 0 {
      AdditionKept(s, s');
    } else {
      SettledKept(s.tasks[m.taskId].threads[i], m);
      forall a | a in s.workers
        ensures WorkerKept(s.workers[a], s'.workers[a])
      {
        SettledWorkersKept(s, m, a);
      }
      assert s'.workers.Keys == s.workers.Keys;
      ThreadStepKept(s, s', m.taskId, i);
    }
  }

  lemma HandleKept(o: Oracle, s: State, m: Msg)
    requires Inv(s) && Handle(o, s, m).Committed?
    ensures Kept(s, Handle(o, s, m).state)
  {
    match m
    case MsgCreateTask(_, _, _, _, _, _, _) => CreateKept(o, s, m);
    case MsgAddWorker(_, _, _, _, _) => AdditionKept(s, AddWorker(s, m).state);
    case MsgSubscribe(_, _, _) => SubscribeKept(s, m);
    case MsgPropose(_, _, _, _, _) => ProposeKept(o, s, m);
    case MsgReveal(_, _, _, _) => DiscloseKept(s, m);
    case MsgValidate(_, _, _, _, _) => ValidateKept(s, m);
    case MsgSubmit(_, _, _, _, _) => SubmitKept(s, m);
  }

  lemma JudgedKept(o: Oracle, t: Task)
    ensures TaskKept(t, JudgedTask(o, t))
  {
    forall i | 0 <= i < |t.threads|
      ensures ThreadKept(t.threads[i], JudgedTask(o, t).threads[i])
    {
      ThreadKeptReflexive(t.threads[i]);
      assert ThreadKept(t.threads[i], Judged(o, t.threads[i]));
    }
  }

  lemma HooksKeep(s: State, s': State)
    requires s'.nextId == s.nextId && s'.workers == s.workers
    requires forall k :: k in s.tasks ==> k in s'.tasks && TaskKept(s.tasks[k], s'.tasks[k])
    ensures Kept(s, s')
  {
  }

  lemma BeginKept(o: Oracle, s: State)
    ensures Kept(s, BeginBlock(o, s))
  {
    var s' := BeginBlock(o, s);
    forall k | k in s.tasks
      ensures k in s'.tasks && TaskKept(s.tasks[k], s'.tasks[k])
    {
      assert s'.tasks[k] == JudgedTask(o, s.tasks[k]);
      JudgedKept(o, s.tasks[k]);
    }
    HooksKeep(s, s');
  }

  lemma EndKept(s: State)
    requires Inv(s)
    ensures Kept(s, EndBlock(s))
  {
    forall k | k in s.tasks
      ensures TaskKept(s.tasks[k], EndBlock(s).tasks[k])
    {
      assert TaskInv(s, k);
      TaskKeptReflexive(s.tasks[k]);
    }
  }

  lemma StepKept(o: Oracle, s: State, e: Event)
    requires Inv(s)
    ensures Kept(s, Step(o, s, e))
  {
    AdditionKept(s, s);
    match e
    case Tx(m) =>
      if Handle(o, s, m).Committed? {
        HandleKept(o, s, m);
      }
    case Begin => BeginKept(o, s);
    case End => EndKept(s);
    case External(_, _) => AdditionKept(s, Step(o, s, e));
  }

  /** Along every run, worker lists and validations only grow as prefixes; a solution's proposer, public key,
      filenames and signatures are write-once; acceptance and completion never reset; and acceptance freezes the
      frames. */
  lemma {:induction false} MonotoneHistory(o: Oracle, s: State, es: seq<Event>)
    requires Inv(s)
    ensures Kept(s, Run(o, s, es))
    decreases |es|
  {
    if es == [] {
      AdditionKept(s, s);
    } else {
      var next := Step(o, s, es[0]);
      StepKept(o, s, es[0]);
      StepKeepsInv(o, s, es[0]);
      MonotoneHistory(o, next, es[1..]);
      KeptTransitive(s, next, Run(o, next, es[1..]));
    }
  }

  /** A reveal that passes the handler's checks. */
  lemma RevealStored(s: State, m: Msg, i: nat, after: seq<Frame>)
    requires m.MsgReveal? && PointsAt(s, m.creator, m.taskId, i) && !s.tasks[m.taskId].completed
    requires var th := s.tasks[m.taskId].threads[i];
             && th.threadId == m.threadId && m.creator in th.workers
             && Proposer(th, m.creator) && !th.solution.value.accepted && |m.entries| == |th.solution.value.frames|
             && Outcome(th.solution.value.frames, FramesOf(m.entries)) == Some(after)
    ensures var th := s.tasks[m.taskId].threads[i];
            Disclose(s, m) ==
            Committed(PutThread(s, m.taskId, i, th.(solution := Some(th.solution.value.(frames := after)))))
  {
  }

  // ---- parts of runs ----

  lemma {:induction false} RunThen(o: Oracle, s: State, es: seq<Event>, e: Event)
    ensures Run(o, s, es + [e]) == Step(o, Run(o, s, es), e)
    decreases |es|
  {
    if es == [] {
      assert [e][1..] == [];
    } else {
      assert (es + [e])[1..] == es[1..] + [e];
      RunThen(o, Step(o, s, es[0]), es[1..], e);
    }
  }

  lemma {:induction false} RunSplit(o: Oracle, s: State, es: seq<Event>, n: nat)
    requires n <= |es|
    ensures Run(o, s, es) == Run(o, Run(o, s, es[..n]), es[n..])
    decreases n
  {
    if n == 0 {
      assert es[..0] == [] && es[0..] == es;
    } else {
      assert es[..n][0] == es[0] && es[..n][1..] == es[1..][..n - 1] && es[1..][n - 1..] == es[n..];
      RunSplit(o, Step(o, s, es[0]), es[1..], n - 1);
    }
  }
}
