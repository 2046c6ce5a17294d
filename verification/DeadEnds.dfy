/** Work that no continuation can finish: threads of negative length, and solutions whose proposer has gone elsewhere
    before revealing them. */
module DeadEnds {
  import opened Records
  import opened Decimal
  import opened FrameSplit
  import opened CliFormat
  import opened Tally
  import opened Reveal
  import opened Chain
  import opened Invariant
  import opened Runs
  import opened Ballots
  import opened Escrow

  // ---- solutions have as many frames as their thread ----

  predicate Solved(s: State, k: Text, i: nat) {
    k in s.tasks && i < |s.tasks[k].threads| && s.tasks[k].threads[i].solution.Some?
  }

  predicate Whole(th: Thread) {
    th.solution.Some? ==> |th.solution.value.frames| == th.endFrame - th.startFrame + 1
  }

  /** A message that gives a thread its solution gives it one of the thread's length. */
  lemma HandleSolves(o: Oracle, s: State, m: Msg, k: Text, i: nat)
    requires Inv(s) && Handle(o, s, m).Committed? && Solved(Handle(o, s, m).state, k, i)
    ensures Solved(s, k, i) || Whole(Handle(o, s, m).state.tasks[k].threads[i])
  {
    match m
    case MsgCreateTask(_, _, _, _, _, _, _) =>
    case MsgAddWorker(_, _, _, _, _) =>
    case MsgSubscribe(_, _, _) => SubscribeSolves(s, m, k, i);
    case MsgPropose(_, _, _, _, _) => ProposeSolves(o, s, m, k, i);
    case MsgReveal(_, _, _, _) =>
    case MsgValidate(_, _, _, _, _) =>
    case MsgSubmit(_, _, _, _, _) => SubmitSolves(s, m, k, i);
  }

  lemma SubscribeSolves(s: State, m: Msg, k: Text, i: nat)
    requires m.MsgSubscribe? && Subscribe(s, m).Committed? && Solved(Subscribe(s, m).state, k, i)
    ensures Solved(s, k, i)
  {
  }

  lemma ProposeSolves(o: Oracle, s: State, m: Msg, k: Text, i: nat)
    requires m.MsgPropose? && Propose(o, s, m).Committed? && Solved(Propose(o, s, m).state, k, i)
    ensures Solved(s, k, i) || Whole(Propose(o, s, m).state.tasks[k].threads[i])
  {
  }

  lemma SubmitSolves(s: State, m: Msg, k: Text, i: nat)
    requires m.MsgSubmit? && Submit(s, m).Committed? && Solved(Submit(s, m).state, k, i)
    ensures Solved(s, k, i)
  {
    var n := ThreadIndex(s.tasks[m.taskId].threads, m.threadId);
    if n >= 0 {
      assert Submit(s, m).state.tasks == PutThread(s, m.taskId, n, Settled(s.tasks[m.taskId].threads[n], m)).tasks;
    }
  }

  lemma StepSolves(o: Oracle, s: State, e: Event, k: Text, i: nat)
    requires Inv(s) && Solved(Step(o, s, e), k, i)
    ensures Solved(s, k, i) || Whole(Step(o, s, e).tasks[k].threads[i])
  {
    match e
    case Tx(m) =>
      if Handle(o, s, m).Committed? {
        HandleSolves(o, s, m, k, i);
      }
    case Begin =>
      assert BeginBlock(o, s).tasks[k] == JudgedTask(o, s.tasks[k]);
      StoredExactlyWhen(o, s.tasks[k], i);
    case End => assert k in s.tasks ==> TaskInv(s, k);
    case External(_, _) =>
  }

  lemma WholeKept(s: State, s': State, k: Text, i: nat)
    requires Kept(s, s') && Solved(s, k, i) && Whole(s.tasks[k].threads[i])
    ensures Solved(s', k, i) && Whole(s'.tasks[k].threads[i])
  {
    assert TaskKept(s.tasks[k], s'.tasks[k]);
    assert ThreadKept(s.tasks[k].threads[i], s'.tasks[k].threads[i]);
  }

  /** In every reachable state a solution has as many frames as its thread's range. */
  lemma {:induction false} SolutionsWhole(o: Oracle, genesis: State, es: seq<Event>, k: Text, i: nat)
    requires Genesis(genesis) && Solved(Run(o, genesis, es), k, i)
    ensures Whole(Run(o, genesis, es).tasks[k].threads[i])
    decreases |es|
  {
    var front, last := es[..|es| - 1], es[|es| - 1];
    assert es == front + [last];
    RunThen(o, genesis, front, last);
    ReachableInv(o, genesis, front);
    var s := Run(o, genesis, front);
    StepSolves(o, s, last, k, i);
    if Solved(s, k, i) {
      SolutionsWhole(o, genesis, front, k, i);
      StepKept(o, s, last);
      WholeKept(s, Step(o, s, last), k, i);
    }
  }

  // ---- threads of negative length ----

  /** A thread of a new task has negative length exactly when the request is reversed by at least as many frames as
      it has threads. */
  lemma NegativeExactlyWhen(startFrame: int, endFrame: int, threads: int, i: nat)
    requires threads > 0
    ensures RangeAt(startFrame, endFrame, threads, i).Length() < 0 <==> endFrame - startFrame + 1 <= -threads
  {
    var total := endFrame - startFrame + 1;
    StartStep(startFrame, endFrame, threads, i);
    RemRange(total, threads);
    if total <= -threads {
      assert Quo(total, threads) < 0;
    } else if total < 0 {
      assert Quo(total, threads) == 0;
    }
  }

  /** In every reachable state a thread of negative length has no solution and is not completed, and neither is its
      task. */
  lemma NegativeNeverSolved(o: Oracle, genesis: State, es: seq<Event>, k: Text, i: nat)
    requires Genesis(genesis)
    requires k in Run(o, genesis, es).tasks && i < |Run(o, genesis, es).tasks[k].threads|
    requires var th := Run(o, genesis, es).tasks[k].threads[i]; th.endFrame - th.startFrame + 1 < 0
    ensures var t := Run(o, genesis, es).tasks[k];
            t.threads[i].solution.None? && !t.threads[i].completed && !t.completed
  {
    var s := Run(o, genesis, es);
    if Solved(s, k, i) {
      SolutionsWhole(o, genesis, es, k, i);
    }
    ReachableInv(o, genesis, es);
    assert TaskInv(s, k);
    var th := s.tasks[k].threads[i];
    assert ThreadInv(th, k, i, s.params.maxWorkersPerThread, s.workers.Keys) && th in s.tasks[k].threads;
  }

  lemma {:induction false} NoneCompleted(ts: seq<Thread>)
    requires forall i :: 0 <= i < |ts| ==> !ts[i].completed
    ensures CompletedCount(ts) == 0
  {
    if ts != [] {
      NoneCompleted(ts[..|ts| - 1]);
    }
  }

  predicate AllNegative(ts: seq<Thread>) {
    forall i :: 0 <= i < |ts| ==> ts[i].endFrame - ts[i].startFrame + 1 < 0
  }

  lemma CreatedNegative(o: Oracle, s: State, m: Msg)
    requires m.MsgCreateTask? && CreateTask(o, s, m).Committed? && m.endFrame - m.startFrame + 1 <= -m.threads
    ensures var s', k := CreateTask(o, s, m).state, Itoa(s.nextId);
            k in s'.tasks && s'.tasks[k].reward == m.reward.value && AllNegative(s'.tasks[k].threads)
  {
    var ts := NewTask(Itoa(s.nextId), m).threads;
    forall i | 0 <= i < |ts|
      ensures ts[i].endFrame - ts[i].startFrame + 1 < 0
    {
      NegativeExactlyWhen(m.startFrame, m.endFrame, m.threads, i);
    }
  }

  lemma NegativeKept(s: State, s': State, k: Text)
    requires Kept(s, s') && k in s.tasks && AllNegative(s.tasks[k].threads)
    ensures k in s'.tasks && AllNegative(s'.tasks[k].threads) && s'.tasks[k].reward == s.tasks[k].reward
  {
    assert TaskKept(s.tasks[k], s'.tasks[k]);
    forall i | 0 <= i < |s'.tasks[k].threads|
      ensures s'.tasks[k].threads[i].endFrame - s'.tasks[k].threads[i].startFrame + 1 < 0
    {
      assert ThreadKept(s.tasks[k].threads[i], s'.tasks[k].threads[i]);
    }
  }

  /** A request reversed by at least as many frames as it has threads is stored like any other. Whatever happens before
      and after, none of its threads ever has a solution, it is never completed, and it is owed its whole reward. */
  lemma ReversedNeverPaid(o: Oracle, genesis: State, es: seq<Event>, m: Msg, later: seq<Event>)
    requires Genesis(genesis) && m.MsgCreateTask? && CreateTask(o, Run(o, genesis, es), m).Committed?
    requires m.endFrame - m.startFrame + 1 <= -m.threads
    ensures var s, k := Run(o, genesis, es + [Tx(m)] + later), Itoa(Run(o, genesis, es).nextId);
            && k in s.tasks && !s.tasks[k].completed && Owed(s.tasks[k]) == s.tasks[k].reward == m.reward.value
            && forall i :: 0 <= i < |s.tasks[k].threads| ==> s.tasks[k].threads[i].solution.None?
  {
    var all := es + [Tx(m)] + later;
    var before, k := Run(o, genesis, es), Itoa(Run(o, genesis, es).nextId);
    var s', s := CreateTask(o, before, m).state, Run(o, genesis, all);
    RunThen(o, genesis, es, Tx(m));
    assert all[..|es| + 1] == es + [Tx(m)] && all[|es| + 1..] == later;
    RunSplit(o, genesis, all, |es| + 1);
    CreatedNegative(o, before, m);
    ReachableInv(o, genesis, es + [Tx(m)]);
    MonotoneHistory(o, s', later);
    NegativeKept(s', s, k);
    forall i | 0 <= i < |s.tasks[k].threads|
      ensures s.tasks[k].threads[i].solution.None? && !s.tasks[k].threads[i].completed && !s.tasks[k].completed
    {
      NegativeNeverSolved(o, genesis, all, k, i);
    }
    NoneCompleted(s.tasks[k].threads);
    ReachableInv(o, genesis, all);
    assert TaskInv(s, k);
  }

  // ---- proposers that have gone elsewhere ----

  /** The thread has a solution, with frames, that has not been revealed. */
  predicate Unrevealed(s: State, k: Text, i: nat) {
    Solved(s, k, i) && var frames := s.tasks[k].threads[i].solution.value.frames; frames != [] && AllBlank(frames)
  }

  function ProposerOf(s: State, k: Text, i: nat): Text
    requires Solved(s, k, i)
  {
    s.tasks[k].threads[i].solution.value.proposedBy
  }

  /** Names that one list of entries can reveal all at once. */
  predicate Plain(frames: seq<Frame>) { DistinctNames(frames) && forall f :: f in frames ==> EQUALS !in f.filename }

  /** The proposer's pointer has left the thread, or the names cannot be revealed. */
  predicate Stuck(s: State, k: Text, i: nat) {
    && Unrevealed(s, k, i)
    && !(PointsAt(s, ProposerOf(s, k, i), k, i) && Plain(s.tasks[k].threads[i].solution.value.frames))
  }

  lemma ProposerListed(s: State, k: Text, i: nat)
    requires Inv(s) && Solved(s, k, i)
    ensures var th := s.tasks[k].threads[i]; ProposerOf(s, k, i) in th.workers && SolutionInv(th)
    ensures k != []
  {
    assert TaskInv(s, k);
    assert ThreadInv(s.tasks[k].threads[i], k, i, s.params.maxWorkersPerThread, s.workers.Keys);
  }

  lemma {:induction false} RevealedNames(entries: seq<Text>)
    ensures forall name :: name in FramesOf(entries) ==> EQUALS !in name
  {
    if entries != [] {
      RevealedNames(entries[..|entries| - 1]);
    }
  }

  /** A first reveal that is accepted covers every frame. */
  lemma FirstReveal(frames: seq<Frame>, entries: seq<Text>)
    requires AllBlank(frames) && Outcome(frames, FramesOf(entries)).Some?
    ensures Plain(frames)
  {
    var shown := FramesOf(entries);
    RevealKeepsAllOrNothing(frames, shown);
    RevealedNames(entries);
    forall j | 0 <= j < |frames|
      ensures EQUALS !in frames[j].filename
    {
      assert frames[j] in frames && Uncovered(frames, shown)[j] in Uncovered(frames, shown);
      assert frames[j].filename in shown;
    }
    var after := Outcome(frames, shown).value;
    if frames != [] {
      assert Full(after[0]) && after[0] in after;
    }
  }

  lemma SubscribeStuck(s: State, m: Msg, k: Text, i: nat)
    requires Inv(s) && Stuck(s, k, i) && m.MsgSubscribe? && Subscribe(s, m).Committed?
    ensures Stuck(Subscribe(s, m).state, k, i)
  {
    ProposerListed(s, k, i);
    assert TaskInv(s, m.taskId) && WorkerInv(s, m.creator);
  }

  lemma CreateStuck(o: Oracle, s: State, m: Msg, k: Text, i: nat)
    requires Inv(s) && Stuck(s, k, i) && m.MsgCreateTask? && CreateTask(o, s, m).Committed?
    ensures Stuck(CreateTask(o, s, m).state, k, i)
  {
    ProposerListed(s, k, i);
    IdOf(s.nextId, s.nextId);
    assert TaskInv(s, k);
  }

  lemma ProposeStuck(o: Oracle, s: State, m: Msg, k: Text, i: nat)
    requires Stuck(s, k, i) && m.MsgPropose? && Propose(o, s, m).Committed?
    ensures Stuck(Propose(o, s, m).state, k, i)
  {
  }

  lemma ValidateStuck(s: State, m: Msg, k: Text, i: nat)
    requires Inv(s) && Stuck(s, k, i) && m.MsgValidate? && Validate(s, m).Committed?
    ensures Stuck(Validate(s, m).state, k, i)
  {
    ProposerListed(s, k, i);
  }

  lemma DiscloseStuck(s: State, m: Msg, k: Text, i: nat)
    requires Inv(s) && Stuck(s, k, i) && m.MsgReveal? && Disclose(s, m).Committed?
    ensures Stuck(Disclose(s, m).state, k, i)
  {
    if m.taskId == k && s.workers[m.creator].currentThreadIndex == i {
      FirstReveal(s.tasks[k].threads[i].solution.value.frames, m.entries);
      assert false;
    }
  }

  lemma SubmitStuck(s: State, m: Msg, k: Text, i: nat)
    requires Inv(s) && Stuck(s, k, i) && m.MsgSubmit? && Submit(s, m).Committed?
    ensures Stuck(Submit(s, m).state, k, i)
  {
    ProposerListed(s, k, i);
    var n := ThreadIndex(s.tasks[m.taskId].threads, m.threadId);
    if n >= 0 {
      assert Submit(s, m).state.tasks == PutThread(s, m.taskId, n, Settled(s.tasks[m.taskId].threads[n], m)).tasks;
    }
  }

  lemma HandleStuck(o: Oracle, s: State, m: Msg, k: Text, i: nat)
    requires Inv(s) && Stuck(s, k, i) && Handle(o, s, m).Committed?
    ensures Stuck(Handle(o, s, m).state, k, i)
  {
    match m
    case MsgCreateTask(_, _, _, _, _, _, _) => CreateStuck(o, s, m, k, i);
    case MsgAddWorker(_, _, _, _, _) => ProposerListed(s, k, i);
    case MsgSubscribe(_, _, _) => SubscribeStuck(s, m, k, i);
    case MsgPropose(_, _, _, _, _) => ProposeStuck(o, s, m, k, i);
    case MsgReveal(_, _, _, _) => DiscloseStuck(s, m, k, i);
    case MsgValidate(_, _, _, _, _) => ValidateStuck(s, m, k, i);
    case MsgSubmit(_, _, _, _, _) => SubmitStuck(s, m, k, i);
  }

  lemma BeginStuck(o: Oracle, s: State, k: Text, i: nat)
    requires Stuck(s, k, i)
    ensures Stuck(BeginBlock(o, s), k, i)
  {
    var th := s.tasks[k].threads[i];
    assert th.solution.value.frames[0] in th.solution.value.frames;
    assert BeginBlock(o, s).tasks[k] == JudgedTask(o, s.tasks[k]);
    StoredExactlyWhen(o, s.tasks[k], i);
  }

  lemma EndStuck(s: State, k: Text, i: nat)
    requires Inv(s) && Stuck(s, k, i)
    ensures Stuck(EndBlock(s), k, i)
  {
    ProposerListed(s, k, i);
    assert TaskInv(s, k);
  }

  lemma StepStuck(o: Oracle, s: State, e: Event, k: Text, i: nat)
    requires Inv(s) && Stuck(s, k, i)
    ensures Stuck(Step(o, s, e), k, i)
  {
    match e
    case Tx(m) =>
      if Handle(o, s, m).Committed? {
        HandleStuck(o, s, m, k, i);
      }
    case Begin => BeginStuck(o, s, k, i);
    case End => EndStuck(s, k, i);
    case External(_, _) =>
  }

  lemma {:induction false} RunStuck(o: Oracle, s: State, es: seq<Event>, k: Text, i: nat)
    requires Inv(s) && Stuck(s, k, i)
    ensures Inv(Run(o, s, es)) && Stuck(Run(o, s, es), k, i)
    decreases |es|
  {
    if es != [] {
      StepStuck(o, s, es[0], k, i);
      StepKeepsInv(o, s, es[0]);
      RunStuck(o, Step(o, s, es[0]), es[1..], k, i);
    }
  }

  // ---- what it takes to reveal ----

  function Filenames(frames: seq<Frame>): (names: seq<Text>)
    ensures |names| == |frames| && forall j :: 0 <= j < |frames| ==> names[j] == frames[j].filename
  {
    seq(|frames|, j requires 0 <= j < |frames| => frames[j].filename)
  }

  /** Some work to reveal under these names. */
  function AnyWork(names: seq<Text>): map<Text, Frame> {
    map name | name in names :: Frame(name, [], [99], [99], 0, 0)
  }

  lemma AnyWorkParses(frames: seq<Frame>)
    requires Plain(frames)
    ensures var names := Filenames(frames);
            && (forall name :: name in names ==> name in AnyWork(names))
            && FramesOf(Entries(AnyWork(names), names)) == PublicPart(AnyWork(names))
  {
    var names := Filenames(frames);
    forall name | name in names
      ensures CleanEntry(name, AnyWork(names)[name])
    {
      var j :| 0 <= j < |names| && names[j] == name;
      assert frames[j] in frames;
    }
    CleanWork(AnyWork(names), names);
  }

  lemma AllCovered(frames: seq<Frame>, shown: map<Text, Frame>)
    requires DistinctNames(frames) && forall name :: name in shown <==> name in Filenames(frames)
    requires forall name :: name in shown ==> Full(shown[name])
    ensures Outcome(frames, shown).Some?
  {
    var names := Filenames(frames);
    forall name | name in shown.Keys
      ensures IndexNamed(frames, name) >= 0
    {
      var j :| 0 <= j < |names| && names[j] == name;
      assert frames[j].filename == name;
    }
    forall j | 0 <= j < |frames|
      ensures Full(Uncovered(frames, shown)[j])
    {
      assert names[j] in names && IndexNamed(frames, names[j]) == j;
    }
  }

  lemma AnyWorkReveals(frames: seq<Frame>)
    requires Plain(frames)
    ensures var names := Filenames(frames);
            && (forall name :: name in names ==> name in AnyWork(names))
            && Outcome(frames, FramesOf(Entries(AnyWork(names), names))).Some?
  {
    AnyWorkParses(frames);
    AllCovered(frames, PublicPart(AnyWork(Filenames(frames))));
  }

  /** Some continuation reveals the solution. */
  ghost predicate CanBeRevealed(o: Oracle, s: State, k: Text, i: nat) {
    exists es :: Solved(Run(o, s, es), k, i) && !Unrevealed(Run(o, s, es), k, i)
  }

  function Revealing(s: State, k: Text, i: nat): Event
    requires Solved(s, k, i)
  {
    var th := s.tasks[k].threads[i];
    var names := Filenames(th.solution.value.frames);
    Tx(MsgReveal(ProposerOf(s, k, i), k, th.threadId, Entries(AnyWork(names), names)))
  }

  lemma RevealAccepted(s: State, m: Msg, k: Text, i: nat)
    requires Inv(s) && Unrevealed(s, k, i) && !Stuck(s, k, i) && m == Revealing(s, k, i).msg
    ensures var th := s.tasks[k].threads[i];
            var after := Outcome(th.solution.value.frames, FramesOf(m.entries));
            && after.Some? && |after.value| == |th.solution.value.frames| && AllFull(after.value)
            && Disclose(s, m) ==
               Committed(PutThread(s, k, i, th.(solution := Some(th.solution.value.(frames := after.value)))))
  {
    var th := s.tasks[k].threads[i];
    ProposerListed(s, k, i);
    AnyWorkReveals(th.solution.value.frames);
    assert TaskInv(s, k) && WorkerInv(s, m.creator) && th in s.tasks[k].threads;
    assert th.solution.value.frames[0] in th.solution.value.frames;
    RevealStored(s, m, i, Outcome(th.solution.value.frames, FramesOf(m.entries)).value);
  }

  lemma NotUnrevealed(s: State, k: Text, i: nat, th: Thread)
    requires k in s.tasks && i < |s.tasks[k].threads| && th.solution.Some?
    requires AllFull(th.solution.value.frames) && th.solution.value.frames != []
    ensures Solved(PutThread(s, k, i, th), k, i) && !Unrevealed(PutThread(s, k, i, th), k, i)
  {
    var frames := th.solution.value.frames;
    assert frames[0] in frames && Full(frames[0]);
    assert PutThread(s, k, i, th).tasks[k].threads[i] == th;
  }

  lemma RevealStep(o: Oracle, s: State, m: Msg, s': State)
    requires m.MsgReveal? && Disclose(s, m) == Committed(s')
    ensures Step(o, s, Tx(m)) == s'
  {
  }

  lemma RevealWorks(o: Oracle, s: State, m: Msg, k: Text, i: nat)
    requires Inv(s) && Unrevealed(s, k, i) && !Stuck(s, k, i) && m == Revealing(s, k, i).msg
    ensures Solved(Step(o, s, Tx(m)), k, i) && !Unrevealed(Step(o, s, Tx(m)), k, i)
  {
    var th := s.tasks[k].threads[i];
    RevealAccepted(s, m, k, i);
    var after := Outcome(th.solution.value.frames, FramesOf(m.entries)).value;
    var th' := th.(solution := Some(th.solution.value.(frames := after)));
    RevealStep(o, s, m, PutThread(s, k, i, th'));
    NotUnrevealed(s, k, i, th');
  }

  lemma StuckForever(o: Oracle, s: State, k: Text, i: nat)
    requires Inv(s) && Stuck(s, k, i)
    ensures !CanBeRevealed(o, s, k, i)
  {
    forall es
      ensures Unrevealed(Run(o, s, es), k, i)
    {
      RunStuck(o, s, es, k, i);
    }
  }

  lemma OneMessageReveals(o: Oracle, s: State, k: Text, i: nat)
    requires Inv(s) && Unrevealed(s, k, i) && !Stuck(s, k, i)
    ensures CanBeRevealed(o, s, k, i)
  {
    var e := Revealing(s, k, i);
    RevealWorks(o, s, e.msg, k, i);
    assert [e][1..] == [];
    assert Run(o, s, [e]) == Step(o, s, e);
  }

  /** A stored, unrevealed solution can still be revealed exactly when its proposer's pointer selects the thread and its
      names are distinct and hold no "="; one message is then enough. */
  lemma RevealableExactlyWhen(o: Oracle, s: State, k: Text, i: nat)
    requires Inv(s) && Unrevealed(s, k, i)
    ensures CanBeRevealed(o, s, k, i) <==>
            PointsAt(s, ProposerOf(s, k, i), k, i) && Plain(s.tasks[k].threads[i].solution.value.frames)
  {
    if Stuck(s, k, i) {
      StuckForever(o, s, k, i);
    } else {
      OneMessageReveals(o, s, k, i);
    }
  }

  /** A proposer that subscribes to another thread before revealing can never come back: its solution stays unrevealed
      and is never accepted. */
  lemma LeavingStrands(o: Oracle, s: State, m: Msg, later: seq<Event>, k: Text, i: nat)
    requires Inv(s) && Unrevealed(s, k, i) && m.MsgSubscribe? && m.creator == ProposerOf(s, k, i)
    requires Subscribe(s, m).Committed? && Subscribe(s, m).state != s
    ensures var s' := Run(o, Step(o, s, Tx(m)), later);
            Unrevealed(s', k, i) && !s'.tasks[k].threads[i].solution.value.accepted
  {
    var next := Subscribe(s, m).state;
    ProposerListed(s, k, i);
    assert TaskInv(s, m.taskId) && WorkerInv(s, m.creator);
    StepKeepsInv(o, s, Tx(m));
    assert Stuck(next, k, i);
    RunStuck(o, next, later, k, i);
    ProposerListed(Run(o, next, later), k, i);
    var frames := Run(o, next, later).tasks[k].threads[i].solution.value.frames;
    assert frames[0] in frames;
  }
}
