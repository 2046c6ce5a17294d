/** Building runs from genesis, with the module's default parameters: two registered workers, one task, and the states
    that subscribing, proposing, revealing, voting and the block hook lead to. */
module Stage {
  import opened Records
  import opened Decimal
  import opened FrameSplit
  import opened Rewards
  import opened CliFormat
  import opened Tally
  import opened Reveal
  import opened Chain
  import opened Invariant
  import opened Runs
  import opened Ballots

  const A: Text := [97]
  const B: Text := [98]
  const REQUESTER: Text := [114]
  const TASK: Text := [49]
  const CONTENT: Text := [99]
  const GOOD: Text := [103]
  const WRONG: Text := [119]
  const STAKE: nat := 1000000
  const FUNDS: nat := 8 * STAKE
  const PARAMS: Params := Params([106, 99, 116], STAKE, 2, 1)

  /** A signature verifies the hash it equals. */
  const ORACLE: Oracle := Oracle(_ => true, _ => true, _ => true, (_, hash, _, signature) => signature == hash)

  function Start(): State {
    State(PARAMS, 1, map[], map[], map[A := STAKE, B := STAKE, REQUESTER := FUNDS], 0)
  }

  lemma RunOne(o: Oracle, s: State, e: Event)
    ensures Run(o, s, [e]) == Step(o, s, e)
  {
    assert [e][1..] == [];
  }

  // ---- a store with one task ----

  /** What stays the same while threads and workers change. */
  datatype Scene = Scene(oracle: Oracle, start: State, params: Params, task: Task, accounts: map<Text, nat>, vault: nat)

  function Store(sc: Scene, ts: seq<Thread>, ws: map<Text, Worker>): State {
    State(sc.params, 2, map[TASK := sc.task.(threads := ts)], ws, sc.accounts, sc.vault)
  }

  predicate Named(ts: seq<Thread>) { forall i :: 0 <= i < |ts| ==> ts[i].threadId == ThreadName(TASK, i) }

  /** The events lead from genesis to these threads and workers. */
  predicate Reaches(sc: Scene, es: seq<Event>, ts: seq<Thread>, ws: map<Text, Worker>) {
    && sc.oracle.keyDecodes([]) && sc.task.taskId == TASK && !sc.task.completed && sc.params.maxWorkersPerThread == 2
    && Named(ts) && Run(sc.oracle, sc.start, es) == Store(sc, ts, ws)
  }

  /** Worker a is registered and works on thread i. */
  predicate On(ws: map<Text, Worker>, a: Text, i: nat) {
    && a in ws && ws[a].enabled && ws[a].address == a
    && ws[a].currentTaskId == TASK && ws[a].currentThreadIndex == i
  }

  lemma FindNamed(ts: seq<Thread>, i: nat)
    requires Named(ts) && i < |ts|
    ensures ThreadIndex(ts, ThreadName(TASK, i)) == i
  {
    var j := ThreadIndex(ts, ThreadName(TASK, i));
    if j >= 0 {
      ThreadNamesUnique(TASK, i, j);
    }
  }

  lemma StorePut(sc: Scene, ts: seq<Thread>, ws: map<Text, Worker>, i: nat, th: Thread)
    requires i < |ts|
    ensures PutThread(Store(sc, ts, ws), TASK, i, th) == Store(sc, ts[i := th], ws)
  {
  }

  lemma NamedPut(ts: seq<Thread>, i: nat, th: Thread)
    requires Named(ts) && i < |ts| && th.threadId == ts[i].threadId
    ensures Named(ts[i := th])
  {
  }

  lemma ReachesNext(sc: Scene, es: seq<Event>, e: Event, ts: seq<Thread>, ws: map<Text, Worker>, ts': seq<Thread>,
                    ws': map<Text, Worker>)
    requires Reaches(sc, es, ts, ws) && Named(ts') && Step(sc.oracle, Store(sc, ts, ws), e) == Store(sc, ts', ws')
    ensures Reaches(sc, es + [e], ts', ws')
  {
    RunThen(sc.oracle, sc.start, es, e);
  }

  function Subscribing(a: Text, i: nat): Event { Tx(MsgSubscribe(a, TASK, ThreadName(TASK, i))) }

  function Moved(w: Worker, i: nat): Worker { w.(currentTaskId := TASK, currentThreadIndex := i) }

  lemma ThenSubscribed(sc: Scene, es: seq<Event>, ts: seq<Thread>, ws: map<Text, Worker>, a: Text, i: nat, th: Thread)
    requires Reaches(sc, es, ts, ws) && i < |ts| && a in ws && ws[a].enabled && ws[a].address == a
    requires Open(ts[i], 2) && a !in ts[i].workers && th == ts[i].(workers := ts[i].workers + [a])
    ensures Reaches(sc, es + [Subscribing(a, i)], ts[i := th], ws[a := Moved(ws[a], i)])
  {
    RunThen(sc.oracle, sc.start, es, Subscribing(a, i));
    FindNamed(ts, i);
    StorePut(sc, ts, ws, i, th);
  }

  function Proposing(a: Text, i: nat, lines: seq<Text>): Event {
    Tx(MsgPropose(a, TASK, ThreadName(TASK, i), [], lines))
  }

  lemma ProposalStored(o: Oracle, s: State, m: Msg, i: nat, frames: seq<Frame>, th: Thread)
    requires m.MsgPropose? && Enabled(s, m.creator) && Running(s, m.taskId)
    requires i == ThreadIndex(s.tasks[m.taskId].threads, m.threadId)
    requires var th := s.tasks[m.taskId].threads[i];
             th.solution.None? && m.creator in th.workers && |m.signatures| == th.endFrame - th.startFrame + 1
    requires ProposedFrames(m.signatures) == Some(frames) && o.keyDecodes(m.publicKey)
    requires th == s.tasks[m.taskId].threads[i].(solution := Some(Solution(m.creator, frames, m.publicKey, [], false)))
    ensures Propose(o, s, m) == Committed(PutThread(s, m.taskId, i, th))
  {
  }

  lemma CommittedStep(o: Oracle, s: State, m: Msg, s': State)
    requires m.MsgPropose? && Propose(o, s, m) == Committed(s')
    ensures Step(o, s, Tx(m)) == s'
  {
  }

  lemma ProposedStep(sc: Scene, ts: seq<Thread>, ws: map<Text, Worker>, a: Text, i: nat, lines: seq<Text>,
                     frames: seq<Frame>, th: Thread)
    requires sc.oracle.keyDecodes([]) && sc.task.taskId == TASK && !sc.task.completed && Named(ts)
    requires i < |ts| && ts[i].solution.None? && a in ts[i].workers && a in ws && ws[a].enabled
    requires ProposedFrames(lines) == Some(frames) && |lines| == ts[i].endFrame - ts[i].startFrame + 1
    requires th == ts[i].(solution := Some(Solution(a, frames, [], [], false)))
    ensures Step(sc.oracle, Store(sc, ts, ws), Proposing(a, i, lines)) == Store(sc, ts[i := th], ws)
  {
    var s, m := Store(sc, ts, ws), Proposing(a, i, lines).msg;
    FindNamed(ts, i);
    ProposalStored(sc.oracle, s, m, i, frames, th);
    CommittedStep(sc.oracle, s, m, PutThread(s, TASK, i, th));
    StorePut(sc, ts, ws, i, th);
  }

  lemma ThenProposed(sc: Scene, es: seq<Event>, ts: seq<Thread>, ws: map<Text, Worker>, a: Text, i: nat,
                     lines: seq<Text>, frames: seq<Frame>, th: Thread)
    requires Reaches(sc, es, ts, ws) && i < |ts| && ts[i].solution.None?
    requires a in ts[i].workers && a in ws && ws[a].enabled
    requires ProposedFrames(lines) == Some(frames) && |lines| == ts[i].endFrame - ts[i].startFrame + 1
    requires th == ts[i].(solution := Some(Solution(a, frames, [], [], false)))
    ensures Reaches(sc, es + [Proposing(a, i, lines)], ts[i := th], ws)
  {
    ProposedStep(sc, ts, ws, a, i, lines, frames, th);
    NamedPut(ts, i, th);
    ReachesNext(sc, es, Proposing(a, i, lines), ts, ws, ts[i := th], ws);
  }

  function Revealing(a: Text, i: nat, entries: seq<Text>): Event {
    Tx(MsgReveal(a, TASK, ThreadName(TASK, i), entries))
  }

  lemma ThenRevealed(sc: Scene, es: seq<Event>, ts: seq<Thread>, ws: map<Text, Worker>, a: Text, i: nat,
                     entries: seq<Text>, after: seq<Frame>, th: Thread)
    requires Reaches(sc, es, ts, ws) && i < |ts| && On(ws, a, i) && a in ts[i].workers
    requires Proposer(ts[i], a) && !ts[i].solution.value.accepted && |entries| == |ts[i].solution.value.frames|
    requires Outcome(ts[i].solution.value.frames, FramesOf(entries)) == Some(after)
    requires th == ts[i].(solution := Some(ts[i].solution.value.(frames := after)))
    ensures Reaches(sc, es + [Revealing(a, i, entries)], ts[i := th], ws)
  {
    RunThen(sc.oracle, sc.start, es, Revealing(a, i, entries));
    RevealStored(Store(sc, ts, ws), Revealing(a, i, entries).msg, i, after);
    StorePut(sc, ts, ws, i, th);
  }

  function Voting(a: Text, i: nat, lines: seq<Text>): Event { Tx(MsgValidate(a, TASK, ThreadName(TASK, i), [], lines)) }

  function Vote(th: Thread, a: Text, frames: seq<Frame>): Validation {
    Validation(a, frames, [], OddPlace(th.workers, a))
  }

  lemma ThenVoted(sc: Scene, es: seq<Event>, ts: seq<Thread>, ws: map<Text, Worker>, a: Text, i: nat,
                  lines: seq<Text>, frames: seq<Frame>, th: Thread)
    requires Reaches(sc, es, ts, ws) && i < |ts| && On(ws, a, i) && a in ts[i].workers && ts[i].solution.Some?
    requires ProposedFrames(lines) == Some(frames)
    requires th == ts[i].(validations := ts[i].validations + [Vote(ts[i], a, frames)])
    ensures Reaches(sc, es + [Voting(a, i, lines)], ts[i := th],
                    if Proposer(ts[i], a) then ws else ws[a := Idle(ws[a])])
  {
    RunThen(sc.oracle, sc.start, es, Voting(a, i, lines));
    StorePut(sc, ts, ws, i, th);
  }

  function NextScene(sc: Scene, ws: map<Text, Worker>): Scene {
    sc.(params := AdjustedParams(State(sc.params, 2, map[], ws, map[], 0)))
  }

  lemma OneTaskJudged(o: Oracle, t: Task)
    ensures JudgedTasks(o, map[TASK := t]) == map[TASK := JudgedTask(o, t)]
  {
  }

  lemma ThenBegun(sc: Scene, es: seq<Event>, ts: seq<Thread>, ws: map<Text, Worker>, ts': seq<Thread>)
    requires Reaches(sc, es, ts, ws) && ts' == JudgedTask(sc.oracle, sc.task.(threads := ts)).threads
    ensures Reaches(NextScene(sc, ws), es + [Begin], ts', ws)
  {
    RunThen(sc.oracle, sc.start, es, Begin);
    OneTaskJudged(sc.oracle, sc.task.(threads := ts));
    forall i | 0 <= i < |ts|
      ensures ts'[i].threadId == ts[i].threadId
    {
      StoredExactlyWhen(sc.oracle, sc.task.(threads := ts), i);
    }
  }

  /** When the second of two threads is accepted both are stored as judged; when the first is, at least that one. */
  lemma BothStored(t: Task, first: Thread, second: Thread)
    requires t.threads == [first, second] && !t.completed && NewlyAccepted(ORACLE, second)
    ensures JudgedTask(ORACLE, t).threads == [Judged(ORACLE, first), Judged(ORACLE, second)]
  {
    assert NewlyAccepted(ORACLE, t.threads[1]);
    StoredExactlyWhen(ORACLE, t, 0);
    StoredExactlyWhen(ORACLE, t, 1);
  }

  lemma FirstStored(t: Task, first: Thread, second: Thread)
    requires t.threads == [first, second] && !t.completed && NewlyAccepted(ORACLE, first)
    ensures |JudgedTask(ORACLE, t).threads| == 2 && JudgedTask(ORACLE, t).threads[0] == Judged(ORACLE, first)
  {
    assert NewlyAccepted(ORACLE, t.threads[0]);
    StoredExactlyWhen(ORACLE, t, 0);
  }

  lemma PutOnly<T>(before: T, after: T)
    ensures [before][0 := after] == [after]
  {
  }

  lemma PutAgain<T>(s: seq<T>, i: nat, x: T, y: T)
    requires i < |s|
    ensures s[i := x][i := y] == s[i := y]
  {
  }

  lemma PutFirst<T>(before: T, after: T, second: T)
    ensures [before, second][0 := after] == [after, second]
  {
  }

  lemma PutSecond<T>(first: T, before: T, after: T)
    ensures [first, before][1 := after] == [first, after]
  {
  }

  // ---- setting up: A and B register, a task of n threads with w frames each is created ----

  function Registering(a: Text): Event { Tx(MsgAddWorker(a, [], [], PARAMS.stakeDenom, STAKE)) }

  function Creating(creator: Text, w: nat, n: nat, reward: nat): Event {
    Tx(MsgCreateTask(creator, CONTENT, 1, w * n, n, 0, Some(reward)))
  }

  function Setup(w: nat, n: nat, reward: nat): seq<Event> {
    [Registering(A)] + [Registering(B)] + [Creating(REQUESTER, w, n, reward)]
  }

  function Recruit(a: Text): Worker { Worker(a, Reputation(STAKE, 0, 0, 0, 0, []), true, [], 0, [], []) }

  function Recruits(): map<Text, Worker> { map[][A := Recruit(A)][B := Recruit(B)] }

  function OneIn(): State {
    Start().(workers := map[][A := Recruit(A)], accounts := Start().accounts[A := 0], vault := STAKE)
  }

  function BothIn(): State {
    OneIn().(workers := Recruits(), accounts := OneIn().accounts[B := 0], vault := 2 * STAKE)
  }

  function FirstScene(w: nat, n: nat, reward: nat): Scene
    requires reward <= FUNDS
  {
    Scene(ORACLE, Start(), PARAMS, Task(TASK, REQUESTER, CONTENT, 1, w * n, n, 0, false, reward, []),
          BothIn().accounts[REQUESTER := FUNDS - reward], 2 * STAKE + reward)
  }

  function Fresh(w: nat, i: nat): Thread {
    Thread(ThreadName(TASK, i), TASK, i * w + 1, i * w + w, 0, false, [], None, [], 0)
  }

  lemma Registered(s: State, a: Text)
    requires s.params == PARAMS && a !in s.workers && Balance(s, a) == STAKE
    ensures Step(ORACLE, s, Registering(a)) ==
            s.(workers := s.workers[a := Recruit(a)], accounts := s.accounts[a := 0], vault := s.vault + STAKE)
  {
  }

  lemma Balances()
    ensures Balance(Start(), A) == STAKE && Balance(OneIn(), B) == STAKE && B !in OneIn().workers
    ensures Balance(BothIn(), REQUESTER) == FUNDS
    ensures A in Recruits() && B in Recruits() && Recruits()[A] == Recruit(A) && Recruits()[B] == Recruit(B)
  {
    assert A[0] != B[0] && A[0] != REQUESTER[0] && B[0] != REQUESTER[0];
  }

  lemma BothRegistered()
    ensures Run(ORACLE, Start(), [Registering(A)] + [Registering(B)]) == BothIn()
  {
    Balances();
    Registered(Start(), A);
    RunOne(ORACLE, Start(), Registering(A));
    RunThen(ORACLE, Start(), [Registering(A)], Registering(B));
    Registered(OneIn(), B);
  }

  lemma EvenRange(w: nat, n: nat, i: nat)
    requires n > 0
    ensures RangeAt(1, w * n, n, i) == Range(i * w + 1, i * w + w)
  {
    assert w * n == n * w + 0;
    DivideUnique(w * n, n, w, 0);
    assert (i + 1) * w == i * w + w;
  }

  lemma EvenThreads(w: nat, n: nat, ts: seq<Thread>)
    requires n > 0 && |ts| == n && forall i: nat :: i < n ==> ts[i] == Fresh(w, i)
    ensures NewThreads(TASK, 1, w * n, n) == ts
  {
    forall i: nat | i < n
      ensures NewThreads(TASK, 1, w * n, n)[i] == ts[i]
    {
      EvenRange(w, n, i);
    }
  }

  lemma SetUp(w: nat, n: nat, reward: nat, ts: seq<Thread>)
    requires reward <= FUNDS && n > 0 && |ts| == n && forall i: nat :: i < n ==> ts[i] == Fresh(w, i)
    ensures Reaches(FirstScene(w, n, reward), Setup(w, n, reward), ts, Recruits())
  {
    BothRegistered();
    Balances();
    EvenThreads(w, n, ts);
    assert Itoa(1) == TASK;
    RunThen(ORACLE, Start(), [Registering(A)] + [Registering(B)], Creating(REQUESTER, w, n, reward));
  }
}
