/** Short runs from genesis that reach the states in which a guarantee fails: threads of one frame. */
module Scenarios {
  import opened Records
  import opened Decimal
  import opened FrameSplit
  import opened CliFormat
  import opened Tally
  import opened Reveal
  import opened Chain
  import opened Invariant
  import opened Runs
  import opened Ballots
  import opened Escrow
  import opened Evaluation
  import opened Conservation
  import opened Stage

  const FILE: Text := [102]

  function Lines1(signature: Text): seq<Text> { [Line(FILE, signature)] }

  function Signed(signature: Text): seq<Frame> { [Frame(FILE, signature, [], [], 0, 0)] }

  lemma OneLine(signature: Text)
    ensures ProposedFrames(Lines1(signature)) == Some(Signed(signature))
  {
    var signatures := map[FILE := signature];
    ProposedFromLines(signatures, [FILE]);
    assert Lines(signatures, [FILE]) == Lines1(signature);
    var frames := ProposedFrames(Lines1(signature)).value;
    assert frames == [frames[0]];
  }

  function Entries1(): seq<Text> { [Entry(FILE, Frame(FILE, [], CONTENT, GOOD, 0, 0))] }

  function ShownFrames(): seq<Frame> { [Frame(FILE, GOOD, CONTENT, GOOD, 0, 0)] }

  lemma OneEntry()
    ensures FramesOf(Entries1()) == map[FILE := Frame(FILE, [], CONTENT, GOOD, 0, 0)]
  {
    EntryParses(FILE, Frame(FILE, [], CONTENT, GOOD, 0, 0));
    assert Entries1()[..0] == [];
  }

  lemma OneReveal()
    ensures Outcome(Signed(GOOD), FramesOf(Entries1())) == Some(ShownFrames())
  {
    OneEntry();
    var shown := map[FILE := Frame(FILE, [], CONTENT, GOOD, 0, 0)];
    assert IndexNamed(Signed(GOOD), FILE) == 0;
    assert Uncovered(Signed(GOOD), shown) == ShownFrames();
  }

  // ---- A and B join thread 0, A proposes and reveals ----

  function Busy(a: Text, i: nat): Worker { Moved(Recruit(a), i) }

  function Both(): map<Text, Worker> { Recruits()[A := Busy(A, 0)][B := Busy(B, 0)] }

  lemma BothOn()
    ensures On(Both(), A, 0) && On(Both(), B, 0) && Both()[A] == Busy(A, 0) && Both()[B] == Busy(B, 0)
  {
    assert A[0] != B[0];
  }

  function Joining(es: seq<Event>): seq<Event> { es + [Subscribing(A, 0)] + [Subscribing(B, 0)] }

  function Joined(): Thread { Fresh(1, 0).(workers := [A, B]) }

  lemma JoinedRun(sc: Scene, es: seq<Event>, ts: seq<Thread>)
    requires Reaches(sc, es, ts, Recruits()) && |ts| > 0 && ts[0] == Fresh(1, 0)
    ensures Reaches(sc, Joining(es), ts[0 := Joined()], Both())
  {
    var one := Fresh(1, 0).(workers := [A]);
    Balances();
    assert A[0] != B[0];
    ThenSubscribed(sc, es, ts, Recruits(), A, 0, one);
    var ws := Recruits()[A := Busy(A, 0)];
    ThenSubscribed(sc, es + [Subscribing(A, 0)], ts[0 := one], ws, B, 0, Joined());
    PutAgain(ts, 0, one, Joined());
  }

  function Asking(es: seq<Event>): seq<Event> { Joining(es) + [Proposing(A, 0, Lines1(GOOD))] }

  function Asked(): Thread { Joined().(solution := Some(Solution(A, Signed(GOOD), [], [], false))) }

  lemma AskedRun(sc: Scene, es: seq<Event>, ts: seq<Thread>)
    requires Reaches(sc, es, ts, Recruits()) && |ts| > 0 && ts[0] == Fresh(1, 0)
    ensures Reaches(sc, Asking(es), ts[0 := Asked()], Both())
  {
    JoinedRun(sc, es, ts);
    OneLine(GOOD);
    BothOn();
    ThenProposed(sc, Joining(es), ts[0 := Joined()], Both(), A, 0, Lines1(GOOD), Signed(GOOD), Asked());
    PutAgain(ts, 0, Joined(), Asked());
  }

  function Showing(es: seq<Event>): seq<Event> { Asking(es) + [Revealing(A, 0, Entries1())] }

  function Shown(a: Text): Solution { Solution(a, ShownFrames(), [], [], false) }

  function Shared(vs: seq<Validation>): Thread { Joined().(solution := Some(Shown(A)), validations := vs) }

  lemma SharedRun(sc: Scene, es: seq<Event>, ts: seq<Thread>)
    requires Reaches(sc, es, ts, Recruits()) && |ts| > 0 && ts[0] == Fresh(1, 0)
    ensures Reaches(sc, Showing(es), ts[0 := Shared([])], Both())
  {
    AskedRun(sc, es, ts);
    OneReveal();
    BothOn();
    ThenRevealed(sc, Asking(es), ts[0 := Asked()], Both(), A, 0, Entries1(), ShownFrames(), Shared([]));
    PutAgain(ts, 0, Asked(), Shared([]));
  }

  function By(a: Text, signature: Text): Validation { Validation(a, Signed(signature), [], OddPlace([A, B], a)) }

  lemma ByGood(a: Text, signature: Text, f: Frame)
    requires f.filename == FILE && f.hash == GOOD
    ensures Cast(ORACLE, f, By(a, signature)) == if signature == GOOD then Valid else Ballot.Invalid
  {
    assert IndexNamed(Signed(signature), FILE) == 0;
  }

  /** A, who proposed, votes and stays. */
  lemma AVotes(sc: Scene, es: seq<Event>, ts: seq<Thread>, vs: seq<Validation>, signature: Text)
    requires Reaches(sc, es, ts, Both()) && |ts| > 0 && ts[0] == Shared(vs)
    ensures Reaches(sc, es + [Voting(A, 0, Lines1(signature))], ts[0 := Shared(vs + [By(A, signature)])], Both())
  {
    OneLine(signature);
    BothOn();
    ThenVoted(sc, es, ts, Both(), A, 0, Lines1(signature), Signed(signature), Shared(vs + [By(A, signature)]));
  }

  // ---- a task of one thread, reward 2 ----

  function Scene1(): Scene { FirstScene(1, 1, 2) }

  lemma SharedOnce()
    ensures Reaches(Scene1(), Showing(Setup(1, 1, 2)), [Shared([])], Both())
  {
    SetUp(1, 1, 2, [Fresh(1, 0)]);
    SharedRun(Scene1(), Setup(1, 1, 2), [Fresh(1, 0)]);
    PutOnly(Fresh(1, 0), Shared([]));
  }

  lemma AVotesOnce(es: seq<Event>, vs: seq<Validation>, signature: Text)
    requires Reaches(Scene1(), es, [Shared(vs)], Both())
    ensures Reaches(Scene1(), es + [Voting(A, 0, Lines1(signature))], [Shared(vs + [By(A, signature)])], Both())
  {
    AVotes(Scene1(), es, [Shared(vs)], vs, signature);
    PutOnly(Shared(vs), Shared(vs + [By(A, signature)]));
  }

  lemma JudgedAlone(es: seq<Event>, th: Thread)
    requires Reaches(Scene1(), es, [th], Both())
    ensures var s := Run(ORACLE, Start(), es + [Begin]);
            && TASK in s.tasks && |s.tasks[TASK].threads| == 1
            && s.tasks[TASK].threads[0] == if NewlyAccepted(ORACLE, th) then Judged(ORACLE, th) else th
  {
    var t := Scene1().task.(threads := [th]);
    StoredExactlyWhen(ORACLE, t, 0);
    ThenBegun(Scene1(), es, [th], Both(), JudgedTask(ORACLE, t).threads);
  }

  /** The only frame is enough. */
  lemma OneFrameVerdict(th: Thread)
    requires Ready(th) && |th.solution.value.frames| == 1
    ensures var f := th.solution.value.frames[0];
            && (NewlyAccepted(ORACLE, th) <==>
                f.validCount + Count(ORACLE, f, th.validations, Valid) >= VotesNeeded(th.workers))
            && Judged(ORACLE, th).solution.value.frames == [Added(ORACLE, f, th.validations)]
  {
    var frames := th.solution.value.frames;
    var after := Evaluated(ORACLE, frames, th.validations);
    ExactTally(ORACLE, frames, th.validations, 0);
    assert after == [after[0]];
    OneFrameAccepted(after[0], th.workers);
  }

  lemma CountLast(f: Frame, vs: seq<Validation>, v: Validation, b: Ballot)
    ensures Count(ORACLE, f, vs + [v], b) == Count(ORACLE, f, vs, b) + if Cast(ORACLE, f, v) == b then 1 else 0
  {
    assert (vs + [v])[..|vs|] == vs;
  }

  // ---- the proposer alone ----

  function TwoVotes(): seq<Event> {
    Showing(Setup(1, 1, 2)) + [Voting(A, 0, Lines1(GOOD))] + [Voting(A, 0, Lines1(GOOD))]
  }

  function Twice(): Thread { Shared([] + [By(A, GOOD)] + [By(A, GOOD)]) }

  lemma TwoVotesRun()
    ensures Reaches(Scene1(), TwoVotes(), [Twice()], Both())
  {
    SharedOnce();
    AVotesOnce(Showing(Setup(1, 1, 2)), [], GOOD);
    AVotesOnce(Showing(Setup(1, 1, 2)) + [Voting(A, 0, Lines1(GOOD))], [] + [By(A, GOOD)], GOOD);
  }

  lemma TwoVotesAccepted()
    ensures NewlyAccepted(ORACLE, Twice())
  {
    var f := ShownFrames()[0];
    ByGood(A, GOOD, f);
    CountLast(f, [], By(A, GOOD), Valid);
    CountLast(f, [] + [By(A, GOOD)], By(A, GOOD), Valid);
    OneFrameVerdict(Twice());
  }

  /** The proposer sends the same validation twice and is accepted, although the other worker never voted. */
  lemma ProposerAcceptedAlone()
    ensures var s := Run(ORACLE, Start(), TwoVotes() + [Begin]);
            && TASK in s.tasks && |s.tasks[TASK].threads| == 1
            && var th := s.tasks[TASK].threads[0];
               && th.workers == [A, B] && Proposer(th, A) && th.solution.value.accepted
               && |th.validations| == 2 && forall v :: v in th.validations ==> v.validator == A
  {
    TwoVotesRun();
    TwoVotesAccepted();
    JudgedAlone(TwoVotes(), Twice());
  }

  // ---- more votes against than for ----

  function Outvoting(): seq<Event> {
    TwoVotes() + [Voting(A, 0, Lines1(WRONG))] + [Voting(A, 0, Lines1(WRONG))] + [Voting(A, 0, Lines1(WRONG))]
  }

  function Against(vs: seq<Validation>): seq<Validation> { vs + [By(A, WRONG)] + [By(A, WRONG)] + [By(A, WRONG)] }

  lemma OutvotedRun()
    ensures Reaches(Scene1(), Outvoting(), [Shared(Against(Twice().validations))], Both())
  {
    var es, vs, e := TwoVotes(), Twice().validations, Voting(A, 0, Lines1(WRONG));
    TwoVotesRun();
    AVotesOnce(es, vs, WRONG);
    AVotesOnce(es + [e], vs + [By(A, WRONG)], WRONG);
    AVotesOnce(es + [e] + [e], vs + [By(A, WRONG)] + [By(A, WRONG)], WRONG);
  }

  lemma OutvotedTally(b: Ballot)
    ensures Count(ORACLE, ShownFrames()[0], Against(Twice().validations), b) ==
            if b == Valid then 2 else if b == Ballot.Invalid then 3 else 0
  {
    var f, v, w := ShownFrames()[0], By(A, GOOD), By(A, WRONG);
    assert GOOD[0] != WRONG[0];
    ByGood(A, GOOD, f);
    ByGood(A, WRONG, f);
    CountLast(f, [], v, b);
    CountLast(f, [] + [v], v, b);
    var vs := Twice().validations;
    CountLast(f, vs, w, b);
    CountLast(f, vs + [w], w, b);
    CountLast(f, vs + [w] + [w], w, b);
  }

  /** Two votes for the only frame and three against it, all stored, and the solution is accepted. */
  lemma OutvotedAccepted()
    ensures var s := Run(ORACLE, Start(), Outvoting() + [Begin]);
            && TASK in s.tasks && |s.tasks[TASK].threads| == 1
            && var th := s.tasks[TASK].threads[0];
               && th.solution.Some? && th.solution.value.accepted && |th.solution.value.frames| == 1
               && th.solution.value.frames[0].validCount == 2 && th.solution.value.frames[0].invalidCount == 3
  {
    var th := Shared(Against(Twice().validations));
    OutvotedRun();
    OutvotedTally(Valid);
    OutvotedTally(Ballot.Invalid);
    OneFrameVerdict(th);
    JudgedAlone(Outvoting(), th);
  }

  // ---- counts left behind: a task of two threads ----

  function Scene2(): Scene { FirstScene(1, 2, 2) }

  function SplitVotes(): seq<Event> {
    Showing(Setup(1, 2, 2)) + [Voting(A, 0, Lines1(WRONG))] + [Voting(B, 0, Lines1(GOOD))]
  }

  function Split(): Thread { Shared([] + [By(A, WRONG)] + [By(B, GOOD)]) }

  /** B has voted and is idle. */
  function AFirst(): map<Text, Worker> { Both()[B := Recruit(B)] }

  lemma SplitRun()
    ensures Reaches(Scene2(), SplitVotes(), [Split(), Fresh(1, 1)], AFirst())
  {
    var es, other, one := Setup(1, 2, 2), Fresh(1, 1), Shared([] + [By(A, WRONG)]);
    SetUp(1, 2, 2, [Fresh(1, 0), other]);
    SharedRun(Scene2(), es, [Fresh(1, 0), other]);
    PutFirst(Fresh(1, 0), Shared([]), other);
    AVotes(Scene2(), Showing(es), [Shared([]), other], [], WRONG);
    PutFirst(Shared([]), one, other);
    OneLine(GOOD);
    BothOn();
    assert A[0] != B[0];
    ThenVoted(Scene2(), Showing(es) + [Voting(A, 0, Lines1(WRONG))], [one, other], Both(), B, 0, Lines1(GOOD),
              Signed(GOOD), Split());
    PutFirst(one, Split(), other);
  }

  /** A has gone on to thread 1. */
  function ASecond(): map<Text, Worker> { AFirst()[A := Busy(A, 1)] }

  function Single(vs: seq<Validation>): Thread {
    Fresh(1, 1).(workers := [A], solution := Some(Shown(A)), validations := vs)
  }

  function OwnVote(): Validation { Validation(A, Signed(GOOD), [], OddPlace([A], A)) }

  function GoneOn(): seq<Event> { SplitVotes() + [Subscribing(A, 1)] + [Proposing(A, 1, Lines1(GOOD))] }

  lemma GoneOnRun()
    ensures Reaches(Scene2(), GoneOn(), [Split(), Single([]).(solution := Asked().solution)], ASecond())
    ensures On(ASecond(), A, 1)
  {
    var first, joined, asked := Split(), Fresh(1, 1).(workers := [A]), Single([]).(solution := Asked().solution);
    SplitRun();
    BothOn();
    assert A[0] != B[0];
    ThenSubscribed(Scene2(), SplitVotes(), [first, Fresh(1, 1)], AFirst(), A, 1, joined);
    PutSecond(first, Fresh(1, 1), joined);
    OneLine(GOOD);
    ThenProposed(Scene2(), SplitVotes() + [Subscribing(A, 1)], [first, joined], ASecond(), A, 1, Lines1(GOOD),
                 Signed(GOOD), asked);
    PutSecond(first, joined, asked);
  }

  function Opened(): seq<Event> { GoneOn() + [Revealing(A, 1, Entries1())] }

  lemma OpenedRun()
    ensures Reaches(Scene2(), Opened(), [Split(), Single([])], ASecond()) && On(ASecond(), A, 1)
  {
    var first, asked := Split(), Single([]).(solution := Asked().solution);
    GoneOnRun();
    OneReveal();
    ThenRevealed(Scene2(), GoneOn(), [first, asked], ASecond(), A, 1, Entries1(), ShownFrames(), Single([]));
    PutSecond(first, asked, Single([]));
  }

  function BothVoted(): seq<Event> { Opened() + [Voting(A, 1, Lines1(GOOD))] }

  lemma OwnVoteAdded()
    ensures Single([OwnVote()]) == Single([]).(validations := [] + [Vote(Single([]), A, Signed(GOOD))])
  {
  }

  lemma SecondVoted(sc: Scene, es: seq<Event>, first: Thread, before: Thread, ws: map<Text, Worker>, after: Thread)
    requires Reaches(sc, es, [first, before], ws) && On(ws, A, 1) && A in before.workers && Proposer(before, A)
    requires after == before.(validations := before.validations + [Vote(before, A, Signed(GOOD))])
    ensures Reaches(sc, es + [Voting(A, 1, Lines1(GOOD))], [first, after], ws)
  {
    OneLine(GOOD);
    ThenVoted(sc, es, [first, before], ws, A, 1, Lines1(GOOD), Signed(GOOD), after);
    PutSecond(first, before, after);
  }

  lemma BothVotedRun()
    ensures Reaches(Scene2(), BothVoted(), [Split(), Single([OwnVote()])], ASecond())
  {
    OpenedRun();
    OwnVoteAdded();
    SecondVoted(Scene2(), Opened(), Split(), Single([]), ASecond(), Single([OwnVote()]));
  }

  lemma SplitTally(f: Frame)
    requires f.filename == FILE && f.hash == GOOD
    ensures Count(ORACLE, f, Split().validations, Valid) == 1
  {
    assert WRONG[0] != GOOD[0];
    ByGood(A, WRONG, f);
    ByGood(B, GOOD, f);
    CountLast(f, [], By(A, WRONG), Valid);
    CountLast(f, [] + [By(A, WRONG)], By(B, GOOD), Valid);
  }

  lemma OwnVoteCounts()
    ensures Count(ORACLE, ShownFrames()[0], [OwnVote()], Valid) == 1
  {
    assert IndexNamed(Signed(GOOD), FILE) == 0;
    assert [OwnVote()] == [] + [OwnVote()];
    CountLast(ShownFrames()[0], [], OwnVote(), Valid);
  }

  function Pair(): Task { Scene2().task.(threads := [Split(), Single([OwnVote()])]) }

  function Once(): Task { JudgedTask(ORACLE, Pair()) }

  lemma SplitRejected()
    ensures Ready(Split()) && !NewlyAccepted(ORACLE, Split())
  {
    SplitTally(ShownFrames()[0]);
    OneFrameVerdict(Split());
  }

  lemma SingleAccepted()
    ensures NewlyAccepted(ORACLE, Single([OwnVote()]))
  {
    OwnVoteCounts();
    OneFrameVerdict(Single([OwnVote()]));
  }

  /** Thread 0 is not accepted on its one valid vote, of two needed; thread 1 is, and both are stored. */
  lemma FirstPass()
    ensures Once().threads == [Judged(ORACLE, Split()), Judged(ORACLE, Single([OwnVote()]))]
    ensures Ready(Split()) && !NewlyAccepted(ORACLE, Split())
  {
    SplitRejected();
    SingleAccepted();
    BothStored(Pair(), Split(), Single([OwnVote()]));
  }

  lemma SecondPass()
    ensures NewlyAccepted(ORACLE, Once().threads[0])
    ensures Once().threads[0].workers == [A, B] && Once().threads[0].validations == Split().validations
    ensures Judged(ORACLE, Once().threads[0]).solution.value.frames[0].filename == FILE
    ensures Judged(ORACLE, Once().threads[0]).solution.value.frames[0].hash == GOOD
    ensures |Judged(ORACLE, Once().threads[0]).solution.value.frames| == 1
  {
    FirstPass();
    SplitTally(ShownFrames()[0]);
    OneFrameVerdict(Split());
    var th := Once().threads[0];
    SplitTally(th.solution.value.frames[0]);
    OneFrameVerdict(th);
  }

  /** In a run from genesis thread 0, which needs two votes for its frame, is accepted in the second block although only
      one of its two validations is valid, because thread 1 was accepted in the first. */
  lemma VoteCountedTwice()
    ensures var s := Run(ORACLE, Start(), BothVoted() + [Begin] + [Begin]);
            && TASK in s.tasks && |s.tasks[TASK].threads| == 2
            && var th := s.tasks[TASK].threads[0];
               && VotesNeeded(th.workers) == 2 && th.validations == [] + [By(A, WRONG)] + [By(B, GOOD)]
               && th.solution.Some? && th.solution.value.accepted && |th.solution.value.frames| == 1
               && Count(ORACLE, th.solution.value.frames[0], th.validations, Valid) == 1
  {
    BothVotedRun();
    ThenBegun(Scene2(), BothVoted(), Pair().threads, ASecond(), Once().threads);
    var next := NextScene(Scene2(), ASecond());
    var last := JudgedTask(ORACLE, next.task.(threads := Once().threads));
    ThenBegun(next, BothVoted() + [Begin], Once().threads, ASecond(), last.threads);
    SecondPass();
    StoredExactlyWhen(ORACLE, next.task.(threads := Once().threads), 0);
    SplitTally(last.threads[0].solution.value.frames[0]);
  }

  // ---- money ----

  const NOBODY: Text := [110]

  lemma StartBalanced()
    ensures Inv(Start()) && Balanced(Start(), 0)
  {
    assert Stakes(Start().workers) == map[] && OwedAll(Start().tasks) == map[];
  }

  lemma CreatedUnfunded(s: State)
    requires Inv(s) && Balanced(s, 0) && s.nextId == 1 && Balance(s, NOBODY) == 0
    ensures var s' := Step(ORACLE, s, Creating(NOBODY, 1, 1, 2));
            TASK in s'.tasks && s'.tasks[TASK].reward == 2 && s'.vault == s.vault && !Balanced(s', 0)
  {
    assert Itoa(1) == TASK;
    CreateBooks(ORACLE, s, Creating(NOBODY, 1, 1, 2).msg, 0);
  }

  lemma NobodyHasNothing()
    ensures Balance(Start(), NOBODY) == 0
  {
    assert NOBODY[0] != A[0] && NOBODY[0] != B[0] && NOBODY[0] != REQUESTER[0];
  }

  predicate RewardMissing(s: State) { TASK in s.tasks && s.tasks[TASK].reward == 2 && s.vault == 0 }

  lemma UnfundedStep()
    ensures var s := Step(ORACLE, Start(), Creating(NOBODY, 1, 1, 2));
            RewardMissing(s) && !Balanced(s, 0)
  {
    StartBalanced();
    NobodyHasNothing();
    CreatedUnfunded(Start());
  }

  /** A task created by an account without coins is stored, and its reward is missing from the books. */
  lemma UnfundedCreation()
    ensures var s := Run(ORACLE, Start(), [Creating(NOBODY, 1, 1, 2)]);
            RewardMissing(s) && !Balanced(s, 0)
  {
    UnfundedStep();
    RunOne(ORACLE, Start(), Creating(NOBODY, 1, 1, 2));
  }

  function Submitting(): Event { Tx(MsgSubmit(A, TASK, ThreadName(TASK, 0), [], 0)) }

  /** One thread, two stakes, a reward, v coins in the module account and w coins of recorded winnings. */
  ghost predicate Holding(s: State, th: Thread, reward: nat, v: nat, w: int) {
    && TASK in s.tasks && s.tasks[TASK].threads == [th] && s.tasks[TASK].reward == reward && s.vault == v
    && s.tasks.Keys == {TASK} && Stakes(s.workers) == map[][A := STAKE][B := STAKE] && Sum(Winnings(s.workers)) == w
  }

  lemma SettledTasks(s: State, m: Msg, th: Thread, after: Thread)
    requires TASK in s.tasks && s.tasks[TASK].threads == [th] && A in s.workers && Proposer(th, A)
    requires m.MsgSubmit? && m.creator == A && m.taskId == TASK && m.threadId == th.threadId && after == Settled(th, m)
    ensures ThreadIndex(s.tasks[TASK].threads, m.threadId) == 0 && Submit(s, m).Committed?
    ensures Submit(s, m).state.tasks == s.tasks[TASK := s.tasks[TASK].(threads := [after])]
  {
    PutOnly(th, after);
  }

  lemma SettledOnce(s: State, m: Msg, th: Thread, after: Thread, reward: nat, v: nat, w: int)
    requires Holding(s, th, reward, v, w) && Proposer(th, A)
    requires m.MsgSubmit? && m.creator == A && m.taskId == TASK && m.threadId == th.threadId && after == Settled(th, m)
    ensures Submit(s, m).Committed?
    ensures Holding(Submit(s, m).state, after, reward, if v < reward / 2 then v else v - reward / 2, w + reward / 2)
  {
    assert A in Stakes(s.workers);
    SettledTasks(s, m, th, after);
    SettledWorkers(s, m);
    WinnerRecorded(s, m, 0);
    SettledRest(s, m, 0);
  }

  /** A settlement by the proposer pays half the reward, the first time and every time after, unless the account holds
      less; the winnings grow anyway. */
  lemma ThenSettled(es: seq<Event>, th: Thread, reward: nat, v: nat, w: int)
    requires Holding(Run(ORACLE, Start(), es), th, reward, v, w)
    requires th.threadId == ThreadName(TASK, 0) && Proposer(th, A)
    ensures Holding(Run(ORACLE, Start(), es + [Submitting()]), Settled(th, Submitting().msg), reward,
                    if v < reward / 2 then v else v - reward / 2, w + reward / 2)
  {
    RunThen(ORACLE, Start(), es, Submitting());
    var m := Submitting().msg;
    SettledOnce(Run(ORACLE, Start(), es), m, th, Settled(th, m), reward, v, w);
  }

  lemma AskedAlone(reward: nat)
    requires reward <= FUNDS
    ensures Reaches(FirstScene(1, 1, reward), Asking(Setup(1, 1, reward)), [Asked()], Both())
  {
    SetUp(1, 1, reward, [Fresh(1, 0)]);
    AskedRun(FirstScene(1, 1, reward), Setup(1, 1, reward), [Fresh(1, 0)]);
    PutOnly(Fresh(1, 0), Asked());
  }

  lemma HeldStore(sc: Scene, th: Thread, ws: map<Text, Worker>)
    requires Stakes(ws) == map[][A := STAKE][B := STAKE]
    ensures Holding(Store(sc, [th], ws), th, sc.task.reward, sc.vault, Sum(Winnings(ws)))
  {
  }

  lemma AllHeld(reward: nat)
    requires reward <= FUNDS
    ensures Holding(Run(ORACLE, Start(), Asking(Setup(1, 1, reward))), Asked(), reward, 2 * STAKE + reward, 0)
  {
    AskedAlone(reward);
    BothOnly();
    HeldStore(FirstScene(1, 1, reward), Asked(), Both());
  }

  lemma BothOnly()
    ensures Stakes(Both()) == map[][A := STAKE][B := STAKE] && Sum(Winnings(Both())) == 0
  {
    assert A[0] != B[0];
    assert Stakes(Both()) == map[][A := STAKE][B := STAKE];
    assert Winnings(Both()) == map[][A := 0][B := 0];
    SumPut(map[][A := 0], B, 0);
    SumPut(map[], A, 0);
  }

  lemma StakesOfTwo()
    ensures Sum(map[][A := STAKE][B := STAKE]) == 2 * STAKE
  {
    assert A[0] != B[0];
    SumPut(map[][A := STAKE], B, STAKE);
    SumPut(map[], A, STAKE);
  }

  function Thrice(reward: nat): seq<Event> {
    Asking(Setup(1, 1, reward)) + [Submitting()] + [Submitting()] + [Submitting()]
  }

  /** In a run from genesis a proposer settles its thread three times, and the module account, which held every stake
      and the reward, no longer covers the stakes. */
  lemma StakesDrained()
    ensures var s := Run(ORACLE, Start(), Thrice(2));
            s.vault == 2 * STAKE - 1 && Sum(Stakes(s.workers)) == 2 * STAKE
  {
    var es, th, m := Asking(Setup(1, 1, 2)), Asked(), Submitting().msg;
    AllHeld(2);
    ThenSettled(es, th, 2, 2 * STAKE + 2, 0);
    ThenSettled(es + [Submitting()], Settled(th, m), 2, 2 * STAKE + 1, 1);
    ThenSettled(es + [Submitting()] + [Submitting()], Settled(Settled(th, m), m), 2, 2 * STAKE, 2);
    StakesOfTwo();
  }

  lemma OneReward(s: State, reward: nat)
    requires TASK in s.tasks && s.tasks.Keys == {TASK} && s.tasks[TASK].reward == reward
    ensures Sum(RewardsOf(s.tasks)) == reward
  {
    assert RewardsOf(s.tasks) == map[][TASK := reward];
    SumPut(map[], TASK, reward);
  }

  /** With a reward of eight stakes the third settlement cannot be paid. Its winnings are recorded all the same, and
      what left the account is no longer what the records say. */
  lemma UnpaidWinnings()
    ensures var before, after := Run(ORACLE, Start(), Asking(Setup(1, 1, FUNDS)) + [Submitting()] + [Submitting()]),
                                 Run(ORACLE, Start(), Thrice(FUNDS));
            && Conserved(before, 0) && !Conserved(after, 0) && after.vault == before.vault == 2 * STAKE
            && Sum(Winnings(after.workers)) == Sum(Winnings(before.workers)) + FUNDS / 2
  {
    var es, th, m := Asking(Setup(1, 1, FUNDS)), Asked(), Submitting().msg;
    AllHeld(FUNDS);
    ThenSettled(es, th, FUNDS, 10 * STAKE, 0);
    ThenSettled(es + [Submitting()], Settled(th, m), FUNDS, 6 * STAKE, 4 * STAKE);
    ThenSettled(es + [Submitting()] + [Submitting()], Settled(Settled(th, m), m), FUNDS, 2 * STAKE, 8 * STAKE);
    StakesOfTwo();
    OneReward(Run(ORACLE, Start(), es + [Submitting()] + [Submitting()]), FUNDS);
    OneReward(Run(ORACLE, Start(), Thrice(FUNDS)), FUNDS);
  }
}
