/** Whose money it is: the law every single account obeys along a run. */
module Accounts {
  import opened Records
  import opened Decimal
  import opened Rewards
  import opened Chain
  import opened Invariant
  import opened Escrow
  import opened Conservation
  import opened Effects

  function Staked(s: State, a: Text): int { if a in s.workers then s.workers[a].reputation.staked else 0 }

  function Won(s: State, a: Text): int { if a in s.workers then s.workers[a].reputation.winnings else 0 }

  function RewardsBy(tasks: map<Text, Task>, a: Text): map<Text, int> {
    map k | k in tasks :: if tasks[k].requester == a then tasks[k].reward else 0
  }

  /** The rewards of all the tasks a has requested. */
  ghost function Requested(s: State, a: Text): int { Sum(RewardsBy(s.tasks, a)) }

  /** What a holds, has staked and has offered as rewards, less what it has won. */
  ghost function Worth(s: State, a: Text): int { Balance(s, a) + Staked(s, a) + Requested(s, a) - Won(s, a) }

  lemma RequestedPut(tasks: map<Text, Task>, k: Text, t: Task, a: Text)
    requires k !in tasks
    ensures Sum(RewardsBy(tasks[k := t], a)) == Sum(RewardsBy(tasks, a)) + if t.requester == a then t.reward else 0
  {
    var r := if t.requester == a then t.reward else 0;
    assert RewardsBy(tasks[k := t], a) == RewardsBy(tasks, a)[k := r];
    SumPut(RewardsBy(tasks, a), k, r);
  }

  lemma SameRequested(x: map<Text, Task>, y: map<Text, Task>, a: Text)
    requires x.Keys == y.Keys && forall k :: k in x ==> x[k].reward == y[k].reward && x[k].requester == y[k].requester
    ensures RewardsBy(x, a) == RewardsBy(y, a)
  {
  }

  /** A task whose reward could not be moved has been offered all the same. */
  lemma CreateWorth(o: Oracle, s: State, m: Msg, a: Text)
    requires Inv(s) && m.MsgCreateTask? && Handle(o, s, m).Committed?
    ensures Worth(Handle(o, s, m).state, a) ==
            Worth(s, a) + if a == m.creator && Balance(s, a) < m.reward.value then m.reward.value else 0
  {
    CreateEffect(o, s, m);
    var s', id := Handle(o, s, m).state, Itoa(s.nextId);
    assert s'.tasks == s.tasks[id := s'.tasks[id]];
    RequestedPut(s.tasks, id, s'.tasks[id], a);
  }

  lemma AddWorkerWorth(o: Oracle, s: State, m: Msg, a: Text)
    requires m.MsgAddWorker? && Handle(o, s, m).Committed?
    ensures Worth(Handle(o, s, m).state, a) == Worth(s, a)
  {
    AddWorkerCommits(o, s, m);
    AddWorkerEffect(o, s, m);
  }

  lemma ThreadRequested(s: State, s': State, k: Text, i: nat, a: Text)
    requires OnlyThread(s, s', k, i)
    ensures Requested(s', a) == Requested(s, a)
  {
    SameRequested(s'.tasks, s.tasks, a);
  }

  /** A payment that could not be made has been won all the same. */
  lemma SubmitWorth(o: Oracle, s: State, m: Msg, i: nat, a: Text)
    requires Inv(s) && m.MsgSubmit? && Handle(o, s, m).Committed? && Named(s, m.taskId, i, m.threadId)
    ensures var payment := HalfShare(s.tasks[m.taskId].reward, |s.tasks[m.taskId].threads|);
            Worth(Handle(o, s, m).state, a) == Worth(s, a) - if a == m.creator && s.vault < payment then payment else 0
  {
    var s' := Handle(o, s, m).state;
    SettledStore(s, m, i);
    SettledPeople(s, m, i);
    ThreadRequested(s, s', m.taskId, i, a);
  }

  /** Nothing an account's worth depends on has changed. */
  predicate Same(s: State, s': State) {
    && s'.accounts == s.accounts && s'.workers.Keys == s.workers.Keys && s'.tasks.Keys == s.tasks.Keys
    && (forall a :: a in s.workers ==> s'.workers[a].reputation == s.workers[a].reputation)
    && forall k :: k in s.tasks ==>
         s'.tasks[k].reward == s.tasks[k].reward && s'.tasks[k].requester == s.tasks[k].requester
  }

  lemma SameWorth(s: State, s': State, a: Text)
    requires Same(s, s')
    ensures Worth(s', a) == Worth(s, a)
  {
    SameRequested(s'.tasks, s.tasks, a);
  }

  lemma SubscribeSame(o: Oracle, s: State, m: Msg)
    requires Inv(s) && m.MsgSubscribe? && Handle(o, s, m).Committed?
    ensures Same(s, Handle(o, s, m).state)
  {
    SubscribeEffect(o, s, m);
    if i: nat :| Joins(s, m, i) {
      SubscribeCommits(o, s, m);
      assert HasJoined(s, Handle(o, s, m).state, m, i);
    }
  }

  lemma ProposeSame(o: Oracle, s: State, m: Msg)
    requires Inv(s) && m.MsgPropose? && Handle(o, s, m).Committed?
    ensures Same(s, Handle(o, s, m).state)
  {
    ProposeEffect(o, s, m);
    if i: nat :| Named(s, m.taskId, i, m.threadId) {
      assert OnlyThread(s, Handle(o, s, m).state, m.taskId, i);
    }
  }

  lemma QuietSame(o: Oracle, s: State, m: Msg)
    requires Inv(s) && Handle(o, s, m).Committed?
    requires m.MsgSubscribe? || m.MsgPropose? || m.MsgReveal? || m.MsgValidate?
    ensures Same(s, Handle(o, s, m).state)
  {
    match m
    case MsgSubscribe(_, _, _) => SubscribeSame(o, s, m);
    case MsgPropose(_, _, _, _, _) => ProposeSame(o, s, m);
    case MsgReveal(_, _, _, _) => RevealEffect(o, s, m);
    case MsgValidate(_, _, _, _, _) => ValidateEffect(o, s, m);
    case _ =>
  }

  lemma SettleWorth(o: Oracle, s: State, m: Msg, a: Text)
    requires Inv(s) && m.MsgSubmit? && Transferred(o, s, Tx(m)) && Handle(o, s, m).Committed?
    ensures Worth(Handle(o, s, m).state, a) == Worth(s, a)
  {
    var i := ThreadIndex(s.tasks[m.taskId].threads, m.threadId);
    if i >= 0 {
      SubmitWorth(o, s, m, i, a);
    } else {
      FoundThread(s, m.taskId, m.threadId);
      SubmitNothing(o, s, m);
    }
  }

  lemma HandleWorth(o: Oracle, s: State, m: Msg, a: Text)
    requires Inv(s) && Transferred(o, s, Tx(m)) && Handle(o, s, m).Committed?
    ensures Worth(Handle(o, s, m).state, a) == Worth(s, a)
  {
    match m
    case MsgCreateTask(_, _, _, _, _, _, _) => CreateWorth(o, s, m, a);
    case MsgAddWorker(_, _, _, _, _) => AddWorkerWorth(o, s, m, a);
    case MsgSubmit(_, _, _, _, _) => SettleWorth(o, s, m, a);
    case _ =>
      QuietSame(o, s, m);
      SameWorth(s, Handle(o, s, m).state, a);
  }

  lemma EndWorth(s: State, a: Text)
    requires Inv(s)
    ensures Worth(EndBlock(s), a) == Worth(s, a)
  {
    var swept := SweptTasks(s.tasks, s.nextId);
    SameRequested(swept, s.tasks, a);
    assert [] in s.tasks ==> TaskInv(s, []);
    if Hole(s.tasks, s.nextId) && [] !in s.tasks {
      RequestedPut(swept, [], PHANTOM, a);
    } else if Hole(s.tasks, s.nextId) {
      assert swept[[] := PHANTOM] == swept;
    }
  }

  lemma BeginWorth(o: Oracle, s: State, a: Text)
    ensures Worth(BeginBlock(o, s), a) == Worth(s, a)
  {
    SameWorth(s, BeginBlock(o, s), a);
  }

  /** What outside bank activity does to a's balance. */
  function Outside(s: State, e: Event, a: Text): int {
    if e.External? && e.account == a then e.balance - Balance(s, a) else 0
  }

  lemma StepWorth(o: Oracle, s: State, e: Event, a: Text)
    requires Inv(s) && Transferred(o, s, e)
    ensures Worth(Step(o, s, e), a) == Worth(s, a) + Outside(s, e, a)
  {
    match e
    case Tx(m) =>
      if Handle(o, s, m).Committed? {
        HandleWorth(o, s, m, a);
      }
    case Begin => BeginWorth(o, s, a);
    case End => EndWorth(s, a);
    case External(_, _) =>
  }

  function OutsideAll(o: Oracle, s: State, es: seq<Event>, a: Text): int
    decreases |es|
  {
    if es == [] then 0 else Outside(s, es[0], a) + OutsideAll(o, Step(o, s, es[0]), es[1..], a)
  }

  lemma {:induction false} RunWorth(o: Oracle, s: State, es: seq<Event>, a: Text)
    requires Inv(s) && TransferredRun(o, s, es)
    ensures Worth(Run(o, s, es), a) == Worth(s, a) + OutsideAll(o, s, es, a)
    decreases |es|
  {
    if es != [] {
      StepWorth(o, s, es[0], a);
      StepKeepsInv(o, s, es[0]);
      RunWorth(o, Step(o, s, es[0]), es[1..], a);
    }
  }

  /** Main result: in every run from genesis whose transfers succeed, each account's balance, its stake and the rewards
      of the tasks it requested are together what it had at genesis, what it was given or lost outside the module, and
      what is recorded as its winnings. */
  lemma EveryAccountBalances(o: Oracle, genesis: State, es: seq<Event>, a: Text)
    requires Genesis(genesis) && TransferredRun(o, genesis, es)
    ensures var s := Run(o, genesis, es);
            Balance(s, a) + Staked(s, a) + Requested(s, a) ==
            Balance(genesis, a) + OutsideAll(o, genesis, es, a) + Won(s, a)
  {
    ReachableInv(o, genesis, []);
    RunWorth(o, genesis, es, a);
    assert RewardsBy(genesis.tasks, a) == map[];
  }

  /** Without outside activity nothing comes from there. */
  lemma {:induction false} NothingOutside(o: Oracle, s: State, es: seq<Event>, a: Text)
    requires forall e :: e in es ==> !e.External?
    ensures OutsideAll(o, s, es, a) == 0
    decreases |es|
  {
    if es != [] {
      assert es[0] in es;
      NothingOutside(o, Step(o, s, es[0]), es[1..], a);
    }
  }
}
