/** Conservation: what left the module account is what the workers' records say they won. */
module Conservation {
  import opened Records
  import opened Decimal
  import opened Rewards
  import opened Chain
  import opened Invariant
  import opened Escrow
  import opened Evaluation

  function RewardsOf(tasks: map<Text, Task>): map<Text, int> {
    map k | k in tasks :: tasks[k].reward
  }

  /** The module account and all recorded winnings together are `extra`, every stake and every reward. */
  ghost predicate Conserved(s: State, extra: int) {
    s.vault + Sum(Winnings(s.workers)) == extra + Sum(Stakes(s.workers)) + Sum(RewardsOf(s.tasks))
  }

  lemma SameRewards(a: map<Text, Task>, b: map<Text, Task>)
    requires a.Keys == b.Keys && forall k :: k in a ==> a[k].reward == b[k].reward
    ensures RewardsOf(a) == RewardsOf(b)
  {
  }

  lemma SameWinnings(a: map<Text, Worker>, b: map<Text, Worker>)
    requires a.Keys == b.Keys && forall x :: x in a ==> a[x].reputation == b[x].reputation
    ensures Winnings(a) == Winnings(b) && Stakes(a) == Stakes(b)
  {
  }

  lemma RewardPut(tasks: map<Text, Task>, k: Text, t: Task)
    ensures Sum(RewardsOf(tasks[k := t])) ==
            Sum(RewardsOf(tasks)) + t.reward - if k in tasks then tasks[k].reward else 0
  {
    assert RewardsOf(tasks[k := t]) == RewardsOf(tasks)[k := t.reward];
    SumPut(RewardsOf(tasks), k, t.reward);
  }

  /** Same vault, reputations and rewards. */
  predicate Quiet(s: State, s': State) {
    && s'.vault == s.vault && s'.workers.Keys == s.workers.Keys && s'.tasks.Keys == s.tasks.Keys
    && (forall a :: a in s.workers ==> s'.workers[a].reputation == s.workers[a].reputation)
    && (forall k :: k in s.tasks ==> s'.tasks[k].reward == s.tasks[k].reward)
  }

  lemma QuietConserves(s: State, s': State, extra: int)
    requires Conserved(s, extra) && Quiet(s, s')
    ensures Conserved(s', extra)
  {
    SameWinnings(s'.workers, s.workers);
    SameRewards(s'.tasks, s.tasks);
  }

  lemma SubscribeQuiet(s: State, m: Msg)
    requires Inv(s) && m.MsgSubscribe? && Subscribe(s, m).Committed?
    ensures Quiet(s, Subscribe(s, m).state)
  {
  }

  lemma ProposeQuiet(o: Oracle, s: State, m: Msg)
    requires m.MsgPropose? && Propose(o, s, m).Committed?
    ensures Quiet(s, Propose(o, s, m).state)
  {
  }

  lemma DiscloseQuiet(s: State, m: Msg)
    requires m.MsgReveal? && Disclose(s, m).Committed?
    ensures Quiet(s, Disclose(s, m).state)
  {
  }

  lemma ValidateQuiet(s: State, m: Msg)
    requires m.MsgValidate? && Validate(s, m).Committed?
    ensures Quiet(s, Validate(s, m).state)
  {
  }

  /** Creating a task conserves exactly when the reward is transferred, or is zero. */
  lemma CreateConserves(o: Oracle, s: State, m: Msg, extra: int)
    requires Inv(s) && Conserved(s, extra) && m.MsgCreateTask? && CreateTask(o, s, m).Committed?
    ensures Conserved(CreateTask(o, s, m).state, extra) <==>
            Balance(s, m.creator) >= m.reward.value || m.reward.value == 0
  {
    var id := Itoa(s.nextId);
    IdOf(s.nextId, s.nextId);
    assert id in s.tasks ==> TaskInv(s, id);
    RewardPut(s.tasks, id, NewTask(id, m));
  }

  lemma AddWorkerConserves(s: State, m: Msg, extra: int)
    requires Conserved(s, extra) && m.MsgAddWorker? && AddWorker(s, m).Committed?
    ensures Conserved(AddWorker(s, m).state, extra)
  {
    var w := NewWorker(m);
    WinningsPut(s.workers, m.creator, w);
    assert Stakes(s.workers[m.creator := w]) == Stakes(s.workers)[m.creator := m.stake];
    SumPut(Winnings(s.workers), m.creator, 0);
    SumPut(Stakes(s.workers), m.creator, m.stake);
  }

  /** The winner's record grows by the payment, whether or not it could be paid; no one else's record changes. */
  lemma WinnerRecorded(s: State, m: Msg, i: nat)
    requires m.MsgSubmit? && Submit(s, m).Committed? && i == ThreadIndex(s.tasks[m.taskId].threads, m.threadId)
    ensures var s', t := Submit(s, m).state, s.tasks[m.taskId];
            && Sum(Winnings(s'.workers)) == Sum(Winnings(s.workers)) + HalfShare(t.reward, |t.threads|)
            && forall a :: a in s.workers && a != m.creator ==> s'.workers[a].reputation == s.workers[a].reputation
  {
    var t := s.tasks[m.taskId];
    var payment := HalfShare(t.reward, |t.threads|);
    var released := Released(s, m.taskId, i, t.threads[i].workers);
    var w := Winner(released[m.creator], payment, m.averageRenderSeconds);
    SameWinnings(released, s.workers);
    WinningsPut(released, m.creator, w);
    SumPut(Winnings(released), m.creator, w.reputation.winnings);
    assert Submit(s, m).state.workers == released[m.creator := w];
  }

  lemma SettledRest(s: State, m: Msg, i: nat)
    requires m.MsgSubmit? && Submit(s, m).Committed? && i == ThreadIndex(s.tasks[m.taskId].threads, m.threadId)
    ensures var s', payment := Submit(s, m).state, HalfShare(s.tasks[m.taskId].reward, |s.tasks[m.taskId].threads|);
            && s'.vault == s.vault - (if s.vault < payment then 0 else payment)
            && RewardsOf(s'.tasks) == RewardsOf(s.tasks)
  {
    SameRewards(Submit(s, m).state.tasks, s.tasks);
  }

  /** A settlement, first or repeated, conserves exactly when the payment can be made, or is zero. */
  lemma SubmitConserves(s: State, m: Msg, extra: int, i: nat)
    requires Conserved(s, extra) && m.MsgSubmit? && Submit(s, m).Committed?
    requires i == ThreadIndex(s.tasks[m.taskId].threads, m.threadId)
    ensures var payment := HalfShare(s.tasks[m.taskId].reward, |s.tasks[m.taskId].threads|);
            Conserved(Submit(s, m).state, extra) <==> s.vault >= payment || payment == 0
  {
    WinnerRecorded(s, m, i);
    SettledWorkers(s, m);
    SettledRest(s, m, i);
  }

  lemma EndConserves(s: State, extra: int)
    requires Inv(s) && Conserved(s, extra)
    ensures Conserved(EndBlock(s), extra)
  {
    var swept := SweptTasks(s.tasks, s.nextId);
    SameRewards(swept, s.tasks);
    assert [] in s.tasks ==> TaskInv(s, []);
    RewardPut(swept, [], PHANTOM);
  }

  /** The transfers of a step succeed. */
  predicate Transferred(o: Oracle, s: State, e: Event) {
    e.Tx? && Handle(o, s, e.msg).Committed? ==>
      && (e.msg.MsgCreateTask? ==> Balance(s, e.msg.creator) >= e.msg.reward.value)
      && (e.msg.MsgSubmit? && e.msg.taskId in s.tasks && ThreadIndex(s.tasks[e.msg.taskId].threads, e.msg.threadId) >= 0 ==>
            s.vault >= HalfShare(s.tasks[e.msg.taskId].reward, |s.tasks[e.msg.taskId].threads|))
  }

  predicate TransferredRun(o: Oracle, s: State, es: seq<Event>)
    decreases |es|
  {
    es != [] ==> Transferred(o, s, es[0]) && TransferredRun(o, Step(o, s, es[0]), es[1..])
  }

  lemma HandleConserves(o: Oracle, s: State, m: Msg, extra: int)
    requires Inv(s) && Conserved(s, extra) && Transferred(o, s, Tx(m)) && Handle(o, s, m).Committed?
    ensures Conserved(Handle(o, s, m).state, extra)
  {
    match m
    case MsgCreateTask(_, _, _, _, _, _, _) => CreateConserves(o, s, m, extra);
    case MsgAddWorker(_, _, _, _, _) => AddWorkerConserves(s, m, extra);
    case MsgSubscribe(_, _, _) =>
      SubscribeQuiet(s, m);
      QuietConserves(s, Subscribe(s, m).state, extra);
    case MsgPropose(_, _, _, _, _) =>
      ProposeQuiet(o, s, m);
      QuietConserves(s, Propose(o, s, m).state, extra);
    case MsgReveal(_, _, _, _) =>
      DiscloseQuiet(s, m);
      QuietConserves(s, Disclose(s, m).state, extra);
    case MsgValidate(_, _, _, _, _) =>
      ValidateQuiet(s, m);
      QuietConserves(s, Validate(s, m).state, extra);
    case MsgSubmit(_, _, _, _, _) =>
      var i := ThreadIndex(s.tasks[m.taskId].threads, m.threadId);
      if i >= 0 {
        SubmitConserves(s, m, extra, i);
      }
  }

  lemma StepConserves(o: Oracle, s: State, e: Event, extra: int)
    requires Inv(s) && Conserved(s, extra) && Transferred(o, s, e)
    ensures Conserved(Step(o, s, e), extra)
  {
    match e
    case Tx(m) =>
      if Handle(o, s, m).Committed? {
        HandleConserves(o, s, m, extra);
      }
    case Begin => QuietConserves(s, BeginBlock(o, s), extra);
    case End => EndConserves(s, extra);
    case External(_, _) =>
  }

  lemma {:induction false} RunConserves(o: Oracle, s: State, es: seq<Event>, extra: int)
    requires Inv(s) && Conserved(s, extra) && TransferredRun(o, s, es)
    ensures Conserved(Run(o, s, es), extra)
    decreases |es|
  {
    if es != [] {
      StepConserves(o, s, es[0], extra);
      StepKeepsInv(o, s, es[0]);
      RunConserves(o, Step(o, s, es[0]), es[1..], extra);
    }
  }

  /** Main result: in every run from genesis whose transfers succeed, even one that settles a thread repeatedly, the
      module account holds its genesis balance plus all stakes plus all rewards minus all recorded winnings. */
  lemma WinningsArePayments(o: Oracle, genesis: State, es: seq<Event>)
    requires Genesis(genesis) && TransferredRun(o, genesis, es)
    ensures Conserved(Run(o, genesis, es), genesis.vault)
  {
    assert Winnings(genesis.workers) == map[] && Stakes(genesis.workers) == map[] && RewardsOf(genesis.tasks) == map[];
    ReachableInv(o, genesis, []);
    RunConserves(o, genesis, es, genesis.vault);
  }
}
