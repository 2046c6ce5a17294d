/** What the module account holds: stakes, plus rewards, minus winner payments. */
module Escrow {
  import opened Records
  import opened Decimal
  import opened Rewards
  import opened Chain
  import opened Invariant

  // ---- sums over maps ----

  ghost function Sum(m: map<Text, int>): int {
    if m == map[] then 0
    else
      var k :| k in m;
      m[k] + Sum(m - {k})
  }

  lemma {:induction false} SumRemove(m: map<Text, int>, k: Text)
    requires k in m
    ensures Sum(m) == m[k] + Sum(m - {k})
  {
    var j :| j in m && Sum(m) == m[j] + Sum(m - {j});
    if j != k {
      SumRemove(m - {j}, k);
      SumRemove(m - {k}, j);
      assert m - {j} - {k} == m - {k} - {j};
    }
  }

  lemma SumPut(m: map<Text, int>, k: Text, v: int)
    ensures Sum(m[k := v]) == Sum(m) + v - if k in m then m[k] else 0
  {
    SumRemove(m[k := v], k);
    assert m[k := v] - {k} == m - {k};
    if k in m {
      SumRemove(m, k);
    } else {
      assert m - {k} == m;
    }
  }

  lemma {:induction false} SumNonNegative(m: map<Text, int>)
    requires forall k :: k in m ==> m[k] >= 0
    ensures Sum(m) >= 0
    ensures forall k :: k in m ==> m[k] <= Sum(m)
  {
    forall k | k in m
      ensures 0 <= Sum(m - {k}) && m[k] <= Sum(m)
    {
      SumNonNegative(m - {k});
      SumRemove(m, k);
    }
    if m != map[] {
      var k :| k in m;
      SumRemove(m, k);
    }
  }

  // ---- the books ----

  function Stakes(workers: map<Text, Worker>): map<Text, int> {
    map a | a in workers :: workers[a].reputation.staked
  }

  function CompletedCount(ts: seq<Thread>): nat {
    if ts == [] then 0
    else CompletedCount(ts[..|ts| - 1]) + if ts[|ts| - 1].completed then 1 else 0
  }

  /** A task's reward less one winner payment per completed thread. */
  function Owed(t: Task): int {
    if t.threads == [] then t.reward
    else t.reward - CompletedCount(t.threads) * HalfShare(t.reward, |t.threads|)
  }

  function OwedAll(tasks: map<Text, Task>): map<Text, int> {
    map k | k in tasks :: Owed(tasks[k])
  }

  /** The module account holds `extra` (what it held at genesis), every stake, and what every task is still owed. */
  ghost predicate Balanced(s: State, extra: nat) {
    s.vault == extra + Sum(Stakes(s.workers)) + Sum(OwedAll(s.tasks))
  }

  lemma {:induction false} CompletedAtMost(ts: seq<Thread>)
    ensures CompletedCount(ts) <= |ts|
    ensures CompletedCount(ts) == |ts| <==> forall th :: th in ts ==> th.completed
  {
    if ts != [] {
      CompletedAtMost(ts[..|ts| - 1]);
      assert forall th :: th in ts <==> th in ts[..|ts| - 1] || th == ts[|ts| - 1];
    }
  }

  lemma {:induction false} CompletedUpdate(ts: seq<Thread>, i: nat, th: Thread)
    requires i < |ts|
    ensures CompletedCount(ts[i := th]) ==
            CompletedCount(ts) + (if th.completed then 1 else 0) - if ts[i].completed then 1 else 0
  {
    var n := |ts| - 1;
    if i == n {
      assert ts[i := th][..n] == ts[..n];
    } else {
      assert ts[i := th][..n] == ts[..n][i := th];
      CompletedUpdate(ts[..n], i, th);
    }
  }

  lemma {:induction false} CompletedSame(a: seq<Thread>, b: seq<Thread>)
    requires |a| == |b| && forall i :: 0 <= i < |a| ==> a[i].completed == b[i].completed
    ensures CompletedCount(a) == CompletedCount(b)
  {
    if a != [] {
      CompletedSame(a[..|a| - 1], b[..|b| - 1]);
    }
  }

  lemma RemainingBounds(reward: nat, share: nat, n: nat, done: nat)
    requires n * share <= reward && done <= n
    ensures reward - done * share >= 0
    ensures done < n ==> reward - done * share >= share
  {
    assert n * share == done * share + (n - done) * share;
    if done < n {
      assert (n - done) * share == (n - done - 1) * share + share;
      assert (n - done - 1) * share >= 0;
    }
  }

  /** Winners never exhaust a reward; while a thread is open its payment is still there. */
  lemma OwedBounds(t: Task)
    ensures Owed(t) >= 0
    ensures t.threads != [] && !AllDone(t) ==> Owed(t) >= HalfShare(t.reward, |t.threads|)
  {
    if t.threads != [] {
      CompletedAtMost(t.threads);
      PoolBounds(t.reward, |t.threads|);
      RemainingBounds(t.reward, HalfShare(t.reward, |t.threads|), |t.threads|, CompletedCount(t.threads));
    }
  }

  lemma OwedNonNegative(tasks: map<Text, Task>)
    ensures Sum(OwedAll(tasks)) >= 0
    ensures forall k :: k in tasks ==> Owed(tasks[k]) <= Sum(OwedAll(tasks))
  {
    forall k | k in OwedAll(tasks)
      ensures OwedAll(tasks)[k] >= 0
    {
      OwedBounds(tasks[k]);
    }
    SumNonNegative(OwedAll(tasks));
    assert forall k :: k in tasks ==> k in OwedAll(tasks) && OwedAll(tasks)[k] == Owed(tasks[k]);
  }

  lemma StakesNonNegative(workers: map<Text, Worker>)
    ensures Sum(Stakes(workers)) >= 0
  {
    SumNonNegative(Stakes(workers));
  }

  // ---- what each step does to the books ----

  lemma SameStakes(a: map<Text, Worker>, b: map<Text, Worker>)
    requires a.Keys == b.Keys && forall k :: k in a ==> a[k].reputation.staked == b[k].reputation.staked
    ensures Stakes(a) == Stakes(b)
  {
    assert forall k :: k in a <==> k in a.Keys;
    assert forall k :: k in b <==> k in b.Keys;
  }

  lemma SameOwed(a: map<Text, Task>, b: map<Text, Task>)
    requires a.Keys == b.Keys && forall k :: k in a ==> Owed(a[k]) == Owed(b[k])
    ensures OwedAll(a) == OwedAll(b)
  {
    assert forall k :: k in a <==> k in a.Keys;
    assert forall k :: k in b <==> k in b.Keys;
  }

  lemma ThreadPut(s: State, k: Text, i: nat, th: Thread)
    requires k in s.tasks && i < |s.tasks[k].threads| && th.completed == s.tasks[k].threads[i].completed
    ensures OwedAll(PutThread(s, k, i, th).tasks) == OwedAll(s.tasks)
  {
    CompletedUpdate(s.tasks[k].threads, i, th);
    SameOwed(PutThread(s, k, i, th).tasks, s.tasks);
  }

  lemma TaskPut(tasks: map<Text, Task>, k: Text, t: Task)
    ensures Sum(OwedAll(tasks[k := t])) == Sum(OwedAll(tasks)) + Owed(t) - if k in tasks then Owed(tasks[k]) else 0
  {
    assert OwedAll(tasks[k := t]) == OwedAll(tasks)[k := Owed(t)];
    SumPut(OwedAll(tasks), k, Owed(t));
  }

  lemma {:induction false} NothingCompleted(ts: seq<Thread>)
    requires forall i :: 0 <= i < |ts| ==> !ts[i].completed
    ensures CompletedCount(ts) == 0
  {
    if ts != [] {
      NothingCompleted(ts[..|ts| - 1]);
    }
  }

  /** Creating a task keeps the books exactly when the reward is transferred, or there is none. */
  lemma CreateBooks(o: Oracle, s: State, m: Msg, extra: nat)
    requires Inv(s) && Balanced(s, extra) && m.MsgCreateTask? && CreateTask(o, s, m).Committed?
    ensures Balanced(CreateTask(o, s, m).state, extra) <==>
            Balance(s, m.creator) >= m.reward.value || m.reward.value == 0
  {
    var id, t := Itoa(s.nextId), NewTask(Itoa(s.nextId), m);
    IdOf(s.nextId, s.nextId);
    assert id in s.tasks ==> TaskInv(s, id);
    NothingCompleted(t.threads);
    assert Owed(t) == m.reward.value;
    TaskPut(s.tasks, id, t);
  }

  lemma AddWorkerBooks(s: State, m: Msg, extra: nat)
    requires Balanced(s, extra) && m.MsgAddWorker? && AddWorker(s, m).Committed?
    ensures Balanced(AddWorker(s, m).state, extra)
  {
    var s' := AddWorker(s, m).state;
    assert Stakes(s'.workers) == Stakes(s.workers)[m.creator := m.stake];
    SumPut(Stakes(s.workers), m.creator, m.stake);
  }

  lemma SettledWorkers(s: State, m: Msg)
    requires m.MsgSubmit? && Submit(s, m).Committed?
    ensures Stakes(Submit(s, m).state.workers) == Stakes(s.workers)
  {
    var s' := Submit(s, m).state;
    assert s'.workers.Keys == s.workers.Keys;
    SameStakes(s'.workers, s.workers);
  }

  /** What a task is owed drops by one payment when a thread becomes completed. */
  lemma OwedUpdate(t: Task, i: nat, th: Thread)
    requires i < |t.threads| && (t.threads[i].completed ==> th.completed)
    ensures Owed(t.(threads := t.threads[i := th])) ==
            Owed(t) - if th.completed && !t.threads[i].completed then HalfShare(t.reward, |t.threads|) else 0
  {
    CompletedUpdate(t.threads, i, th);
    var done, share := CompletedCount(t.threads), HalfShare(t.reward, |t.threads|);
    assert (done + 1) * share == done * share + share;
  }

  lemma SettledTask(s: State, m: Msg, i: nat)
    requires m.MsgSubmit? && Submit(s, m).Committed? && m.taskId in s.tasks
    requires i == ThreadIndex(s.tasks[m.taskId].threads, m.threadId)
    ensures var s', t := Submit(s, m).state, s.tasks[m.taskId];
            Sum(OwedAll(s'.tasks)) ==
            Sum(OwedAll(s.tasks)) - if t.threads[i].completed then 0 else HalfShare(t.reward, |t.threads|)
  {
    var t := s.tasks[m.taskId];
    var th := Settled(t.threads[i], m);
    var t' := t.(threads := t.threads[i := th]);
    assert Submit(s, m).state.tasks == s.tasks[m.taskId := t'];
    OwedUpdate(t, i, th);
    TaskPut(s.tasks, m.taskId, t');
  }

  /** Settling a thread keeps the books exactly when it was not settled before, or the payment is zero or fails. */
  lemma SubmitBooks(s: State, m: Msg, extra: nat, i: nat)
    requires Inv(s) && Balanced(s, extra) && m.MsgSubmit? && Submit(s, m).Committed?
    requires i == ThreadIndex(s.tasks[m.taskId].threads, m.threadId)
    ensures var t := s.tasks[m.taskId];
            var payment := HalfShare(t.reward, |t.threads|);
            && (!t.threads[i].completed ==> s.vault >= payment)
            && (Balanced(Submit(s, m).state, extra) <==>
                !t.threads[i].completed || payment == 0 || s.vault < payment)
  {
    var t := s.tasks[m.taskId];
    SettledWorkers(s, m);
    SettledTask(s, m, i);
    OwedNonNegative(s.tasks);
    StakesNonNegative(s.workers);
    OwedBounds(t);
    assert t.threads[i] in t.threads;
  }

  /** A second settlement of the same thread is accepted and pays again out of the other claims on the account. */
  lemma ResettlementDrains(s: State, m: Msg, i: nat)
    requires Inv(s) && m.MsgSubmit? && m.taskId in s.tasks && i < |s.tasks[m.taskId].threads|
    requires s.tasks[m.taskId].threads[i].threadId == m.threadId && s.tasks[m.taskId].threads[i].completed
    requires Proposer(s.tasks[m.taskId].threads[i], m.creator)
    requires s.vault >= HalfShare(s.tasks[m.taskId].reward, |s.tasks[m.taskId].threads|)
    ensures Submit(s, m).Committed?
    ensures var s' := Submit(s, m).state;
            && s'.vault == s.vault - HalfShare(s.tasks[m.taskId].reward, |s.tasks[m.taskId].threads|)
            && Sum(Stakes(s'.workers)) + Sum(OwedAll(s'.tasks)) == Sum(Stakes(s.workers)) + Sum(OwedAll(s.tasks))
  {
    assert TaskInv(s, m.taskId);
    UniqueThread(s, m.taskId, i);
    assert ThreadInv(s.tasks[m.taskId].threads[i], m.taskId, i, s.params.maxWorkersPerThread, s.workers.Keys);
    SettledWorkers(s, m);
    SettledTask(s, m, i);
  }

  lemma BeginBooks(o: Oracle, s: State, extra: nat)
    requires Balanced(s, extra)
    ensures Balanced(BeginBlock(o, s), extra)
  {
    var tasks' := BeginBlock(o, s).tasks;
    forall k | k in s.tasks
      ensures Owed(tasks'[k]) == Owed(s.tasks[k])
    {
      CompletedSame(tasks'[k].threads, s.tasks[k].threads);
    }
    SameOwed(tasks', s.tasks);
  }

  lemma SweptBooks(s: State)
    requires Inv(s)
    ensures Sum(OwedAll(SweptTasks(s.tasks, s.nextId))) == Sum(OwedAll(s.tasks))
    ensures [] in SweptTasks(s.tasks, s.nextId) ==> Owed(SweptTasks(s.tasks, s.nextId)[[]]) == 0
  {
    SameOwed(SweptTasks(s.tasks, s.nextId), s.tasks);
    if [] in s.tasks {
      assert TaskInv(s, []);
    }
  }

  lemma EndBooks(s: State, extra: nat)
    requires Inv(s) && Balanced(s, extra)
    ensures Balanced(EndBlock(s), extra)
  {
    SweptBooks(s);
    TaskPut(SweptTasks(s.tasks, s.nextId), [], PHANTOM);
  }

  /** A step that changes one thread without completing it, and no stake, keeps the books. */
  lemma OneThreadBooks(s: State, s': State, k: Text, i: nat, th: Thread, extra: nat)
    requires Balanced(s, extra) && s'.vault == s.vault
    requires k in s.tasks && i < |s.tasks[k].threads| && th.completed == s.tasks[k].threads[i].completed
    requires s'.tasks == PutThread(s, k, i, th).tasks
    requires s'.workers.Keys == s.workers.Keys
    requires forall a :: a in s.workers ==> s'.workers[a].reputation.staked == s.workers[a].reputation.staked
    ensures Balanced(s', extra)
  {
    ThreadPut(s, k, i, th);
    SameStakes(s'.workers, s.workers);
  }

  // ---- runs ----

  /** The reward of a created task is transferred, and a settled thread was not settled before. */
  predicate Funded(o: Oracle, s: State, e: Event) {
    e.Tx? && Handle(o, s, e.msg).Committed? ==>
      && (e.msg.MsgCreateTask? ==> Balance(s, e.msg.creator) >= e.msg.reward.value)
      && (e.msg.MsgSubmit? && e.msg.taskId in s.tasks ==>
            var ts := s.tasks[e.msg.taskId].threads;
            var i := ThreadIndex(ts, e.msg.threadId);
            i >= 0 ==> !ts[i].completed)
  }

  predicate FundedRun(o: Oracle, s: State, es: seq<Event>)
    decreases |es|
  {
    es != [] ==> Funded(o, s, es[0]) && FundedRun(o, Step(o, s, es[0]), es[1..])
  }

  lemma SubscribeBooks(s: State, m: Msg, extra: nat)
    requires Balanced(s, extra) && m.MsgSubscribe? && Subscribe(s, m).Committed?
    ensures Balanced(Subscribe(s, m).state, extra)
  {
    var s' := Subscribe(s, m).state;
    if s' != s {
      var i := ThreadIndex(s.tasks[m.taskId].threads, m.threadId);
      assert s'.workers.Keys == s.workers.Keys;
      OneThreadBooks(s, s', m.taskId, i, s'.tasks[m.taskId].threads[i], extra);
    }
  }

  lemma ProposeBooks(o: Oracle, s: State, m: Msg, extra: nat)
    requires Balanced(s, extra) && m.MsgPropose? && Propose(o, s, m).Committed?
    ensures Balanced(Propose(o, s, m).state, extra)
  {
    var s' := Propose(o, s, m).state;
    var i := ThreadIndex(s.tasks[m.taskId].threads, m.threadId);
    if i >= 0 {
      OneThreadBooks(s, s', m.taskId, i, s'.tasks[m.taskId].threads[i], extra);
    }
  }

  lemma DiscloseBooks(s: State, m: Msg, extra: nat)
    requires Balanced(s, extra) && m.MsgReveal? && Disclose(s, m).Committed?
    ensures Balanced(Disclose(s, m).state, extra)
  {
    var s', i := Disclose(s, m).state, s.workers[m.creator].currentThreadIndex;
    OneThreadBooks(s, s', m.taskId, i, s'.tasks[m.taskId].threads[i], extra);
  }

  lemma ValidateBooks(s: State, m: Msg, extra: nat)
    requires Balanced(s, extra) && m.MsgValidate? && Validate(s, m).Committed?
    ensures Balanced(Validate(s, m).state, extra)
  {
    var s', i := Validate(s, m).state, s.workers[m.creator].currentThreadIndex;
    assert s'.workers.Keys == s.workers.Keys;
    OneThreadBooks(s, s', m.taskId, i, s'.tasks[m.taskId].threads[i], extra);
  }

  lemma HandleBooks(o: Oracle, s: State, m: Msg, extra: nat)
    requires Inv(s) && Balanced(s, extra) && Handle(o, s, m).Committed? && Funded(o, s, Tx(m))
    ensures Balanced(Handle(o, s, m).state, extra)
  {
    match m
    case MsgCreateTask(_, _, _, _, _, _, _) => CreateBooks(o, s, m, extra);
    case MsgAddWorker(_, _, _, _, _) => AddWorkerBooks(s, m, extra);
    case MsgSubscribe(_, _, _) => SubscribeBooks(s, m, extra);
    case MsgPropose(_, _, _, _, _) => ProposeBooks(o, s, m, extra);
    case MsgReveal(_, _, _, _) => DiscloseBooks(s, m, extra);
    case MsgValidate(_, _, _, _, _) => ValidateBooks(s, m, extra);
    case MsgSubmit(_, _, _, _, _) =>
      var i := ThreadIndex(s.tasks[m.taskId].threads, m.threadId);
      if i >= 0 {
        SubmitBooks(s, m, extra, i);
      }
  }

  lemma {:induction false} BooksBalance(o: Oracle, s: State, es: seq<Event>, extra: nat)
    requires Inv(s) && Balanced(s, extra) && FundedRun(o, s, es)
    ensures Balanced(Run(o, s, es), extra)
    decreases |es|
  {
    if es != [] {
      match es[0] {
        case Tx(m) =>
          if Handle(o, s, m).Committed? {
            HandleBooks(o, s, m, extra);
          }
        case External(_, _) =>
        case Begin => BeginBooks(o, s, extra);
        case End => EndBooks(s, extra);
      }
      StepKeepsInv(o, s, es[0]);
      BooksBalance(o, Step(o, s, es[0]), es[1..], extra);
    }
  }

  /** In every run from genesis whose funding transfers succeed and which settles each thread at most once, the module
      account holds its genesis balance plus all stakes plus all rewards minus the winner payments made, and never
      less than the sum of the stakes. */
  lemma EscrowSolvent(o: Oracle, genesis: State, es: seq<Event>)
    requires Genesis(genesis) && FundedRun(o, genesis, es)
    ensures Balanced(Run(o, genesis, es), genesis.vault)
    ensures Run(o, genesis, es).vault >= Sum(Stakes(Run(o, genesis, es).workers))
  {
    assert Stakes(genesis.workers) == map[] && OwedAll(genesis.tasks) == map[];
    BooksBalance(o, genesis, es, genesis.vault);
    OwedNonNegative(Run(o, genesis, es).tasks);
  }
}
