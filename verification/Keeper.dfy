/** The message server and the block hooks over the module's store, as they read, change and write it back. */
module KeeperModule {
  import opened Records
  import opened Decimal
  import opened FrameSplit
  import opened Rewards
  import opened CliFormat
  import opened Tally
  import opened Reveal
  import opened Chain
  import opened Invariant
  import opened Hooks
  import opened Evaluation

  /** ProposeSolution and SubmitValidation read key=value lines; indexing the missing part of a line panics. */
  method ParseSignatures(lines: seq<Text>) returns (frames: Option<seq<Frame>>)
    ensures frames == ProposedFrames(lines)
  {
    var fs: seq<Frame> := [];
    for i := 0 to |lines|
      invariant ProposedFrames(lines[..i]) == Some(fs)
    {
      assert lines[..i + 1][..i] == lines[..i];
      match Cut(lines[i], EQUALS) {
        case None =>
          ParsingStops(lines, i + 1);
          return None;
        case Some((name, signature)) =>
          fs := fs + [Frame(name, signature, [], [], 0, 0)];
      }
    }
    assert lines[..|lines|] == lines;
    return Some(fs);
  }

  lemma {:induction false} ParsingStops(lines: seq<Text>, n: nat)
    requires n <= |lines| && ProposedFrames(lines[..n]).None?
    ensures ProposedFrames(lines).None?
    decreases |lines| - n
  {
    if n < |lines| {
      assert lines[..n + 1][..n] == lines[..n];
      ParsingStops(lines, n + 1);
    } else {
      assert lines[..n] == lines;
    }
  }

  lemma ProposerRegistered(s: State, k: Text, i: nat)
    requires Inv(s) && k in s.tasks && i < |s.tasks[k].threads|
    ensures forall a :: a in s.tasks[k].threads[i].workers ==> a in s.workers
    ensures forall a :: Proposer(s.tasks[k].threads[i], a) ==> a in s.workers
  {
    assert TaskInv(s, k);
    assert ThreadInv(s.tasks[k].threads[i], k, i, s.params.maxWorkersPerThread, s.workers.Keys);
  }

  lemma ReleasedAlike(s: State, s': State, k: Text, i: nat, members: seq<Text>)
    requires s'.workers == s.workers && k in s.tasks && k in s'.tasks && |s'.tasks[k].threads| == |s.tasks[k].threads|
    ensures Released(s', k, i, members) == Released(s, k, i, members)
  {
    assert forall a :: a in s.workers ==> (PointsAt(s', a, k, i) <==> PointsAt(s, a, k, i));
  }

  /** What the release loop needs of the store. */
  predicate Releasable(s: State, k: Text, i: nat, members: seq<Text>) {
    && k in s.tasks && i < |s.tasks[k].threads| && s.tasks[k].taskId == k
    && (forall j :: 0 <= j < |s.tasks[k].threads| && s.tasks[k].threads[j].threadId == s.tasks[k].threads[i].threadId
          ==> j == i)
    && (forall a :: a in members ==> a in s.workers)
    && (forall a :: a in s.workers ==> s.workers[a].address == a)
    && (forall a :: a in s.workers && s.workers[a].currentTaskId == k ==>
          0 <= s.workers[a].currentThreadIndex < |s.tasks[k].threads|)
  }

  lemma InvReleasable(s: State, s': State, k: Text, i: nat, members: seq<Text>)
    requires Inv(s) && k in s.tasks && i < |s.tasks[k].threads| && members == s.tasks[k].threads[i].workers
    requires s'.workers == s.workers && k in s'.tasks && s'.tasks[k].taskId == s.tasks[k].taskId
    requires |s'.tasks[k].threads| == |s.tasks[k].threads|
    requires forall j :: 0 <= j < |s.tasks[k].threads| ==>
      s'.tasks[k].threads[j].threadId == s.tasks[k].threads[j].threadId
    ensures Releasable(s', k, i, members)
  {
    assert TaskInv(s, k) && k != [];
    ProposerRegistered(s, k, i);
    assert forall a :: a in s.workers ==> WorkerInv(s, a);
    forall j | 0 <= j < |s.tasks[k].threads| && s.tasks[k].threads[j].threadId == s.tasks[k].threads[i].threadId
      ensures j == i
    {
      UniqueThread(s, k, i);
      UniqueThread(s, k, j);
    }
  }

  lemma KeysMatch(s: State, k: Text)
    requires Inv(s)
    ensures k in s.tasks && k != [] ==> s.tasks[k].taskId == k
    ensures k in s.tasks && k == [] ==> s.tasks[k].completed
  {
    assert k in s.tasks ==> TaskInv(s, k);
  }

  /** A map being rewritten key by key. */
  ghost predicate PartlyWalked<K(!new), V>(m: map<K, V>, start: map<K, V>, goal: map<K, V>, left: set<K>) {
    && m.Keys == start.Keys == goal.Keys && left <= start.Keys
    && forall k :: k in start ==> m[k] == if k in left then start[k] else goal[k]
  }

  lemma WalkOne<K(!new), V>(m: map<K, V>, start: map<K, V>, goal: map<K, V>, left: set<K>, k: K)
    requires PartlyWalked(m, start, goal, left) && k in left
    ensures k in m && m[k] == start[k] && PartlyWalked(m[k := goal[k]], start, goal, left - {k})
  {
  }

  lemma WalkDone<K(!new), V>(m: map<K, V>, start: map<K, V>, goal: map<K, V>)
    requires PartlyWalked(m, start, goal, {})
    ensures m == goal
  {
  }

  /** What the walk makes of the task stored under k. */
  predicate Walked(o: Oracle, node: Node, k: Text, t: Task, judged: Task, found: set<Launch>) {
    && judged == JudgedTask(o, t) && found == TaskLaunches(o, node, t)
    && (!t.completed ==> t.taskId == k)
  }

  ghost predicate AllWalked(o: Oracle, node: Node, start: map<Text, Task>, judged: map<Text, Task>,
                            found: map<Text, set<Launch>>) {
    && judged.Keys == start.Keys == found.Keys
    && forall k {:trigger judged[k]} :: k in judged ==> Walked(o, node, k, start[k], judged[k], found[k])
  }

  class Keeper {
    var params: Params
    var nextId: nat
    var tasks: map<Text, Task>
    var workers: map<Text, Worker>
    var accounts: map<Text, nat>
    var vault: nat

    function Now(): State
      reads this
    {
      State(params, nextId, tasks, workers, accounts, vault)
    }

    constructor InitGenesis(params: Params, nextId: nat)
      ensures Genesis(Now()) && Inv(Now())
      ensures this.params == params && this.nextId == nextId
    {
      this.params, this.nextId := params, nextId;
      tasks, workers, accounts, vault := map[], map[], map[], 0;
    }

    method SendCoinsFromAccountToModule(a: Text, amount: nat) returns (ok: bool)
      modifies this`accounts, this`vault
      ensures Now() == Deposit(old(Now()), a, amount)
      ensures ok <==> old(Balance(Now(), a)) >= amount
    {
      var balance := Balance(Now(), a);
      ok := balance >= amount;
      if ok {
        accounts, vault := accounts[a := balance - amount], vault + amount;
      }
    }

    method SendCoinsFromModuleToAccount(a: Text, amount: nat)
      modifies this`accounts, this`vault
      ensures Now() == Payout(old(Now()), a, amount)
    {
      if vault >= amount {
        accounts, vault := accounts[a := Balance(Now(), a) + amount], vault - amount;
      }
    }

    // ---- message handlers; a false `ok` is an error or a panic, and what was written by then does not count ----

    method CreateVideoUpscalerTask(o: Oracle, m: Msg) returns (ok: bool)
      requires Inv(Now()) && m.MsgCreateTask?
      modifies this
      ensures CreateTask(o, old(Now()), m) == if ok then Committed(Now()) else Reverted
    {
      if !o.validCid(m.cid) {
        return false;
      }
      var taskId := Itoa(nextId);
      nextId := nextId + 1;
      var threads := GenerateThreads(taskId, m.startFrame, m.endFrame, m.threads);
      if threads.None? || m.reward.None? {
        return false;
      }
      var task := Task(taskId, m.creator, m.cid, m.startFrame, m.endFrame, m.threads, m.scale, false, m.reward.value,
                       threads.value);
      var _ := SendCoinsFromAccountToModule(m.creator, m.reward.value);
      tasks := tasks[taskId := task];
      return true;
    }

    method AddWorker(m: Msg) returns (ok: bool)
      requires Inv(Now()) && m.MsgAddWorker?
      modifies this
      ensures Chain.AddWorker(old(Now()), m) == if ok then Committed(Now()) else Reverted
    {
      if m.creator in workers {
        return false;
      }
      if m.stakeDenom != params.stakeDenom {
        return false;
      }
      if m.stake < params.minWorkerStaking {
        return false;
      }
      var balance := Balance(Now(), m.creator);
      if balance < params.minWorkerStaking {
        return false;
      }
      workers := workers[m.creator := NewWorker(m)];
      ok := SendCoinsFromAccountToModule(m.creator, m.stake);
    }

    method SubscribeWorkerToTask(m: Msg) returns (ok: bool)
      requires Inv(Now()) && m.MsgSubscribe?
      modifies this
      ensures Subscribe(old(Now()), m) == if ok then Committed(Now()) else Reverted
    {
      if m.creator !in workers || !workers[m.creator].enabled {
        return false;
      }
      var worker := workers[m.creator];
      if m.taskId !in tasks || tasks[m.taskId].completed {
        return false;
      }
      var task := tasks[m.taskId];
      assert TaskInv(Now(), m.taskId);
      for i := 0 to |task.threads|
        invariant Now() == old(Now())
        invariant forall j :: 0 <= j < i ==>
          task.threads[j].threadId != m.threadId || !Open(task.threads[j], params.maxWorkersPerThread)
      {
        var v := task.threads[i];
        if v.threadId == m.threadId && |v.workers| < params.maxWorkersPerThread && !v.completed {
          UniqueThread(Now(), m.taskId, i);
          if worker.address in v.workers {
            return true;
          }
          v := v.(workers := v.workers + [m.creator]);
          task := task.(threads := task.threads[i := v]);
          worker := worker.(currentTaskId := task.taskId, currentThreadIndex := i);
          workers := workers[m.creator := worker];
          tasks := tasks[task.taskId := task];
          return true;
        }
      }
      return true;
    }

    method ProposeSolution(o: Oracle, m: Msg) returns (ok: bool)
      requires Inv(Now()) && m.MsgPropose?
      modifies this
      ensures Propose(o, old(Now()), m) == if ok then Committed(Now()) else Reverted
    {
      if m.creator !in workers || !workers[m.creator].enabled {
        return false;
      }
      if m.taskId !in tasks || tasks[m.taskId].completed {
        return false;
      }
      var threads := tasks[m.taskId].threads;
      ghost var index := ThreadIndex(threads, m.threadId);
      for i := 0 to |threads|
        invariant index < 0 || i <= index ==> Now() == old(Now())
        invariant 0 <= index < i ==> Propose(o, old(Now()), m) == Committed(Now())
      {
        var v := threads[i];
        if v.threadId == m.threadId {
          UniqueThread(old(Now()), m.taskId, i);
          if v.solution.Some? {
            return false;
          }
          if m.creator !in v.workers {
            return false;
          }
          if |m.signatures| != v.endFrame - v.startFrame + 1 {
            return false;
          }
          var frames := ParseSignatures(m.signatures);
          if frames.None? {
            return false;
          }
          if !o.keyDecodes(m.publicKey) {
            return false;
          }
          v := v.(solution := Some(Solution(m.creator, frames.value, m.publicKey, [], false)));
          tasks := tasks[m.taskId := tasks[m.taskId].(threads := threads[i := v])];
        }
      }
      return true;
    }

    method RevealSolution(m: Msg) returns (ok: bool)
      requires Inv(Now()) && m.MsgReveal?
      modifies this
      ensures Disclose(old(Now()), m) == if ok then Committed(Now()) else Reverted
    {
      if m.taskId !in tasks || m.creator !in workers {
        return false;
      }
      var task, worker := tasks[m.taskId], workers[m.creator];
      if worker.currentTaskId != m.taskId {
        return false;
      }
      if task.completed {
        return false;
      }
      assert WorkerInv(Now(), m.creator) && TaskInv(Now(), m.taskId);
      var thread := task.threads[worker.currentThreadIndex];
      if thread.solution.None? || thread.solution.value.accepted {
        return false;
      }
      if thread.solution.value.proposedBy != m.creator || thread.threadId != m.threadId {
        return false;
      }
      // the source tests this again; it cannot fail
      assert m.creator in thread.workers;
      if |m.entries| != |thread.solution.value.frames| {
        return false;
      }
      var shown := FromCliToFrames(m.entries);
      var frames := RevealFrames(thread.solution.value.frames, shown);
      if frames.None? {
        return false;
      }
      thread := thread.(solution := Some(thread.solution.value.(frames := frames.value)));
      tasks := tasks[m.taskId := task.(threads := task.threads[worker.currentThreadIndex := thread])];
      return true;
    }

    method SubmitValidation(m: Msg) returns (ok: bool)
      requires Inv(Now()) && m.MsgValidate?
      modifies this
      ensures Validate(old(Now()), m) == if ok then Committed(Now()) else Reverted
    {
      if m.taskId !in tasks || m.creator !in workers || !workers[m.creator].enabled {
        return false;
      }
      var task, worker := tasks[m.taskId], workers[m.creator];
      if worker.currentTaskId != m.taskId || task.completed {
        return false;
      }
      assert WorkerInv(Now(), m.creator) && TaskInv(Now(), m.taskId);
      var thread := task.threads[worker.currentThreadIndex];
      if thread.threadId != m.threadId {
        return false;
      }
      // the source tests this again; it cannot fail
      assert m.creator in thread.workers;
      var frames := ParseSignatures(m.signatures);
      if frames.None? {
        return false;
      }
      var reverse := IsReverse(thread.workers, worker.address);
      var validation := Validation(m.creator, frames.value, m.publicKey, reverse);
      thread := thread.(validations := thread.validations + [validation]);
      tasks := tasks[m.taskId := task.(threads := task.threads[worker.currentThreadIndex := thread])];
      if thread.solution.None? {
        return false;
      }
      if worker.address != thread.solution.value.proposedBy {
        workers := workers[m.creator := worker.(currentTaskId := [], currentThreadIndex := 0)];
      }
      return true;
    }

    /** Releases the workers of a thread that still point at it. */
    method ReleaseWorkers(k: Text, i: nat, members: seq<Text>)
      requires Releasable(Now(), k, i, members)
      modifies this`workers
      ensures workers == Released(old(Now()), k, i, members)
    {
      var task := tasks[k];
      ghost var before := Now();
      for n := 0 to |members|
        invariant workers.Keys == before.workers.Keys
        invariant forall a :: a in workers ==>
          workers[a] == if a in members[..n] && PointsAt(before, a, k, i) then Idle(before.workers[a])
                        else before.workers[a]
      {
        assert forall a :: a in members[..n + 1] <==> a in members[..n] || a == members[n];
        assert members[n] in members;
        var worker := workers[members[n]];
        if task.taskId == worker.currentTaskId &&
           task.threads[i].threadId == task.threads[worker.currentThreadIndex].threadId {
          worker := worker.(currentTaskId := [], currentThreadIndex := 0);
          workers := workers[worker.address := worker];
        }
      }
      assert members[..|members|] == members;
    }

    method SubmitSolution(m: Msg) returns (ok: bool)
      requires Inv(Now()) && m.MsgSubmit?
      modifies this
      ensures Submit(old(Now()), m) == if ok then Committed(Now()) else Reverted
    {
      if m.taskId !in tasks {
        return false;
      }
      var task := tasks[m.taskId];
      assert TaskInv(Now(), m.taskId);
      for i := 0 to |task.threads|
        invariant Now() == old(Now())
        invariant forall j :: 0 <= j < i ==> task.threads[j].threadId != m.threadId
      {
        var thread := task.threads[i];
        if thread.threadId == m.threadId {
          UniqueThread(Now(), m.taskId, i);
          ProposerRegistered(Now(), m.taskId, i);
          if thread.solution.None? || thread.solution.value.proposedBy != m.creator {
            return false;
          }
          SettleThread(m, i);
          return true;
        }
      }
      return true;
    }

    /** The body of SubmitSolution once the thread is found and the caller is its proposer. */
    method SettleThread(m: Msg, i: nat)
      requires Inv(Now()) && m.MsgSubmit? && m.taskId in tasks && i < |tasks[m.taskId].threads|
      requires i == ThreadIndex(tasks[m.taskId].threads, m.threadId) && Proposer(tasks[m.taskId].threads[i], m.creator)
      modifies this
      ensures m.creator in old(workers) && Now() == Settlement(old(Now()), m, i)
    {
      var task := tasks[m.taskId];
      ghost var s := Now();
      ProposerRegistered(s, m.taskId, i);
      var payment := HalfShare(task.reward, |task.threads|);
      SendCoinsFromModuleToAccount(m.creator, payment);
      var thread := task.threads[i];
      thread := thread.(solution := Some(thread.solution.value.(dir := m.dir)),
                        averageRenderSeconds := m.averageRenderSeconds, completed := true);
      tasks := tasks[m.taskId := task.(threads := task.threads[i := thread])];
      InvReleasable(s, Now(), m.taskId, i, thread.workers);
      ReleasedAlike(s, Now(), m.taskId, i, thread.workers);
      ReleaseWorkers(m.taskId, i, thread.workers);
      workers := workers[m.creator := Winner(workers[m.creator], payment, m.averageRenderSeconds)];
    }

    /** The SDK runs a handler and, when it fails, restores what it changed. */
    method Deliver(o: Oracle, m: Msg) returns (ok: bool)
      requires Inv(Now())
      modifies this
      ensures Now() == Step(o, old(Now()), Tx(m)) && Inv(Now())
      ensures ok <==> Handle(o, old(Now()), m).Committed?
    {
      StepKeepsInv(o, Now(), Tx(m));
      var saved := Now();
      match m {
        case MsgCreateTask(_, _, _, _, _, _, _) => ok := CreateVideoUpscalerTask(o, m);
        case MsgAddWorker(_, _, _, _, _) => ok := AddWorker(m);
        case MsgSubscribe(_, _, _) => ok := SubscribeWorkerToTask(m);
        case MsgPropose(_, _, _, _, _) => ok := ProposeSolution(o, m);
        case MsgReveal(_, _, _, _) => ok := RevealSolution(m);
        case MsgValidate(_, _, _, _, _) => ok := SubmitValidation(m);
        case MsgSubmit(_, _, _, _, _) => ok := SubmitSolution(m);
      }
      if !ok {
        params, nextId, tasks, workers := saved.params, saved.nextId, saved.tasks, saved.workers;
        accounts, vault := saved.accounts, saved.vault;
      }
    }

    // ---- block hooks ----

    /** The verification branch of BeginBlock's walk over one stored task. */
    method JudgeTask(o: Oracle, node: Node, k: Text, ghost judged: Task, ghost found: set<Launch>)
      returns (launches: set<Launch>)
      requires k in tasks && Walked(o, node, k, tasks[k], judged, found)
      modifies this`tasks
      ensures tasks == old(tasks)[k := judged] && launches == found
    {
      launches := {};
      var task := tasks[k];
      if !task.completed {
        var threads;
        threads, launches := JudgeThreads(o, node, task.threads);
        tasks := tasks[task.taskId := task.(threads := threads)];
      }
    }

    /** The loop over the threads of one task: `threads` is the copy in memory, `stored` what was last written. */
    method JudgeThreads(o: Oracle, node: Node, start: seq<Thread>) returns (stored: seq<Thread>, launches: set<Launch>)
      ensures stored == JudgedUpTo(o, start, WrittenBack(o, start))
      ensures launches == Submissions(o, node, start, |start|)
    {
      launches, stored := {}, start;
      var threads := start;
      JudgeNone(o, start);
      for i := 0 to |start|
        invariant threads == JudgedUpTo(o, start, i)
        invariant stored == JudgedUpTo(o, start, WrittenOf(o, start, i))
        invariant launches == Submissions(o, node, start, i)
      {
        var more;
        threads, stored, more := JudgeAt(o, node, start, i, threads, stored);
        launches := launches + more;
      }
      JudgeAll(o, start);
    }

    /** Its turn for thread i. */
    method JudgeAt(o: Oracle, node: Node, ghost start: seq<Thread>, i: nat, threads: seq<Thread>, stored: seq<Thread>)
      returns (threads': seq<Thread>, stored': seq<Thread>, launches: set<Launch>)
      requires i < |start| && threads == JudgedUpTo(o, start, i)
      requires stored == JudgedUpTo(o, start, WrittenOf(o, start, i))
      ensures threads' == JudgedUpTo(o, start, i + 1)
      ensures stored' == JudgedUpTo(o, start, WrittenOf(o, start, i + 1))
      ensures launches == Submission(node, Judged(o, start[i]))
    {
      JudgeOne(o, start, i);
      var thread, accepted := JudgeThread(o, threads[i]);
      threads' := threads[i := thread];
      stored' := if accepted then threads' else stored;
      launches := Submission(node, thread);
    }

    method JudgeThread(o: Oracle, start: Thread) returns (thread: Thread, accepted: bool)
      ensures thread == Judged(o, start) && accepted == NewlyAccepted(o, start)
    {
      thread, accepted := start, false;
      if (|thread.validations| > 1 || |thread.validations| == |thread.workers|) && !thread.completed &&
         thread.solution.Some? && !thread.solution.value.accepted &&
         |thread.solution.value.frames| > 0 && thread.solution.value.frames[0].hash != [] {
        var solution := thread.solution.value;
        var frames := EvaluateVerifications(o, solution.frames, thread.validations);
        accepted := IsSolutionAccepted(frames, thread.workers);
        thread := thread.(solution := Some(solution.(frames := frames)));
        if accepted {
          thread := thread.(solution := Some(thread.solution.value.(accepted := true)));
        }
      }
    }

    /** One turn of the walk. */
    method WalkTask(o: Oracle, node: Node, k: Text, ghost start: map<Text, Task>, ghost judged: map<Text, Task>,
                    ghost found: map<Text, set<Launch>>, ghost left: set<Text>)
      returns (launches: set<Launch>)
      requires AllWalked(o, node, start, judged, found) && PartlyWalked(tasks, start, judged, left) && k in left
      modifies this`tasks
      ensures PartlyWalked(tasks, start, judged, left - {k}) && k in found && launches == found[k]
    {
      WalkOne(tasks, start, judged, left, k);
      launches := JudgeTask(o, node, k, judged[k], found[k]);
    }

    /** The walk, in any key order; the store is written while it is being walked. */
    method WalkLoop(o: Oracle, node: Node, ghost judged: map<Text, Task>, ghost found: map<Text, set<Launch>>)
      returns (launches: set<Launch>)
      requires AllWalked(o, node, tasks, judged, found)
      modifies this`tasks
      ensures tasks == judged && launches == UnionOf(found, found.Keys)
    {
      launches := {};
      ghost var start := tasks;
      var left := tasks.Keys;
      while left != {}
        invariant PartlyWalked(tasks, start, judged, left)
        invariant launches == UnionOf(found, start.Keys - left)
        decreases |left|
      {
        var k :| k in left;
        var more := WalkTask(o, node, k, start, judged, found, left);
        UnionOne(found, start.Keys, left, k);
        launches, left := launches + more, left - {k};
      }
      WalkDone(tasks, start, judged);
      UnionAll(found, left);
    }

    method WalkTasks(o: Oracle, node: Node) returns (launches: set<Launch>)
      requires Inv(Now())
      modifies this`tasks
      ensures tasks == JudgedTasks(o, old(tasks))
      ensures launches == UnionOf(LaunchMap(o, node, old(tasks)), old(tasks.Keys))
    {
      forall k | k in tasks
        ensures Walked(o, node, k, tasks[k], JudgedTasks(o, tasks)[k], LaunchMap(o, node, tasks)[k])
      {
        KeysMatch(Now(), k);
      }
      launches := WalkLoop(o, node, JudgedTasks(o, tasks), LaunchMap(o, node, tasks));
    }

    /** The branch in which the node's worker has something to do. */
    method LaunchWork(node: Node) returns (launches: set<Launch>)
      requires Inv(Now())
      ensures launches == WorkLaunches(node, FindWork(node, Now()))
    {
      launches := {};
      if !node.enabled || node.workerAddress == [] {
        return;
      }
      var worker := WorkerAt(Now(), node.workerAddress);
      if !worker.enabled || worker.currentTaskId == [] {
        return;
      }
      // the source gives up the whole hook when the task is missing, and panics on a bad index
      assert WorkerInv(Now(), node.workerAddress);
      var thread := tasks[worker.currentTaskId].threads[worker.currentThreadIndex];
      var row := node.row(thread.threadId);
      if !thread.completed && !row.downloadStarted {
        launches := launches + {StartWork(thread.threadId)};
      } else if row.workStarted && node.exited(thread.threadId) {
        launches := launches + {StartWork(thread.threadId)};
      }
      if thread.solution.None? && row.workCompleted && !row.solutionProposed {
        launches := launches + {LaunchProposal(thread.threadId)};
      }
      if thread.solution.Some? && thread.solution.value.proposedBy != [] && !row.verificationStarted {
        launches := launches + {LaunchVerification(thread.threadId)};
      }
    }

    method BeginBlock(o: Oracle, node: Node) returns (launches: set<Launch>)
      requires Inv(Now())
      modifies this
      ensures Now() == Chain.BeginBlock(o, old(Now())) && Inv(Now())
      ensures BeginBlockOn(o, node, old(Now())) == Returned(Now(), launches)
    {
      ghost var s := Now();
      BeginKeepsInv(o, s);
      BeginBlockIs(o, node, s);
      var count := |workers|;
      if 1 < count < 7 {
        params := params.(minValidators := count);
      }
      InertInv(s, Now());
      launches := LaunchWork(node);
      var more := WalkTasks(o, node);
      launches := launches + more;
    }

    method FindPending(node: Node) returns (found: Option<Text>)
      ensures found == Pending(node, Now(), 0)
      ensures found.Some? ==> found.value in tasks
    {
      for i := 0 to nextId
        invariant Pending(node, Now(), 0) == Pending(node, Now(), i)
      {
        var k := Itoa(i);
        if k in tasks && !tasks[k].completed && tasks[k].reward >= node.minReward {
          for j := 0 to |tasks[k].threads|
            invariant forall n :: 0 <= n < j ==> !Open(tasks[k].threads[n], params.maxWorkersPerThread)
          {
            if !tasks[k].threads[j].completed && |tasks[k].threads[j].workers| < params.maxWorkersPerThread {
              return Some(k);
            }
          }
        }
      }
      return None;
    }

    /** The branch in which the node registers, or looks for work for its idle worker. */
    method LaunchJoining(node: Node) returns (launches: set<Launch>)
      ensures launches == JoinLaunches(node, Now())
    {
      launches := {};
      if !node.enabled || node.workerAddress == [] {
        return;
      }
      var worker := WorkerAt(Now(), node.workerAddress);
      if worker.address == [] && !node.registered {
        launches := {LaunchRegistration(node.workerAddress)};
      }
      if worker.enabled && worker.currentTaskId == [] {
        var found := FindPending(node);
        if found.Some? {
          var task := tasks[found.value];
          for i := 0 to |task.threads|
            invariant Subscription(node, Now(), task, worker.address, 0) ==
                      Subscription(node, Now(), task, worker.address, i)
          {
            if Joinable(node, Now(), task, task.threads[i], worker.address) {
              launches := launches + {LaunchSubscription(task.taskId, task.threads[i].threadId)};
              return;
            }
          }
        }
      }
    }

    /** The inner loop, over the threads of one task. */
    method LaunchRevealsOf(node: Node, threads: seq<Thread>) returns (launches: set<Launch>)
      requires forall j :: 0 <= j < |threads| && Validated(threads[j]) ==> threads[j].solution.Some?
      ensures launches == Reveals(node, threads, |threads|)
    {
      launches := {};
      for j := 0 to |threads|
        invariant launches == Reveals(node, threads, j)
      {
        var thread := threads[j];
        if Validated(thread) && thread.solution.value.proposedBy == node.workerAddress {
          if !node.row(thread.threadId).solutionRevealed {
            launches := launches + {LaunchReveal(thread.threadId)};
          }
        }
      }
    }

    method LaunchReveals(node: Node) returns (launches: set<Launch>)
      requires Inv(Now())
      ensures launches == RevealsBelow(node, Now(), nextId)
    {
      launches := {};
      for i := 0 to nextId
        invariant launches == RevealsBelow(node, Now(), i)
      {
        var k := Itoa(i);
        if k in tasks && !tasks[k].completed {
          NothingDereferenced(Now(), k);
          var more := LaunchRevealsOf(node, tasks[k].threads);
          launches := launches + more;
        }
      }
    }

    method AllThreadsCompleted(threads: seq<Thread>) returns (completed: bool)
      ensures completed <==> forall th :: th in threads ==> th.completed
    {
      completed := true;
      for j := 0 to |threads|
        invariant completed && forall n :: 0 <= n < j ==> threads[n].completed
      {
        if !threads[j].completed {
          assert threads[j] in threads;
          completed := false;
          break;
        }
      }
    }

    /** One turn of the loop of EvaluateCompletedThread. */
    method RewardWorker(a: Text, thread: Thread, pool: nat)
      requires a in workers && workers[a].address == a
      modifies this`workers
      ensures workers == old(workers)[a := Rewarded(old(workers)[a], ValidatorShare(thread.validations, a, pool))]
    {
      var worker := workers[a];
      var winning := GetValidatorReward(thread.validations, worker.address, pool);
      worker := Rewarded(worker, winning);
      workers := workers[worker.address := worker];
    }

    method RewardWorkers(thread: Thread, pool: nat)
      requires forall a :: a in thread.workers ==> a in workers
      requires forall a :: a in workers ==> workers[a].address == a
      modifies this`workers
      ensures (forall a :: a in thread.workers ==> a in old(workers))
              && workers == RewardedUpTo(old(workers), thread, pool, |thread.workers|)
    {
      for i := 0 to |thread.workers|
        invariant forall a :: a in thread.workers ==> a in old(workers)
        invariant workers == RewardedUpTo(old(workers), thread, pool, i)
        invariant forall a :: a in workers ==> workers[a].address == a
      {
        RewardWorker(thread.workers[i], thread, pool);
      }
    }

    method EvaluateCompletedThread(k: Text, index: nat)
      requires Inv(Now()) && k in tasks && index < |tasks[k].threads|
      modifies this`tasks, this`workers
      ensures var t := old(tasks[k]);
              && (forall a :: a in t.threads[index].workers ==> a in old(workers))
              && workers == RewardedUpTo(old(workers), t.threads[index], HalfShare(t.reward, |t.threads|),
                                         |t.threads[index].workers|)
              && tasks == old(tasks)[k := t.(threads := t.threads[index := t.threads[index].(completed := true)])]
    {
      var task := tasks[k];
      var thread := task.threads[index];
      ProposerRegistered(Now(), k, index);
      KeysMatch(Now(), k);
      assert task.taskId == k by {
        assert TaskInv(Now(), k);
      }
      assert forall a :: a in workers ==> WorkerInv(Now(), a);
      RewardWorkers(thread, HalfShare(task.reward, |task.threads|));
      tasks := tasks[task.taskId := task.(threads := task.threads[index := thread.(completed := true)])];
    }

    /** One turn of the completion pass. A missing task is read as the zero task. */
    method CompleteTask(k: Text)
      requires k in tasks ==> tasks[k].taskId == k
      modifies this`tasks
      ensures tasks == if k in old(tasks) then old(tasks)[k := Swept(old(tasks)[k])] else old(tasks)[[] := PHANTOM]
    {
      var task := if k in tasks then tasks[k] else PHANTOM.(completed := false);
      if !task.completed {
        var completed := AllThreadsCompleted(task.threads);
        if completed {
          task := task.(completed := true);
          tasks := tasks[task.taskId := task];
        }
      }
    }

    method CompleteTasks()
      requires Inv(Now())
      modifies this`tasks
      ensures tasks == SweptBelow(old(tasks), nextId)
    {
      ghost var s := Now();
      SweepNothing(s.tasks);
      for i := 0 to nextId
        invariant tasks == SweptBelow(s.tasks, i)
      {
        SweepStep(s.tasks, i);
        KeysMatch(s, Itoa(i));
        CompleteTask(Itoa(i));
      }
    }

    method EndBlock(node: Node) returns (launches: set<Launch>)
      requires Inv(Now())
      modifies this
      ensures Now() == Chain.EndBlock(old(Now())) && Inv(Now())
      ensures EndBlockOn(node, old(Now())) == Returned(Now(), launches)
    {
      EndKeepsInv(Now());
      EndBlockAgrees(node, Now());
      launches := LaunchJoining(node);
      var more := LaunchReveals(node);
      launches := launches + more;
      CompleteTasks();
    }
  }

  /** How many threads have reached the store once the first i are judged. */
  function WrittenOf(o: Oracle, ts: seq<Thread>, i: nat): nat
    requires i <= |ts|
  {
    LastTrue(Verdicts(o, ts)[..i])
  }

  lemma JudgeNone(o: Oracle, ts: seq<Thread>)
    ensures JudgedUpTo(o, ts, 0) == ts && WrittenOf(o, ts, 0) == 0
  {
  }

  lemma JudgeOne(o: Oracle, ts: seq<Thread>, i: nat)
    requires i < |ts|
    ensures JudgedUpTo(o, ts, i)[i] == ts[i]
    ensures JudgedUpTo(o, ts, i)[i := Judged(o, ts[i])] == JudgedUpTo(o, ts, i + 1)
    ensures WrittenOf(o, ts, i + 1) == if NewlyAccepted(o, ts[i]) then i + 1 else WrittenOf(o, ts, i)
  {
    assert Verdicts(o, ts)[..i + 1][..i] == Verdicts(o, ts)[..i];
  }

  lemma JudgeAll(o: Oracle, ts: seq<Thread>)
    ensures WrittenOf(o, ts, |ts|) == WrittenBack(o, ts)
  {
    assert Verdicts(o, ts)[..|ts|] == Verdicts(o, ts);
  }

  lemma BeginBlockIs(o: Oracle, node: Node, s: State)
    requires Inv(s)
    ensures BeginBlockOn(o, node, s) ==
            Returned(BeginBlock(o, s), WorkLaunches(node, FindWork(node, s.(params := AdjustedParams(s))))
                                       + UnionOf(LaunchMap(o, node, s.tasks), s.tasks.Keys))
  {
    BeginBlockAgrees(o, node, s);
    if node.workerAddress in s.workers {
      assert WorkerInv(s, node.workerAddress);
    }
  }

  lemma UnionOne<K(!new), V(!new)>(m: map<K, set<V>>, keys: set<K>, left: set<K>, k: K)
    requires k in m && k in left && left <= keys
    ensures UnionOf(m, keys - (left - {k})) == UnionOf(m, keys - left) + m[k] && |left - {k}| < |left|
  {
    assert keys - (left - {k}) == keys - left + {k};
  }

  lemma UnionAll<K(!new), V(!new)>(m: map<K, set<V>>, left: set<K>)
    requires left == {}
    ensures UnionOf(m, m.Keys - left) == UnionOf(m, m.Keys)
  {
    assert m.Keys - left == m.Keys;
  }

  lemma IdsGrow(i: nat)
    ensures forall k :: IsId(k, i + 1) <==> IsId(k, i) || k == Itoa(i)
  {
    ParseItoa(i);
  }

  lemma SweepNothing(tasks: map<Text, Task>)
    ensures SweptBelow(tasks, 0) == tasks
  {
  }

  lemma SweptTasksStep(tasks: map<Text, Task>, i: nat)
    ensures var below, upto, k := SweptTasks(tasks, i), SweptTasks(tasks, i + 1), Itoa(i);
            if k in tasks then k in below && below[k] == tasks[k] && upto == below[k := Swept(tasks[k])]
            else k !in below && upto == below
  {
    IdsGrow(i);
    IdOf(i, i);
  }

  lemma HoleStep(tasks: map<Text, Task>, i: nat)
    ensures Hole(tasks, i + 1) <==> Hole(tasks, i) || Itoa(i) !in tasks
  {
  }

  lemma Commute(m: map<Text, Task>, a: Text, b: Text, x: Task, y: Task)
    requires a != b
    ensures m[a := x][b := y] == m[b := y][a := x] && m[a := x][a := y] == m[a := y]
  {
  }

  /** One turn of the completion loop. */
  lemma SweepStep(tasks: map<Text, Task>, i: nat)
    ensures var before, after, k := SweptBelow(tasks, i), SweptBelow(tasks, i + 1), Itoa(i);
            if k in tasks then k in before && before[k] == tasks[k] && after == before[k := Swept(tasks[k])]
            else k !in before && after == before[[] := PHANTOM]
  {
    SweptTasksStep(tasks, i);
    HoleStep(tasks, i);
    var below := SweptTasks(tasks, i);
    if Itoa(i) in tasks {
      Commute(below, [], Itoa(i), PHANTOM, Swept(tasks[Itoa(i)]));
    } else {
      Commute(below, [], Itoa(i), PHANTOM, PHANTOM);
    }
  }
}
