/** The chain state and its transitions: the seven message handlers (keeper/msg_server.go) and the chain effect of the
    two block hooks (module/module.go). A handler that returns an error or panics is Reverted: the SDK undoes it. */
module Chain {
  import opened Records
  import opened Decimal
  import opened FrameSplit
  import opened Rewards
  import opened CliFormat
  import opened Tally
  import opened Reveal

  datatype Params = Params(stakeDenom: Text, minWorkerStaking: nat, maxWorkersPerThread: int, minValidators: int)

  /** `accounts` are the bank balances of ordinary accounts, `vault` that of the module account. */
  datatype State = State(params: Params, nextId: nat, tasks: map<Text, Task>, workers: map<Text, Worker>,
                         accounts: map<Text, nat>, vault: nat)

  datatype Msg =
    | MsgCreateTask(creator: Text, cid: Text, startFrame: int, endFrame: int, threads: int, scale: int,
                    reward: Option<nat>)
    | MsgAddWorker(creator: Text, publicIp: Text, ipfsId: Text, stakeDenom: Text, stake: nat)
    | MsgSubscribe(creator: Text, taskId: Text, threadId: Text)
    | MsgPropose(creator: Text, taskId: Text, threadId: Text, publicKey: Text, signatures: seq<Text>)
    | MsgReveal(creator: Text, taskId: Text, threadId: Text, entries: seq<Text>)
    | MsgValidate(creator: Text, taskId: Text, threadId: Text, publicKey: Text, signatures: seq<Text>)
    | MsgSubmit(creator: Text, taskId: Text, threadId: Text, dir: Text, averageRenderSeconds: int)

  datatype Result = Reverted | Committed(state: State)

  // ---- bank ----

  function Balance(s: State, a: Text): nat { if a in s.accounts then s.accounts[a] else 0 }

  /** SendCoinsFromAccountToModule; a failed transfer changes nothing. */
  function Deposit(s: State, a: Text, amount: nat): State {
    if Balance(s, a) < amount then s
    else s.(accounts := s.accounts[a := Balance(s, a) - amount], vault := s.vault + amount)
  }

  /** SendCoinsFromModuleToAccount. */
  function Payout(s: State, a: Text, amount: nat): State {
    if s.vault < amount then s
    else s.(accounts := s.accounts[a := Balance(s, a) + amount], vault := s.vault - amount)
  }

  // ---- lookups ----

  predicate Open(th: Thread, max: int) { |th.workers| < max && !th.completed }

  /** First thread of that id, or -1. */
  function ThreadIndex(ts: seq<Thread>, id: Text): (i: int)
    ensures -1 <= i < |ts|
    ensures i >= 0 ==> ts[i].threadId == id
    ensures forall j :: 0 <= j < (if i < 0 then |ts| else i) ==> ts[j].threadId != id
  {
    if ts == [] then -1
    else if ts[0].threadId == id then 0
    else
      var i := ThreadIndex(ts[1..], id);
      if i < 0 then -1 else i + 1
  }

  function PutThread(s: State, k: Text, i: nat, th: Thread): State
    requires k in s.tasks && i < |s.tasks[k].threads|
  {
    var t := s.tasks[k];
    s.(tasks := s.tasks[k := t.(threads := t.threads[i := th])])
  }

  // ---- handlers ----

  function NewTask(id: Text, m: Msg): Task
    requires m.MsgCreateTask? && m.threads > 0 && m.reward.Some?
  {
    Task(id, m.creator, m.cid, m.startFrame, m.endFrame, m.threads, m.scale, false, m.reward.value,
         NewThreads(id, m.startFrame, m.endFrame, m.threads))
  }

  /** The result of the reward transfer is ignored. */
  function CreateTask(o: Oracle, s: State, m: Msg): Result
    requires m.MsgCreateTask?
  {
    if !o.validCid(m.cid) || m.threads <= 0 || m.reward.None? then Reverted
    else
      var id := Itoa(s.nextId);
      Committed(Deposit(s, m.creator, m.reward.value)
                .(nextId := s.nextId + 1, tasks := s.tasks[id := NewTask(id, m)]))
  }

  function NewWorker(m: Msg): Worker
    requires m.MsgAddWorker?
  {
    Worker(m.creator, Reputation(m.stake, 0, 0, 0, 0, []), true, [], 0, m.publicIp, m.ipfsId)
  }

  function AddWorker(s: State, m: Msg): Result
    requires m.MsgAddWorker?
  {
    if m.creator in s.workers || m.stakeDenom != s.params.stakeDenom || m.stake < s.params.minWorkerStaking
       || Balance(s, m.creator) < s.params.minWorkerStaking || Balance(s, m.creator) < m.stake
    then Reverted
    else Committed(Deposit(s, m.creator, m.stake).(workers := s.workers[m.creator := NewWorker(m)]))
  }

  predicate Enabled(s: State, a: Text) { a in s.workers && s.workers[a].enabled }

  predicate Running(s: State, k: Text) { k in s.tasks && !s.tasks[k].completed }

  /** A full or completed thread, or a worker already listed, is skipped without an error. */
  function Subscribe(s: State, m: Msg): Result
    requires m.MsgSubscribe?
  {
    if !Enabled(s, m.creator) || !Running(s, m.taskId) then Reverted
    else
      var t, w := s.tasks[m.taskId], s.workers[m.creator];
      var i := ThreadIndex(t.threads, m.threadId);
      if i < 0 || !Open(t.threads[i], s.params.maxWorkersPerThread) || w.address in t.threads[i].workers
      then Committed(s)
      else
        var th := t.threads[i].(workers := t.threads[i].workers + [m.creator]);
        Committed(PutThread(s, m.taskId, i, th)
                  .(workers := s.workers[m.creator := w.(currentTaskId := t.taskId, currentThreadIndex := i)]))
  }

  function Propose(o: Oracle, s: State, m: Msg): Result
    requires m.MsgPropose?
  {
    if !Enabled(s, m.creator) || !Running(s, m.taskId) then Reverted
    else
      var ts := s.tasks[m.taskId].threads;
      var i := ThreadIndex(ts, m.threadId);
      if i < 0 then Committed(s)
      else if ts[i].solution.Some? || m.creator !in ts[i].workers
              || |m.signatures| != ts[i].endFrame - ts[i].startFrame + 1
              || ProposedFrames(m.signatures).None? || !o.keyDecodes(m.publicKey)
      then Reverted
      else
        var sol := Solution(m.creator, ProposedFrames(m.signatures).value, m.publicKey, [], false);
        Committed(PutThread(s, m.taskId, i, ts[i].(solution := Some(sol))))
  }

  /** The worker's pointer selects this thread of this task. */
  predicate PointsAt(s: State, a: Text, k: Text, i: int) {
    && a in s.workers && s.workers[a].currentTaskId == k && s.workers[a].currentThreadIndex == i
    && k in s.tasks && 0 <= i < |s.tasks[k].threads|
  }

  function Disclose(s: State, m: Msg): Result
    requires m.MsgReveal?
  {
    if m.creator !in s.workers then Reverted
    else
      var i := s.workers[m.creator].currentThreadIndex;
      if !PointsAt(s, m.creator, m.taskId, i) || s.tasks[m.taskId].completed then Reverted
      else
        var th := s.tasks[m.taskId].threads[i];
        if th.solution.None? || th.solution.value.accepted || th.solution.value.proposedBy != m.creator
           || th.threadId != m.threadId || m.creator !in th.workers
           || |m.entries| != |th.solution.value.frames|
           || Outcome(th.solution.value.frames, FramesOf(m.entries)).None?
        then Reverted
        else
          var frames := Outcome(th.solution.value.frames, FramesOf(m.entries)).value;
          Committed(PutThread(s, m.taskId, i, th.(solution := Some(th.solution.value.(frames := frames)))))
  }

  function Idle(w: Worker): Worker { w.(currentTaskId := [], currentThreadIndex := 0) }

  /** A missing solution is dereferenced after the validation is stored: the panic undoes it. */
  function Validate(s: State, m: Msg): Result
    requires m.MsgValidate?
  {
    if !Enabled(s, m.creator) then Reverted
    else
      var w := s.workers[m.creator];
      var i := w.currentThreadIndex;
      if !PointsAt(s, m.creator, m.taskId, i) || s.tasks[m.taskId].completed then Reverted
      else
        var th := s.tasks[m.taskId].threads[i];
        if th.threadId != m.threadId || m.creator !in th.workers || ProposedFrames(m.signatures).None?
           || th.solution.None?
        then Reverted
        else
          var v := Validation(m.creator, ProposedFrames(m.signatures).value, m.publicKey,
                              OddPlace(th.workers, w.address));
          var s' := PutThread(s, m.taskId, i, th.(validations := th.validations + [v]));
          Committed(if w.address == th.solution.value.proposedBy then s'
                    else s'.(workers := s.workers[m.creator := Idle(w)]))
  }

  /** Workers in the list that still point at the thread become idle. */
  function Released(s: State, k: Text, i: nat, members: seq<Text>): map<Text, Worker> {
    map a | a in s.workers :: if a in members && PointsAt(s, a, k, i) then Idle(s.workers[a]) else s.workers[a]
  }

  function Winner(w: Worker, payment: nat, averageRenderSeconds: int): Worker {
    var r := w.reputation;
    Idle(w).(reputation := r.(points := r.points + 1, solutions := r.solutions + 1, winnings := r.winnings + payment,
                              renderDurations := r.renderDurations + [averageRenderSeconds]))
  }

  function Settled(th: Thread, m: Msg): Thread
    requires m.MsgSubmit? && th.solution.Some?
  {
    th.(solution := Some(th.solution.value.(dir := m.dir)), averageRenderSeconds := m.averageRenderSeconds,
        completed := true)
  }

  /** The store after thread i is settled by its proposer. */
  function Settlement(s: State, m: Msg, i: nat): State
    requires m.MsgSubmit? && m.creator in s.workers
    requires m.taskId in s.tasks && i < |s.tasks[m.taskId].threads| && s.tasks[m.taskId].threads[i].solution.Some?
  {
    var ts := s.tasks[m.taskId].threads;
    var payment := HalfShare(s.tasks[m.taskId].reward, |ts|);
    var released := Released(s, m.taskId, i, ts[i].workers);
    var workers := released[m.creator := Winner(released[m.creator], payment, m.averageRenderSeconds)];
    PutThread(Payout(s, m.creator, payment), m.taskId, i, Settled(ts[i], m)).(workers := workers)
  }

  /** SubmitSolution: only the proposer is checked; the result of the payment is ignored. */
  function Submit(s: State, m: Msg): Result
    requires m.MsgSubmit?
  {
    if m.taskId !in s.tasks then Reverted
    else
      var ts := s.tasks[m.taskId].threads;
      var i := ThreadIndex(ts, m.threadId);
      if i < 0 then Committed(s)
      else if ts[i].solution.None? || ts[i].solution.value.proposedBy != m.creator || m.creator !in s.workers
      then Reverted
      else Committed(Settlement(s, m, i))
  }

  function Handle(o: Oracle, s: State, m: Msg): Result {
    match m
    case MsgCreateTask(_, _, _, _, _, _, _) => CreateTask(o, s, m)
    case MsgAddWorker(_, _, _, _, _) => AddWorker(s, m)
    case MsgSubscribe(_, _, _) => Subscribe(s, m)
    case MsgPropose(_, _, _, _, _) => Propose(o, s, m)
    case MsgReveal(_, _, _, _) => Disclose(s, m)
    case MsgValidate(_, _, _, _, _) => Validate(s, m)
    case MsgSubmit(_, _, _, _, _) => Submit(s, m)
  }

  // ---- block hooks: the part that changes chain state ----

  /** BeginBlock looks only at the first frame to decide that the solution has been revealed. */
  predicate Ready(th: Thread) {
    && (|th.validations| > 1 || |th.validations| == |th.workers|) && !th.completed
    && th.solution.Some? && !th.solution.value.accepted
    && th.solution.value.frames != [] && th.solution.value.frames[0].hash != []
  }

  /** One thread after the hook has looked at it, in memory. */
  function Judged(o: Oracle, th: Thread): Thread {
    if !Ready(th) then th
    else
      var frames := Evaluated(o, th.solution.value.frames, th.validations);
      th.(solution := Some(th.solution.value.(frames := frames, accepted := Accepted(frames, th.workers))))
  }

  predicate NewlyAccepted(o: Oracle, th: Thread) {
    Ready(th) && Judged(o, th).solution.value.accepted
  }

  /** One past the last true flag. */
  function LastTrue(flags: seq<bool>): (n: nat)
    ensures n <= |flags|
    ensures forall i :: n <= i < |flags| ==> !flags[i]
    ensures n > 0 ==> flags[n - 1]
  {
    if flags == [] then 0
    else if flags[|flags| - 1] then |flags|
    else LastTrue(flags[..|flags| - 1])
  }

  function Verdicts(o: Oracle, ts: seq<Thread>): (flags: seq<bool>)
    ensures |flags| == |ts| && forall i :: 0 <= i < |ts| ==> flags[i] == NewlyAccepted(o, ts[i])
  {
    seq(|ts|, i requires 0 <= i < |ts| => NewlyAccepted(o, ts[i]))
  }

  /** How many leading threads reach the store: the whole task is written whenever a thread is accepted, with the
      counts of the threads judged before it, accepted or not. */
  function WrittenBack(o: Oracle, ts: seq<Thread>): (n: nat)
    ensures n <= |ts|
  {
    LastTrue(Verdicts(o, ts))
  }

  function JudgedUpTo(o: Oracle, ts: seq<Thread>, n: nat): (r: seq<Thread>)
    ensures |r| == |ts| && forall i :: 0 <= i < |ts| ==> r[i] == if i < n then Judged(o, ts[i]) else ts[i]
  {
    seq(|ts|, i requires 0 <= i < |ts| => if i < n then Judged(o, ts[i]) else ts[i])
  }

  function JudgedTask(o: Oracle, t: Task): (r: Task)
    ensures |r.threads| == |t.threads|
  {
    if t.completed then t else t.(threads := JudgedUpTo(o, t.threads, WrittenBack(o, t.threads)))
  }

  function JudgedTasks(o: Oracle, tasks: map<Text, Task>): map<Text, Task> {
    map k | k in tasks :: JudgedTask(o, tasks[k])
  }

  function AdjustedParams(s: State): Params {
    if 1 < |s.workers| < 7 then s.params.(minValidators := |s.workers|) else s.params
  }

  function BeginBlock(o: Oracle, s: State): State {
    s.(params := AdjustedParams(s), tasks := JudgedTasks(o, s.tasks))
  }

  /** What EndBlock stores under the empty key: the zero task, completed. */
  const PHANTOM: Task := Task([], [], [], 0, 0, 0, 0, true, 0, [])

  predicate AllDone(t: Task) { forall th :: th in t.threads ==> th.completed }

  function Swept(t: Task): Task { t.(completed := t.completed || AllDone(t)) }

  /** Some id below n has no task; looking it up yields the zero task. */
  predicate Hole(tasks: map<Text, Task>, n: nat) { exists i: nat :: i < n && Itoa(i) !in tasks }

  function SweptTasks(tasks: map<Text, Task>, n: nat): map<Text, Task> {
    map k | k in tasks :: if IsId(k, n) then Swept(tasks[k]) else tasks[k]
  }

  /** The completion pass over the ids below n. */
  function SweptBelow(tasks: map<Text, Task>, n: nat): map<Text, Task> {
    if Hole(tasks, n) then SweptTasks(tasks, n)[[] := PHANTOM] else SweptTasks(tasks, n)
  }

  function EndBlock(s: State): State {
    s.(tasks := SweptBelow(s.tasks, s.nextId))
  }

  // ---- runs ----

  /** External is any bank activity outside the module. */
  datatype Event = Tx(msg: Msg) | Begin | End | External(account: Text, balance: nat)

  function Step(o: Oracle, s: State, e: Event): State {
    match e
    case Tx(m) => (match Handle(o, s, m) case Reverted => s case Committed(s') => s')
    case Begin => BeginBlock(o, s)
    case End => EndBlock(s)
    case External(a, b) => s.(accounts := s.accounts[a := b])
  }

  function Run(o: Oracle, s: State, es: seq<Event>): State
    decreases |es|
  {
    if es == [] then s else Run(o, Step(o, s, es[0]), es[1..])
  }

  /** Genesis stores parameters and the id counter only. */
  predicate Genesis(s: State) {
    s.tasks == map[] && s.workers == map[]
  }
}
