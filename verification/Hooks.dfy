/** BeginBlock and EndBlock as a particular node runs them (module/module.go): what depends on the node's
    configuration, database, containers and files, and why the chain state does not. */
module Hooks {
  import opened Records
  import opened Decimal
  import opened Chain
  import opened Invariant

  /** A row of the node's local thread table. */
  datatype Row = Row(downloadStarted: bool, workStarted: bool, workCompleted: bool, solutionProposed: bool,
                     verificationStarted: bool, solutionRevealed: bool, submitionStarted: bool)

  /** Everything local a hook reads. Rows read after work was launched may differ from those read before. */
  datatype Node = Node(enabled: bool, workerAddress: Text, minReward: int, registered: bool,
                       row: Text -> Row, laterRow: Text -> Row, exited: Text -> bool,
                       subscribed: (Text, Text) -> bool)

  /** The goroutines a hook starts; each can only talk to the chain through later messages. */
  datatype Launch =
    | StartWork(threadId: Text)
    | LaunchProposal(threadId: Text)
    | LaunchVerification(threadId: Text)
    | LaunchSubmission(threadId: Text)
    | LaunchReveal(threadId: Text)
    | LaunchRegistration(address: Text)
    | LaunchSubscription(taskId: Text, threadId: Text)

  datatype HookResult = Panicked | Returned(state: State, launches: set<Launch>)

  const NO_WORKER: Worker := Worker([], Reputation(0, 0, 0, 0, 0, []), false, [], 0, [], [])

  /** Workers.Get with its error dropped. */
  function WorkerAt(s: State, a: Text): Worker { if a in s.workers then s.workers[a] else NO_WORKER }

  predicate Configured(node: Node) { node.enabled && node.workerAddress != [] }

  // ---- BeginBlock ----

  datatype LocalWork = Nothing | TaskMissing | IndexOutOfRange | WorkOn(thread: Thread)

  /** What the node finds for its own worker. */
  function FindWork(node: Node, s: State): LocalWork {
    var w := WorkerAt(s, node.workerAddress);
    if !Configured(node) || !w.enabled || w.currentTaskId == [] then Nothing
    else if w.currentTaskId !in s.tasks then TaskMissing
    else if !(0 <= w.currentThreadIndex < |s.tasks[w.currentTaskId].threads|) then IndexOutOfRange
    else WorkOn(s.tasks[w.currentTaskId].threads[w.currentThreadIndex])
  }

  function WorkLaunches(node: Node, work: LocalWork): set<Launch> {
    if !work.WorkOn? then {}
    else
      var th := work.thread;
      var row := node.row(th.threadId);
      (if (!th.completed && !row.downloadStarted) || (row.workStarted && node.exited(th.threadId))
       then {StartWork(th.threadId)} else {})
      + (if th.solution.None? && row.workCompleted && !row.solutionProposed then {LaunchProposal(th.threadId)} else {})
      + (if th.solution.Some? && th.solution.value.proposedBy != [] && !row.verificationStarted
         then {LaunchVerification(th.threadId)} else {})
  }

  /** An accepted solution of this node that has no directory yet. */
  predicate AwaitsSubmission(node: Node, th: Thread) {
    && th.solution.Some? && th.solution.value.accepted && th.solution.value.dir == []
    && th.solution.value.proposedBy == node.workerAddress && !node.laterRow(th.threadId).submitionStarted
  }

  function Submission(node: Node, th: Thread): set<Launch> {
    if AwaitsSubmission(node, th) then {LaunchSubmission(th.threadId)} else {}
  }

  /** For the first n threads, as judged. */
  function Submissions(o: Oracle, node: Node, ts: seq<Thread>, n: nat): set<Launch>
    requires n <= |ts|
  {
    if n == 0 then {} else Submissions(o, node, ts, n - 1) + Submission(node, Judged(o, ts[n - 1]))
  }

  function TaskLaunches(o: Oracle, node: Node, t: Task): set<Launch> {
    if t.completed then {} else Submissions(o, node, t.threads, |t.threads|)
  }

  function LaunchMap(o: Oracle, node: Node, tasks: map<Text, Task>): map<Text, set<Launch>> {
    map k | k in tasks :: TaskLaunches(o, node, tasks[k])
  }

  ghost function UnionOf<K(!new), V(!new)>(m: map<K, set<V>>, keys: set<K>): set<V> {
    set k, l | k in keys && k in m && l in m[k] :: l
  }

  /** The missing-task branch returns before the walk over the tasks. */
  ghost function BeginBlockOn(o: Oracle, node: Node, s: State): HookResult {
    var s' := s.(params := AdjustedParams(s));
    match FindWork(node, s')
    case IndexOutOfRange => Panicked
    case TaskMissing => Returned(s', {})
    case work => Returned(BeginBlock(o, s), WorkLaunches(node, work) + UnionOf(LaunchMap(o, node, s.tasks), s.tasks.Keys))
  }

  // ---- EndBlock ----

  predicate Offers(node: Node, s: State, k: Text) {
    && k in s.tasks && !s.tasks[k].completed && s.tasks[k].reward >= node.minReward
    && exists i :: 0 <= i < |s.tasks[k].threads| && Open(s.tasks[k].threads[i], s.params.maxWorkersPerThread)
  }

  /** getPendingVideoUpscalerTask: the lowest id from i on that offers this node work. */
  function Pending(node: Node, s: State, i: nat): (found: Option<Text>)
    ensures found.Some? ==> Offers(node, s, found.value)
    decreases s.nextId - i
  {
    if i >= s.nextId then None
    else if Offers(node, s, Itoa(i)) then Some(Itoa(i))
    else Pending(node, s, i + 1)
  }

  /** No number from i to n offers work. */
  predicate NoOffer(node: Node, s: State, i: nat, n: nat) {
    forall j: nat :: i <= j < n ==> !Offers(node, s, Itoa(j))
  }

  lemma NoOfferFrom(node: Node, s: State, i: nat, n: nat)
    requires i < n
    ensures NoOffer(node, s, i, n) <==> !Offers(node, s, Itoa(i)) && NoOffer(node, s, i + 1, n)
  {
    if !Offers(node, s, Itoa(i)) && NoOffer(node, s, i + 1, n) {
      forall j: nat | i <= j < n
        ensures !Offers(node, s, Itoa(j))
      {
        if j > i {
          assert !Offers(node, s, Itoa(j));
        }
      }
    }
  }

  /** The id found is that of number n exactly when n offers work and no number before it does; nothing is found exactly
      when no number offers any. */
  lemma {:induction false} PendingExactlyWhen(node: Node, s: State, i: nat, n: nat)
    requires i <= n
    ensures Pending(node, s, i) == Some(Itoa(n)) <==>
            n < s.nextId && Offers(node, s, Itoa(n)) && NoOffer(node, s, i, n)
    ensures Pending(node, s, i).None? <==> NoOffer(node, s, i, s.nextId)
    decreases s.nextId - i
  {
    if i < s.nextId {
      NoOfferFrom(node, s, i, s.nextId);
      if i < n {
        NoOfferFrom(node, s, i, n);
      }
      if !Offers(node, s, Itoa(i)) {
        PendingExactlyWhen(node, s, i + 1, if i < n then n else i + 1);
      } else if Itoa(i) == Itoa(n) {
        ItoaInjective(i, n);
      }
    }
  }

  predicate Joinable(node: Node, s: State, t: Task, th: Thread, a: Text) {
    Open(th, s.params.maxWorkersPerThread) && a !in th.workers && !node.subscribed(t.taskId, th.threadId)
  }

  function Subscription(node: Node, s: State, t: Task, a: Text, i: nat): set<Launch>
    decreases |t.threads| - i
  {
    if i >= |t.threads| then {}
    else if Joinable(node, s, t, t.threads[i], a) then {LaunchSubscription(t.taskId, t.threads[i].threadId)}
    else Subscription(node, s, t, a, i + 1)
  }

  function JoinLaunches(node: Node, s: State): set<Launch> {
    var w := WorkerAt(s, node.workerAddress);
    if !Configured(node) then {}
    else
      (if w.address == [] && !node.registered then {LaunchRegistration(node.workerAddress)} else {})
      + (if w.enabled && w.currentTaskId == [] && Pending(node, s, 0).Some? && Pending(node, s, 0).value in s.tasks
         then Subscription(node, s, s.tasks[Pending(node, s, 0).value], w.address, 0) else {})
  }

  /** EndBlock looks at who proposed the solution of such a thread, without checking that there is one. */
  predicate Validated(th: Thread) {
    && |th.validations| > 0 && |th.workers| > 0
    && (|th.validations| > 1 || |th.validations| == |th.workers|) && !th.completed
  }

  predicate AwaitsReveal(node: Node, th: Thread) {
    Validated(th) && Proposer(th, node.workerAddress) && !node.row(th.threadId).solutionRevealed
  }

  /** For the first n threads. */
  function Reveals(node: Node, ts: seq<Thread>, n: nat): set<Launch>
    requires n <= |ts|
  {
    if n == 0 then {}
    else Reveals(node, ts, n - 1) + if AwaitsReveal(node, ts[n - 1]) then {LaunchReveal(ts[n - 1].threadId)} else {}
  }

  /** For the tasks with an id below n. */
  function RevealsBelow(node: Node, s: State, n: nat): set<Launch> {
    if n == 0 then {}
    else
      RevealsBelow(node, s, n - 1)
      + if Running(s, Itoa(n - 1))
        then Reveals(node, s.tasks[Itoa(n - 1)].threads, |s.tasks[Itoa(n - 1)].threads|) else {}
  }

  predicate Dereferences(t: Task) {
    !t.completed && exists i :: 0 <= i < |t.threads| && Validated(t.threads[i]) && t.threads[i].solution.None?
  }

  function EndBlockOn(node: Node, s: State): HookResult {
    if exists k :: k in s.tasks && IsId(k, s.nextId) && Dereferences(s.tasks[k]) then Panicked
    else
      Returned(EndBlock(s), JoinLaunches(node, s) + RevealsBelow(node, s, s.nextId))
  }

  // ---- node independence ----

  lemma BeginBlockAgrees(o: Oracle, node: Node, s: State)
    requires Inv(s)
    ensures BeginBlockOn(o, node, s).Returned? && BeginBlockOn(o, node, s).state == BeginBlock(o, s)
  {
    if node.workerAddress in s.workers {
      assert WorkerInv(s, node.workerAddress);
    }
  }

  /** A thread that has votes has a solution. */
  lemma NothingDereferenced(s: State, k: Text)
    requires Inv(s) && k in s.tasks
    ensures !Dereferences(s.tasks[k])
  {
    assert TaskInv(s, k);
    assert forall i :: 0 <= i < |s.tasks[k].threads| && k != [] ==>
      ThreadInv(s.tasks[k].threads[i], k, i, s.params.maxWorkersPerThread, s.workers.Keys);
  }

  lemma EndBlockAgrees(node: Node, s: State)
    requires Inv(s)
    ensures EndBlockOn(node, s).Returned? && EndBlockOn(node, s).state == EndBlock(s)
  {
    forall k | k in s.tasks
      ensures !Dereferences(s.tasks[k])
    {
      NothingDereferenced(s, k);
    }
  }

  /** From any reachable state, two nodes with any configuration, database, containers and files compute the same next
      state in both hooks, and neither hook panics. */
  lemma NodeIndependence(o: Oracle, genesis: State, es: seq<Event>, node: Node, node': Node)
    requires Genesis(genesis)
    ensures var s := Run(o, genesis, es);
            && BeginBlockOn(o, node, s).Returned? && BeginBlockOn(o, node', s).Returned?
            && BeginBlockOn(o, node, s).state == BeginBlockOn(o, node', s).state
    ensures var s := Run(o, genesis, es);
            && EndBlockOn(node, s).Returned? && EndBlockOn(node', s).Returned?
            && EndBlockOn(node, s).state == EndBlockOn(node', s).state
  {
    ReachableInv(o, genesis, es);
    var s := Run(o, genesis, es);
    BeginBlockAgrees(o, node, s);
    BeginBlockAgrees(o, node', s);
    EndBlockAgrees(node, s);
    EndBlockAgrees(node', s);
  }

  /** In a state outside the invariant the hook is safe on every node exactly when every enabled worker's pointer
      selects a thread of a stored task. */
  lemma SafeOnEveryNode(s: State)
    ensures (forall node :: !FindWork(node, s).TaskMissing? && !FindWork(node, s).IndexOutOfRange?) <==>
            forall a :: a in s.workers && a != [] && s.workers[a].enabled && s.workers[a].currentTaskId != [] ==>
              PointsAt(s, a, s.workers[a].currentTaskId, s.workers[a].currentThreadIndex)
  {
    if forall node :: !FindWork(node, s).TaskMissing? && !FindWork(node, s).IndexOutOfRange? {
      forall a | a in s.workers && a != [] && s.workers[a].enabled && s.workers[a].currentTaskId != []
        ensures PointsAt(s, a, s.workers[a].currentTaskId, s.workers[a].currentThreadIndex)
      {
        var row := Row(false, false, false, false, false, false, false);
        var node := Node(true, a, 0, true, _ => row, _ => row, _ => false, (_, _) => false);
        assert !FindWork(node, s).TaskMissing? && !FindWork(node, s).IndexOutOfRange?;
      }
    }
  }
}
