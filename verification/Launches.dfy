/** Exactly which goroutines the two hooks start on a node, for any node and any store that satisfies the invariant. */
module Launches {
  import opened Records
  import opened Decimal
  import opened Chain
  import opened Invariant
  import opened Ballots
  import opened Hooks

  // ---- BeginBlock ----

  /** The node's own worker is enabled and works on this thread. */
  predicate OwnThread(node: Node, s: State, k: Text, i: nat) {
    && node.enabled && node.workerAddress != [] && k != []
    && PointsAt(s, node.workerAddress, k, i) && s.workers[node.workerAddress].enabled
  }

  predicate MustStart(node: Node, th: Thread) {
    var row := node.row(th.threadId);
    (!th.completed && !row.downloadStarted) || (row.workStarted && node.exited(th.threadId))
  }

  predicate MustPropose(node: Node, th: Thread) {
    th.solution.None? && node.row(th.threadId).workCompleted && !node.row(th.threadId).solutionProposed
  }

  predicate MustVerify(node: Node, th: Thread) {
    th.solution.Some? && th.solution.value.proposedBy != [] && !node.row(th.threadId).verificationStarted
  }

  /** Thread i of a task in progress has this node's accepted solution, which has not been uploaded. */
  predicate MustSubmit(node: Node, s: State, k: Text, i: nat, id: Text) {
    && k in s.tasks && !s.tasks[k].completed && i < |s.tasks[k].threads|
    && var th := s.tasks[k].threads[i];
       && th.threadId == id && th.solution.Some? && th.solution.value.accepted && th.solution.value.dir == []
       && th.solution.value.proposedBy == node.workerAddress && !node.laterRow(id).submitionStarted
  }

  /** What BeginBlock starts: work, proposal and verification for the thread of the node's own worker as the hook finds
      it, and uploads for the threads as the hook leaves them. */
  ghost predicate StartedAtBegin(node: Node, s: State, s': State, l: Launch) {
    match l
    case StartWork(id) =>
      exists k, i: nat :: OwnThread(node, s, k, i) && s.tasks[k].threads[i].threadId == id
                          && MustStart(node, s.tasks[k].threads[i])
    case LaunchProposal(id) =>
      exists k, i: nat :: OwnThread(node, s, k, i) && s.tasks[k].threads[i].threadId == id
                          && MustPropose(node, s.tasks[k].threads[i])
    case LaunchVerification(id) =>
      exists k, i: nat :: OwnThread(node, s, k, i) && s.tasks[k].threads[i].threadId == id
                          && MustVerify(node, s.tasks[k].threads[i])
    case LaunchSubmission(id) => exists k, i: nat :: MustSubmit(node, s', k, i, id)
    case _ => false
  }

  lemma OwnWork(node: Node, s: State)
    requires Inv(s)
    ensures FindWork(node, s).WorkOn? <==> exists k, i: nat :: OwnThread(node, s, k, i)
    ensures forall k, i: nat :: OwnThread(node, s, k, i) ==> FindWork(node, s) == WorkOn(s.tasks[k].threads[i])
  {
    var a := node.workerAddress;
    if a in s.workers {
      assert WorkerInv(s, a);
      var w := s.workers[a];
      if FindWork(node, s).WorkOn? {
        assert OwnThread(node, s, w.currentTaskId, w.currentThreadIndex);
      }
    }
  }

  lemma OwnLaunches(node: Node, s: State, s': State, l: Launch)
    requires Inv(s) && !l.LaunchSubmission?
    ensures l in WorkLaunches(node, FindWork(node, s)) <==> StartedAtBegin(node, s, s', l)
  {
    OwnWork(node, s);
    if k, i: nat :| OwnThread(node, s, k, i) {
      var th := s.tasks[k].threads[i];
      assert FindWork(node, s) == WorkOn(th);
      assert forall x, n: nat :: OwnThread(node, s, x, n) ==> x == k && n == i;
    }
  }

  lemma {:induction false} SubmissionIn(o: Oracle, node: Node, ts: seq<Thread>, n: nat, l: Launch)
    requires n <= |ts|
    ensures l in Submissions(o, node, ts, n) <==>
            exists i: nat :: i < n && AwaitsSubmission(node, Judged(o, ts[i])) && l == LaunchSubmission(ts[i].threadId)
  {
    if n > 0 {
      SubmissionIn(o, node, ts, n - 1, l);
      assert Judged(o, ts[n - 1]).threadId == ts[n - 1].threadId;
    }
  }

  /** An accepted thread looks the same in memory and in the store. */
  lemma AcceptedInStore(o: Oracle, node: Node, t: Task, i: nat)
    requires i < |t.threads| && !t.completed
    ensures AwaitsSubmission(node, Judged(o, t.threads[i])) <==> AwaitsSubmission(node, JudgedTask(o, t).threads[i])
  {
    StoredExactlyWhen(o, t, i);
    if NewlyAccepted(o, t.threads[i]) {
      assert AcceptedFrom(o, t.threads, i);
    }
  }

  lemma UploadOf(o: Oracle, node: Node, s: State, k: Text, i: nat)
    requires k in s.tasks && !s.tasks[k].completed && i < |s.tasks[k].threads|
    ensures MustSubmit(node, BeginBlock(o, s), k, i, s.tasks[k].threads[i].threadId) <==>
            AwaitsSubmission(node, Judged(o, s.tasks[k].threads[i]))
    ensures |BeginBlock(o, s).tasks[k].threads| == |s.tasks[k].threads|
    ensures BeginBlock(o, s).tasks[k].threads[i].threadId == s.tasks[k].threads[i].threadId
  {
    assert BeginBlock(o, s).tasks[k] == JudgedTask(o, s.tasks[k]);
    AcceptedInStore(o, node, s.tasks[k], i);
    StoredExactlyWhen(o, s.tasks[k], i);
  }

  lemma TaskUploads(o: Oracle, node: Node, s: State, k: Text, id: Text)
    requires k in s.tasks
    ensures LaunchSubmission(id) in TaskLaunches(o, node, s.tasks[k]) <==>
            exists i: nat :: MustSubmit(node, BeginBlock(o, s), k, i, id)
  {
    var t, s' := s.tasks[k], BeginBlock(o, s);
    assert s'.tasks[k] == JudgedTask(o, t);
    if !t.completed {
      SubmissionIn(o, node, t.threads, |t.threads|, LaunchSubmission(id));
      forall i: nat | i < |t.threads|
        ensures MustSubmit(node, s', k, i, t.threads[i].threadId) <==> AwaitsSubmission(node, Judged(o, t.threads[i]))
        ensures s'.tasks[k].threads[i].threadId == t.threads[i].threadId
      {
        UploadOf(o, node, s, k, i);
      }
    }
  }

  lemma OnlyUploads(o: Oracle, node: Node, t: Task, l: Launch)
    ensures l in TaskLaunches(o, node, t) ==> l.LaunchSubmission?
  {
    if !t.completed {
      SubmissionIn(o, node, t.threads, |t.threads|, l);
    }
  }

  lemma AllUploads(o: Oracle, node: Node, s: State, l: Launch)
    ensures l in UnionOf(LaunchMap(o, node, s.tasks), s.tasks.Keys) <==>
            l.LaunchSubmission? && exists k, i: nat :: MustSubmit(node, BeginBlock(o, s), k, i, l.threadId)
  {
    forall k | k in s.tasks
      ensures l in LaunchMap(o, node, s.tasks)[k] <==>
              l.LaunchSubmission? && exists i: nat :: MustSubmit(node, BeginBlock(o, s), k, i, l.threadId)
    {
      OnlyUploads(o, node, s.tasks[k], l);
      if l.LaunchSubmission? {
        TaskUploads(o, node, s, k, l.threadId);
      }
    }
  }

  lemma SameWork(node: Node, s: State)
    ensures FindWork(node, s.(params := AdjustedParams(s))) == FindWork(node, s)
  {
  }

  lemma BeginSplits(o: Oracle, node: Node, s: State)
    requires Inv(s)
    ensures BeginBlockOn(o, node, s).Returned?
    ensures BeginBlockOn(o, node, s).launches ==
            WorkLaunches(node, FindWork(node, s)) + UnionOf(LaunchMap(o, node, s.tasks), s.tasks.Keys)
  {
    SameWork(node, s);
    if node.workerAddress in s.workers {
      assert WorkerInv(s, node.workerAddress);
    }
  }

  lemma NoUploadAmongWork(node: Node, work: LocalWork, l: Launch)
    ensures l in WorkLaunches(node, work) ==> !l.LaunchSubmission?
  {
  }

  /** Main result: what BeginBlock starts on a node. */
  lemma BeginLaunches(o: Oracle, node: Node, s: State, l: Launch)
    requires Inv(s)
    ensures BeginBlockOn(o, node, s).Returned?
    ensures l in BeginBlockOn(o, node, s).launches <==> StartedAtBegin(node, s, BeginBlock(o, s), l)
  {
    BeginSplits(o, node, s);
    AllUploads(o, node, s, l);
    NoUploadAmongWork(node, FindWork(node, s), l);
    if !l.LaunchSubmission? {
      OwnLaunches(node, s, BeginBlock(o, s), l);
    }
  }

  // ---- EndBlock ----

  /** Thread i of a task in progress has enough votes on this node's solution, which it has not revealed yet. */
  predicate MustReveal(node: Node, s: State, k: Text, i: nat, id: Text) {
    && k in s.tasks && !s.tasks[k].completed && i < |s.tasks[k].threads|
    && var th := s.tasks[k].threads[i];
       && th.threadId == id && th.validations != [] && th.workers != [] && !th.completed
       && (|th.validations| >= 2 || |th.validations| == |th.workers|)
       && th.solution.Some? && th.solution.value.proposedBy == node.workerAddress && !node.row(id).solutionRevealed
  }

  predicate IdleWorker(node: Node, s: State) {
    && node.enabled && node.workerAddress != [] && node.workerAddress in s.workers
    && s.workers[node.workerAddress].enabled && s.workers[node.workerAddress].currentTaskId == []
  }

  predicate HasRoom(s: State, th: Thread) { !th.completed && |th.workers| < s.params.maxWorkersPerThread }

  /** Task number n is in progress, pays the node enough and has a thread with room. */
  predicate Attracts(node: Node, s: State, n: nat) {
    && Itoa(n) in s.tasks && !s.tasks[Itoa(n)].completed && s.tasks[Itoa(n)].reward >= node.minReward
    && exists i :: 0 <= i < |s.tasks[Itoa(n)].threads| && HasRoom(s, s.tasks[Itoa(n)].threads[i])
  }

  predicate Suits(node: Node, s: State, k: Text, th: Thread) {
    HasRoom(s, th) && node.workerAddress !in th.workers && !node.subscribed(k, th.threadId)
  }

  /** Task number n is the first that attracts the node, and thread i the first of its threads that suits it. */
  predicate Chosen(node: Node, s: State, n: nat, i: nat) {
    && n < s.nextId && Attracts(node, s, n) && (forall j: nat :: j < n ==> !Attracts(node, s, j))
    && i < |s.tasks[Itoa(n)].threads| && Suits(node, s, Itoa(n), s.tasks[Itoa(n)].threads[i])
    && forall j :: 0 <= j < i ==> !Suits(node, s, Itoa(n), s.tasks[Itoa(n)].threads[j])
  }

  /** What EndBlock starts. */
  ghost predicate StartedAtEnd(node: Node, s: State, l: Launch) {
    match l
    case LaunchReveal(id) => exists k, i: nat :: MustReveal(node, s, k, i, id)
    case LaunchRegistration(a) =>
      node.enabled && a == node.workerAddress && a != [] && a !in s.workers && !node.registered
    case LaunchSubscription(k, id) =>
      IdleWorker(node, s) &&
      exists n: nat, i: nat :: Chosen(node, s, n, i) && k == Itoa(n) && id == s.tasks[k].threads[i].threadId
    case _ => false
  }

  lemma {:induction false} RevealIn(node: Node, ts: seq<Thread>, n: nat, l: Launch)
    requires n <= |ts|
    ensures l in Reveals(node, ts, n) <==>
            exists i: nat :: i < n && AwaitsReveal(node, ts[i]) && l == LaunchReveal(ts[i].threadId)
  {
    if n > 0 {
      RevealIn(node, ts, n - 1, l);
    }
  }

  lemma TaskReveals(node: Node, s: State, k: Text, l: Launch)
    requires k in s.tasks && !s.tasks[k].completed
    ensures l in Reveals(node, s.tasks[k].threads, |s.tasks[k].threads|) <==>
            l.LaunchReveal? && exists i: nat :: MustReveal(node, s, k, i, l.threadId)
  {
    var ts := s.tasks[k].threads;
    RevealIn(node, ts, |ts|, l);
    forall i: nat | i < |ts|
      ensures MustReveal(node, s, k, i, ts[i].threadId) <==> AwaitsReveal(node, ts[i])
    {
    }
  }

  ghost predicate RevealDue(node: Node, s: State, n: nat, id: Text) {
    exists j: nat, i: nat :: j < n && MustReveal(node, s, Itoa(j), i, id)
  }

  lemma DueNext(node: Node, s: State, n: nat, id: Text)
    ensures RevealDue(node, s, n + 1, id) <==>
            RevealDue(node, s, n, id) || exists i: nat :: MustReveal(node, s, Itoa(n), i, id)
  {
    if j: nat, i: nat :| j < n + 1 && MustReveal(node, s, Itoa(j), i, id) {
      assert j == n || (j < n && MustReveal(node, s, Itoa(j), i, id));
    }
    if i: nat :| MustReveal(node, s, Itoa(n), i, id) {
      assert n < n + 1 && MustReveal(node, s, Itoa(n), i, id);
    }
    if j: nat, i: nat :| j < n && MustReveal(node, s, Itoa(j), i, id) {
      assert j < n + 1 && MustReveal(node, s, Itoa(j), i, id);
    }
  }

  lemma {:induction false} RevealBelow(node: Node, s: State, n: nat, l: Launch)
    ensures l in RevealsBelow(node, s, n) <==> l.LaunchReveal? && RevealDue(node, s, n, l.threadId)
  {
    if n > 0 {
      RevealBelow(node, s, n - 1, l);
      if Running(s, Itoa(n - 1)) {
        TaskReveals(node, s, Itoa(n - 1), l);
      }
      if l.LaunchReveal? {
        DueNext(node, s, n - 1, l.threadId);
      }
    }
  }

  lemma AllReveals(node: Node, s: State, l: Launch)
    requires Inv(s)
    ensures l in RevealsBelow(node, s, s.nextId) <==>
            l.LaunchReveal? && exists k, i: nat :: MustReveal(node, s, k, i, l.threadId)
  {
    RevealBelow(node, s, s.nextId, l);
    if l.LaunchReveal? {
      if k, i: nat :| MustReveal(node, s, k, i, l.threadId) {
        assert TaskInv(s, k);
        assert MustReveal(node, s, Itoa(ParseNat(k)), i, l.threadId);
      }
    }
  }

  lemma OffersIs(node: Node, s: State, n: nat)
    ensures Offers(node, s, Itoa(n)) <==> Attracts(node, s, n)
  {
  }

  lemma FirstOffer(node: Node, s: State, n: nat)
    ensures Pending(node, s, 0) == Some(Itoa(n)) <==>
            n < s.nextId && Attracts(node, s, n) && forall j: nat :: j < n ==> !Attracts(node, s, j)
  {
    PendingExactlyWhen(node, s, 0, n);
    OffersIs(node, s, n);
    forall j: nat
      ensures Offers(node, s, Itoa(j)) <==> Attracts(node, s, j)
    {
      OffersIs(node, s, j);
    }
  }

  lemma {:induction false} FirstSuiting(node: Node, s: State, t: Task, a: Text, i: nat, l: Launch)
    requires a == node.workerAddress
    ensures l in Subscription(node, s, t, a, i) <==>
            exists n: nat :: i <= n < |t.threads| && Suits(node, s, t.taskId, t.threads[n])
                        && (forall j :: i <= j < n ==> !Suits(node, s, t.taskId, t.threads[j]))
                        && l == LaunchSubscription(t.taskId, t.threads[n].threadId)
    decreases |t.threads| - i
  {
    if i < |t.threads| && !Joinable(node, s, t, t.threads[i], a) {
      FirstSuiting(node, s, t, a, i + 1, l);
      assert !Suits(node, s, t.taskId, t.threads[i]);
    }
  }

  lemma SubscriptionChosen(node: Node, s: State, n: nat, l: Launch)
    requires Inv(s) && Pending(node, s, 0) == Some(Itoa(n))
    ensures l in Subscription(node, s, s.tasks[Itoa(n)], node.workerAddress, 0) <==>
            exists i: nat :: Chosen(node, s, n, i) &&
                             l == LaunchSubscription(Itoa(n), s.tasks[Itoa(n)].threads[i].threadId)
  {
    FirstOffer(node, s, n);
    assert TaskInv(s, Itoa(n));
    FirstSuiting(node, s, s.tasks[Itoa(n)], node.workerAddress, 0, l);
    forall i: nat
      ensures Chosen(node, s, n, i) <==>
              && i < |s.tasks[Itoa(n)].threads| && Suits(node, s, Itoa(n), s.tasks[Itoa(n)].threads[i])
              && forall j :: 0 <= j < i ==> !Suits(node, s, Itoa(n), s.tasks[Itoa(n)].threads[j])
    {
    }
  }

  lemma NothingChosen(node: Node, s: State)
    requires Pending(node, s, 0).None?
    ensures forall n: nat, i: nat :: !Chosen(node, s, n, i)
  {
    forall n: nat, i: nat
      ensures !Chosen(node, s, n, i)
    {
      FirstOffer(node, s, n);
    }
  }

  lemma {:induction false} PendingNumber(node: Node, s: State, i: nat) returns (n: nat)
    requires Pending(node, s, i).Some?
    ensures Pending(node, s, i) == Some(Itoa(n))
    decreases s.nextId - i
  {
    if Offers(node, s, Itoa(i)) {
      n := i;
    } else {
      n := PendingNumber(node, s, i + 1);
    }
  }

  lemma JoinStarted(node: Node, s: State, l: Launch)
    requires Inv(s) && IdleWorker(node, s) && l.LaunchSubscription?
    ensures l in JoinLaunches(node, s) <==> StartedAtEnd(node, s, l)
  {
    assert WorkerInv(s, node.workerAddress);
    if Pending(node, s, 0).None? {
      NothingChosen(node, s);
    } else {
      var n := PendingNumber(node, s, 0);
      SubscriptionChosen(node, s, n, l);
      forall x: nat, i: nat | Chosen(node, s, x, i)
        ensures x == n
      {
        FirstOffer(node, s, n);
        FirstOffer(node, s, x);
        ItoaInjective(x, n);
      }
    }
  }

  lemma JoinKinds(node: Node, s: State, l: Launch)
    ensures l in JoinLaunches(node, s) ==> l.LaunchRegistration? || l.LaunchSubscription?
    ensures l in JoinLaunches(node, s) && l.LaunchSubscription? ==> IdleWorker(node, s)
  {
    if Pending(node, s, 0).Some? && Pending(node, s, 0).value in s.tasks {
      OnlySubscriptions(node, s, s.tasks[Pending(node, s, 0).value], WorkerAt(s, node.workerAddress).address, 0, l);
    }
  }

  lemma {:induction false} OnlySubscriptions(node: Node, s: State, t: Task, a: Text, i: nat, l: Launch)
    ensures l in Subscription(node, s, t, a, i) ==> l.LaunchSubscription?
    decreases |t.threads| - i
  {
    if i < |t.threads| && !Joinable(node, s, t, t.threads[i], a) {
      OnlySubscriptions(node, s, t, a, i + 1, l);
    }
  }

  lemma RegistrationStarted(node: Node, s: State, l: Launch)
    requires Inv(s) && l.LaunchRegistration?
    ensures l in JoinLaunches(node, s) <==> StartedAtEnd(node, s, l)
  {
    if node.workerAddress in s.workers {
      assert WorkerInv(s, node.workerAddress);
    }
    if Pending(node, s, 0).Some? && Pending(node, s, 0).value in s.tasks {
      OnlySubscriptions(node, s, s.tasks[Pending(node, s, 0).value], WorkerAt(s, node.workerAddress).address, 0, l);
    }
  }

  /** Main result: what EndBlock starts on a node. */
  lemma EndLaunches(node: Node, s: State, l: Launch)
    requires Inv(s)
    ensures EndBlockOn(node, s).Returned?
    ensures l in EndBlockOn(node, s).launches <==> StartedAtEnd(node, s, l)
  {
    EndBlockAgrees(node, s);
    AllReveals(node, s, l);
    JoinKinds(node, s, l);
    if l.LaunchRegistration? {
      RegistrationStarted(node, s, l);
    } else if l.LaunchSubscription? && IdleWorker(node, s) {
      JoinStarted(node, s, l);
    }
  }
}
