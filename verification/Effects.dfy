/** What each message does, seen from outside: when it is accepted, what it changes and what it leaves alone
    (keeper/msg_server.go). */
module Effects {
  import opened Records
  import opened Decimal
  import opened FrameSplit
  import opened Rewards
  import opened CliFormat
  import opened Tally
  import opened Reveal
  import opened Chain
  import opened Invariant

  // ---- vocabulary ----

  /** Thread i of task k has this id. */
  predicate Named(s: State, k: Text, i: nat, id: Text) {
    k in s.tasks && i < |s.tasks[k].threads| && s.tasks[k].threads[i].threadId == id
  }

  predicate SameBank(s: State, s': State) { s'.accounts == s.accounts && s'.vault == s.vault }

  predicate SameCounters(s: State, s': State) { s'.params == s.params && s'.nextId == s.nextId }

  /** Of all tasks at most thread i of task k is another. */
  predicate OnlyThread(s: State, s': State, k: Text, i: nat) {
    && k in s.tasks && i < |s.tasks[k].threads|
    && s'.tasks.Keys == s.tasks.Keys && (forall x :: x in s.tasks && x != k ==> s'.tasks[x] == s.tasks[x])
    && s'.tasks[k] == s.tasks[k].(threads := s'.tasks[k].threads) && |s'.tasks[k].threads| == |s.tasks[k].threads|
    && forall j :: 0 <= j < |s.tasks[k].threads| && j != i ==> s'.tasks[k].threads[j] == s.tasks[k].threads[j]
  }

  /** Of all workers at most a is another. */
  predicate OnlyWorker(s: State, s': State, a: Text) {
    && a in s.workers && s'.workers.Keys == s.workers.Keys
    && forall b :: b in s.workers && b != a ==> s'.workers[b] == s.workers[b]
  }

  ghost predicate OthersKeep(s: State, s': State, a: Text) {
    forall b: Text :: b != a ==> Balance(s', b) == Balance(s, b)
  }

  /** The amount went from a's account to the module's, if a had it. */
  ghost predicate PaidIn(s: State, s': State, a: Text, amount: nat) {
    && OthersKeep(s, s', a)
    && if Balance(s, a) >= amount
       then Balance(s', a) == Balance(s, a) - amount && s'.vault == s.vault + amount
       else Balance(s', a) == Balance(s, a) && s'.vault == s.vault
  }

  /** It went from the module's account to a's, if the module had it. */
  ghost predicate PaidOut(s: State, s': State, a: Text, amount: nat) {
    && OthersKeep(s, s', a)
    && if s.vault >= amount
       then Balance(s', a) == Balance(s, a) + amount && s'.vault == s.vault - amount
       else Balance(s', a) == Balance(s, a) && s'.vault == s.vault
  }

  /** The frames are the lines, name and signature split at the first "=". */
  predicate Spelled(lines: seq<Text>, frames: seq<Frame>) {
    && |frames| == |lines|
    && forall j :: 0 <= j < |lines| ==>
         && lines[j] == frames[j].filename + [EQUALS] + frames[j].signature && EQUALS !in frames[j].filename
         && frames[j].cid == [] && frames[j].hash == [] && frames[j].validCount == 0 && frames[j].invalidCount == 0
  }

  predicate AllSplit(lines: seq<Text>) { forall j :: 0 <= j < |lines| ==> EQUALS in lines[j] }

  lemma LinesSpelled(lines: seq<Text>)
    ensures ProposedFrames(lines).Some? <==> AllSplit(lines)
    ensures ProposedFrames(lines).Some? ==> Spelled(lines, ProposedFrames(lines).value)
  {
  }

  /** The thread a message finds is the one of that id. */
  lemma FoundThread(s: State, k: Text, id: Text)
    requires Inv(s) && k in s.tasks
    ensures var n := ThreadIndex(s.tasks[k].threads, id); forall i: nat :: Named(s, k, i, id) <==> i == n
  {
    forall i: nat | Named(s, k, i, id)
      ensures i == ThreadIndex(s.tasks[k].threads, id)
    {
      UniqueThread(s, k, i);
    }
  }

  // ---- creating a task ----

  lemma CreateCommits(o: Oracle, s: State, m: Msg)
    requires m.MsgCreateTask?
    ensures Handle(o, s, m).Committed? <==> o.validCid(m.cid) && m.threads > 0 && m.reward.Some?
  {
  }

  /** Thread i of a task nobody has worked on. */
  predicate Untouched(th: Thread, id: Text, i: nat) {
    && th.threadId == id + Itoa(i) && th.taskId == id && th.scale == 0 && !th.completed && th.workers == []
    && th.solution.None? && th.validations == [] && th.averageRenderSeconds == 0
  }

  /** The ranges follow one another from the first frame; each is the quotient long, the first `remainder` one
      longer. */
  predicate Divided(ts: seq<Thread>, startFrame: int, endFrame: int)
    requires ts != []
  {
    var total, n := endFrame - startFrame + 1, |ts|;
    && ts[0].startFrame == startFrame
    && (forall i :: 0 <= i < n - 1 ==> ts[i + 1].startFrame == ts[i].endFrame + 1)
    && forall i :: 0 <= i < n ==>
         ts[i].endFrame - ts[i].startFrame + 1 == Quo(total, n) + if i < Rem(total, n) then 1 else 0
  }

  lemma NewThreadsDivided(id: Text, startFrame: int, endFrame: int, n: nat)
    requires n > 0
    ensures Divided(NewThreads(id, startFrame, endFrame, n), startFrame, endFrame)
  {
    forall i: nat | i < n
      ensures var th := NewThreads(id, startFrame, endFrame, n)[i];
              var total := endFrame - startFrame + 1;
              th.endFrame - th.startFrame + 1 == Quo(total, n) + if i < Rem(total, n) then 1 else 0
    {
      StartStep(startFrame, endFrame, n, i);
    }
  }

  /** One task is added under the next number, with what the message says; its creator pays the reward if it can. */
  lemma CreateEffect(o: Oracle, s: State, m: Msg)
    requires Inv(s) && m.MsgCreateTask? && Handle(o, s, m).Committed?
    ensures var s', id := Handle(o, s, m).state, Itoa(s.nextId);
            && id !in s.tasks && s'.tasks.Keys == s.tasks.Keys + {id}
            && (forall k :: k in s.tasks ==> s'.tasks[k] == s.tasks[k])
            && var t := s'.tasks[id];
               && t == Task(id, m.creator, m.cid, m.startFrame, m.endFrame, m.threads, m.scale, false, m.reward.value,
                            t.threads)
               && |t.threads| == m.threads && Divided(t.threads, m.startFrame, m.endFrame)
               && forall i: nat :: i < m.threads ==> Untouched(t.threads[i], id, i)
    ensures var s' := Handle(o, s, m).state;
            && s'.params == s.params && s'.nextId == s.nextId + 1 && s'.workers == s.workers
            && PaidIn(s, s', m.creator, m.reward.value)
  {
    IdOf(s.nextId, s.nextId);
    assert Itoa(s.nextId) in s.tasks ==> TaskInv(s, Itoa(s.nextId));
    NewThreadsDivided(Itoa(s.nextId), m.startFrame, m.endFrame, m.threads);
  }

  // ---- registering a worker ----

  lemma AddWorkerCommits(o: Oracle, s: State, m: Msg)
    requires m.MsgAddWorker?
    ensures Handle(o, s, m).Committed? <==>
            && m.creator !in s.workers && m.stakeDenom == s.params.stakeDenom
            && s.params.minWorkerStaking <= m.stake <= Balance(s, m.creator)
  {
  }

  /** One idle, enabled worker is added, with what the message says and nothing earned; its stake is paid in. */
  lemma AddWorkerEffect(o: Oracle, s: State, m: Msg)
    requires m.MsgAddWorker? && Handle(o, s, m).Committed?
    ensures var s' := Handle(o, s, m).state;
            && s'.workers.Keys == s.workers.Keys + {m.creator}
            && (forall a :: a in s.workers ==> s'.workers[a] == s.workers[a])
            && s'.workers[m.creator] ==
               Worker(m.creator, Reputation(m.stake, 0, 0, 0, 0, []), true, [], 0, m.publicIp, m.ipfsId)
            && s'.tasks == s.tasks && SameCounters(s, s') && PaidIn(s, s', m.creator, m.stake)
  {
  }

  // ---- subscribing ----

  lemma SubscribeCommits(o: Oracle, s: State, m: Msg)
    requires m.MsgSubscribe?
    ensures Handle(o, s, m).Committed? <==>
            && m.creator in s.workers && s.workers[m.creator].enabled
            && m.taskId in s.tasks && !s.tasks[m.taskId].completed
  {
  }

  /** The message lets its sender join thread i. */
  predicate Joins(s: State, m: Msg, i: nat)
    requires m.MsgSubscribe?
  {
    && Named(s, m.taskId, i, m.threadId)
    && var th := s.tasks[m.taskId].threads[i];
       |th.workers| < s.params.maxWorkersPerThread && !th.completed && m.creator !in th.workers
  }

  /** What joining thread i does. */
  predicate HasJoined(s: State, s': State, m: Msg, i: nat)
    requires m.MsgSubscribe? && Joins(s, m, i) && m.creator in s.workers
  {
    && OnlyThread(s, s', m.taskId, i) && OnlyWorker(s, s', m.creator)
    && s'.tasks[m.taskId].threads[i] ==
       s.tasks[m.taskId].threads[i].(workers := s.tasks[m.taskId].threads[i].workers + [m.creator])
    && s'.workers[m.creator] == s.workers[m.creator].(currentTaskId := m.taskId, currentThreadIndex := i)
  }

  lemma JoinedStore(o: Oracle, s: State, m: Msg, i: nat)
    requires Inv(s) && m.MsgSubscribe? && Handle(o, s, m).Committed? && Joins(s, m, i)
    ensures HasJoined(s, Handle(o, s, m).state, m, i)
  {
    UniqueThread(s, m.taskId, i);
    assert TaskInv(s, m.taskId) && WorkerInv(s, m.creator);
  }

  /** The sender is added at the end of the list of the thread it joins and points at it; otherwise nothing happens. */
  lemma SubscribeEffect(o: Oracle, s: State, m: Msg)
    requires Inv(s) && m.MsgSubscribe? && Handle(o, s, m).Committed?
    ensures var s' := Handle(o, s, m).state;
            && SameCounters(s, s') && SameBank(s, s')
            && (forall i: nat :: Joins(s, m, i) ==> HasJoined(s, s', m, i))
            && ((forall i: nat :: !Joins(s, m, i)) ==> s' == s)
  {
    forall i: nat | Joins(s, m, i)
      ensures HasJoined(s, Handle(o, s, m).state, m, i)
    {
      JoinedStore(o, s, m, i);
    }
    var n := ThreadIndex(s.tasks[m.taskId].threads, m.threadId);
    assert WorkerInv(s, m.creator);
    assert Handle(o, s, m).state != s ==> Joins(s, m, n);
  }

  // ---- proposing ----

  /** The thread takes this proposal. */
  predicate TakesProposal(o: Oracle, th: Thread, m: Msg)
    requires m.MsgPropose?
  {
    && th.solution.None? && m.creator in th.workers && |m.signatures| == th.endFrame - th.startFrame + 1
    && AllSplit(m.signatures) && o.keyDecodes(m.publicKey)
  }

  lemma ProposeCommits(o: Oracle, s: State, m: Msg)
    requires Inv(s) && m.MsgPropose?
    ensures Handle(o, s, m).Committed? <==>
            && m.creator in s.workers && s.workers[m.creator].enabled
            && m.taskId in s.tasks && !s.tasks[m.taskId].completed
            && forall i: nat :: Named(s, m.taskId, i, m.threadId) ==>
                 TakesProposal(o, s.tasks[m.taskId].threads[i], m)
  {
    LinesSpelled(m.signatures);
    if m.taskId in s.tasks {
      FoundThread(s, m.taskId, m.threadId);
      var n := ThreadIndex(s.tasks[m.taskId].threads, m.threadId);
      assert n >= 0 ==> Named(s, m.taskId, n, m.threadId);
    }
  }

  /** The named thread, and nothing else, gets the sender's solution: its key, its lines, not accepted. */
  lemma ProposeEffect(o: Oracle, s: State, m: Msg)
    requires Inv(s) && m.MsgPropose? && Handle(o, s, m).Committed?
    ensures var s' := Handle(o, s, m).state;
            && SameCounters(s, s') && SameBank(s, s') && s'.workers == s.workers
            && (forall i: nat :: Named(s, m.taskId, i, m.threadId) ==>
                  && OnlyThread(s, s', m.taskId, i)
                  && var th' := s'.tasks[m.taskId].threads[i];
                     && th' == s.tasks[m.taskId].threads[i].(solution := th'.solution) && th'.solution.Some?
                     && var sol := th'.solution.value;
                        && sol == Solution(m.creator, sol.frames, m.publicKey, [], false)
                        && Spelled(m.signatures, sol.frames))
            && ((forall i: nat :: !Named(s, m.taskId, i, m.threadId)) ==> s' == s)
  {
    LinesSpelled(m.signatures);
    FoundThread(s, m.taskId, m.threadId);
    var n := ThreadIndex(s.tasks[m.taskId].threads, m.threadId);
    assert n >= 0 ==> Named(s, m.taskId, n, m.threadId);
  }

  // ---- validating ----

  /** The sender's pointer selects the named thread. */
  predicate WorksOn(s: State, a: Text, k: Text, i: int, id: Text) {
    && a in s.workers && s.workers[a].currentTaskId == k && s.workers[a].currentThreadIndex == i && i >= 0
    && Named(s, k, i, id)
  }

  lemma ValidateCommits(o: Oracle, s: State, m: Msg)
    requires Inv(s) && m.MsgValidate?
    ensures Handle(o, s, m).Committed? <==>
            && m.creator in s.workers && s.workers[m.creator].enabled && AllSplit(m.signatures)
            && m.taskId in s.tasks && !s.tasks[m.taskId].completed
            && var i := s.workers[m.creator].currentThreadIndex;
               WorksOn(s, m.creator, m.taskId, i, m.threadId) && s.tasks[m.taskId].threads[i].solution.Some?
  {
    LinesSpelled(m.signatures);
    if m.creator in s.workers && m.taskId in s.tasks {
      assert WorkerInv(s, m.creator) && TaskInv(s, m.taskId);
    }
  }

  /** The worker's place in the list, counted from 0, is odd. */
  predicate AtOddPlace(ws: seq<Text>, a: Text) { exists i :: 0 <= i < |ws| && i % 2 == 1 && ws[i] == a }

  lemma OddPlaceIs(ws: seq<Text>, a: Text)
    requires Distinct(ws)
    ensures OddPlace(ws, a) <==> AtOddPlace(ws, a)
  {
  }

  /** The thread the sender works on, and nothing else of any task, gets one more validation: the sender's, with the
      message's key and lines. The sender is released unless it proposed the solution. */
  lemma ValidateEffect(o: Oracle, s: State, m: Msg)
    requires Inv(s) && m.MsgValidate? && Handle(o, s, m).Committed?
    ensures var s', i := Handle(o, s, m).state, s.workers[m.creator].currentThreadIndex;
            && SameCounters(s, s') && SameBank(s, s') && OnlyThread(s, s', m.taskId, i) && OnlyWorker(s, s', m.creator)
            && var th, th' := s.tasks[m.taskId].threads[i], s'.tasks[m.taskId].threads[i];
               && |th'.validations| == |th.validations| + 1 && th'.validations[..|th.validations|] == th.validations
               && th' == th.(validations := th'.validations)
               && s'.workers[m.creator] ==
                  (if th.solution.value.proposedBy == m.creator then s.workers[m.creator]
                   else s.workers[m.creator].(currentTaskId := [], currentThreadIndex := 0))
               && var v := th'.validations[|th.validations|];
                  && v.validator == m.creator && v.publicKey == m.publicKey && Spelled(m.signatures, v.frames)
                  && (v.isReverse <==> AtOddPlace(th.workers, m.creator))
  {
    LinesSpelled(m.signatures);
    assert WorkerInv(s, m.creator) && TaskInv(s, m.taskId);
    var th := s.tasks[m.taskId].threads[s.workers[m.creator].currentThreadIndex];
    OddPlaceIs(th.workers, m.creator);
  }

  // ---- revealing ----

  /** The entry reads name=cid:hash, with no other separator. */
  predicate Shows(entry: Text, name: Text, cid: Text, hash: Text) {
    && entry == name + [EQUALS] + (cid + [COLON] + hash)
    && EQUALS !in name && EQUALS !in cid && EQUALS !in hash && COLON !in cid && COLON !in hash
  }

  /** Entry n is the last one for this name. */
  ghost predicate Decides(entries: seq<Text>, n: int, name: Text, cid: Text, hash: Text) {
    && 0 <= n < |entries| && Shows(entries[n], name, cid, hash)
    && forall k, c, h :: n < k < |entries| ==> !Shows(entries[k], name, c, h)
  }

  lemma ShowsParsed(entry: Text, name: Text, cid: Text, hash: Text)
    ensures Shows(entry, name, cid, hash) <==> ParseEntry(entry) == Some(Revealed(name, cid, hash))
  {
    if Shows(entry, name, cid, hash) {
      EntryParses(name, Revealed(name, cid, hash));
    }
  }

  lemma ParsedShows(entry: Text)
    requires ParseEntry(entry).Some?
    ensures var f := ParseEntry(entry).value;
            f == Revealed(f.filename, f.cid, f.hash) && Shows(entry, f.filename, f.cid, f.hash)
  {
    var f := ParseEntry(entry).value;
    ShowsParsed(entry, f.filename, f.cid, f.hash);
  }

  lemma {:induction false} ShownIsGiven(entries: seq<Text>, n: nat, name: Text, cid: Text, hash: Text)
    requires n < |entries| && Shows(entries[n], name, cid, hash)
    ensures name in FramesOf(entries)
  {
    var last := |entries| - 1;
    if n < last {
      ShownIsGiven(entries[..last], n, name, cid, hash);
    } else {
      ShowsParsed(entries[n], name, cid, hash);
    }
  }

  lemma DecidesLonger(front: seq<Text>, last: Text, n: int, name: Text, cid: Text, hash: Text)
    requires Decides(front, n, name, cid, hash) && forall c, h :: !Shows(last, name, c, h)
    ensures Decides(front + [last], n, name, cid, hash)
  {
  }

  lemma OtherName(entry: Text, name: Text, c: Text, h: Text)
    requires ParseEntry(entry).None? || ParseEntry(entry).value.filename != name
    ensures !Shows(entry, name, c, h)
  {
    ShowsParsed(entry, name, c, h);
  }

  /** A name given has a last entry, and what it says. */
  lemma {:induction false} LastEntryWins(entries: seq<Text>, name: Text) returns (n: int)
    requires name in FramesOf(entries)
    ensures Decides(entries, n, name, FramesOf(entries)[name].cid, FramesOf(entries)[name].hash)
  {
    var front, last := entries[..|entries| - 1], entries[|entries| - 1];
    if ParseEntry(last).Some? && ParseEntry(last).value.filename == name {
      n := |front|;
      ParsedShows(last);
    } else {
      assert FramesOf(entries)[name] == FramesOf(front)[name];
      n := LastEntryWins(front, name);
      forall c, h
        ensures !Shows(last, name, c, h)
      {
        OtherName(last, name, c, h);
      }
      DecidesLonger(front, last, n, name, FramesOf(front)[name].cid, FramesOf(front)[name].hash);
      assert front + [last] == entries;
    }
  }

  lemma DecidesOnce(entries: seq<Text>, name: Text, n: int, cid: Text, hash: Text, k: int, c: Text, h: Text)
    requires Decides(entries, n, name, cid, hash) && Decides(entries, k, name, c, h)
    ensures c == cid && h == hash
  {
    assert n == k;
    ShowsParsed(entries[n], name, cid, hash);
    ShowsParsed(entries[n], name, c, h);
  }

  predicate FirstOfName(frames: seq<Frame>, j: nat)
    requires j < |frames|
  {
    forall k :: 0 <= k < j ==> frames[k].filename != frames[j].filename
  }

  /** The first frame of each name takes the CID and hash of the name's last entry; the others stay. */
  ghost predicate Becomes(entries: seq<Text>, frames: seq<Frame>, after: seq<Frame>) {
    && |after| == |frames|
    && forall j: nat :: j < |frames| ==> FrameBecomes(entries, frames[j], FirstOfName(frames, j), after[j])
  }

  ghost predicate FrameBecomes(entries: seq<Text>, f: Frame, first: bool, g: Frame) {
    if first && exists n, cid, hash :: Decides(entries, n, f.filename, cid, hash)
    then g == f.(cid := g.cid, hash := g.hash) && exists n :: Decides(entries, n, f.filename, g.cid, g.hash)
    else g == f
  }

  /** Every entry names a frame. */
  ghost predicate AllKnown(entries: seq<Text>, frames: seq<Frame>) {
    forall n, name, cid, hash :: 0 <= n < |entries| && Shows(entries[n], name, cid, hash) ==>
      exists j :: 0 <= j < |frames| && frames[j].filename == name
  }

  lemma FrameUncovered(entries: seq<Text>, frames: seq<Frame>, j: nat)
    requires j < |frames|
    ensures FrameBecomes(entries, frames[j], FirstOfName(frames, j), Uncovered(frames, FramesOf(entries))[j])
  {
    var name := frames[j].filename;
    assert FirstOfName(frames, j) <==> IndexNamed(frames, name) == j;
    if name in FramesOf(entries) {
      var _ := LastEntryWins(entries, name);
    }
    if exists n, cid, hash :: Decides(entries, n, name, cid, hash) {
      var n, cid, hash :| Decides(entries, n, name, cid, hash);
      ShownIsGiven(entries, n, name, cid, hash);
    }
  }

  lemma FrameBecomesOnce(entries: seq<Text>, f: Frame, first: bool, g: Frame, h: Frame)
    requires FrameBecomes(entries, f, first, g) && FrameBecomes(entries, f, first, h)
    ensures g == h
  {
    if first && exists n, cid, hash :: Decides(entries, n, f.filename, cid, hash) {
      var n :| Decides(entries, n, f.filename, g.cid, g.hash);
      var k :| Decides(entries, k, f.filename, h.cid, h.hash);
      DecidesOnce(entries, f.filename, n, g.cid, g.hash, k, h.cid, h.hash);
    }
  }

  lemma BecomesUncovered(entries: seq<Text>, frames: seq<Frame>, after: seq<Frame>)
    ensures Becomes(entries, frames, after) <==> after == Uncovered(frames, FramesOf(entries))
  {
    var shown := Uncovered(frames, FramesOf(entries));
    forall j: nat | j < |frames|
      ensures FrameBecomes(entries, frames[j], FirstOfName(frames, j), shown[j])
    {
      FrameUncovered(entries, frames, j);
    }
    if Becomes(entries, frames, after) {
      forall j: nat | j < |frames|
        ensures after[j] == shown[j]
      {
        FrameBecomesOnce(entries, frames[j], FirstOfName(frames, j), after[j], shown[j]);
      }
    }
  }

  lemma KnownNames(entries: seq<Text>, frames: seq<Frame>)
    ensures AllKnown(entries, frames) <==> AllNamed(frames, FramesOf(entries).Keys)
  {
    if AllKnown(entries, frames) {
      forall name | name in FramesOf(entries).Keys
        ensures IndexNamed(frames, name) >= 0
      {
        var n := LastEntryWins(entries, name);
        var j :| 0 <= j < |frames| && frames[j].filename == name;
        assert IndexNamed(frames, name) >= 0;
      }
    }
    if AllNamed(frames, FramesOf(entries).Keys) {
      forall n, name, cid, hash | 0 <= n < |entries| && Shows(entries[n], name, cid, hash)
        ensures exists j :: 0 <= j < |frames| && frames[j].filename == name
      {
        ShownIsGiven(entries, n, name, cid, hash);
        assert name in FramesOf(entries).Keys;
        assert frames[IndexNamed(frames, name)].filename == name;
      }
    }
  }

  /** What a reveal makes of the frames, without the map it is applied through. */
  lemma OutcomeIs(entries: seq<Text>, frames: seq<Frame>, after: seq<Frame>)
    ensures Outcome(frames, FramesOf(entries)) == Some(after) <==>
            AllKnown(entries, frames) && Becomes(entries, frames, after) && AllFull(after)
  {
    KnownNames(entries, frames);
    BecomesUncovered(entries, frames, after);
  }

  lemma RevealCommits(o: Oracle, s: State, m: Msg)
    requires Inv(s) && m.MsgReveal?
    ensures Handle(o, s, m).Committed? <==>
            && m.creator in s.workers && m.taskId in s.tasks && !s.tasks[m.taskId].completed
            && var i := s.workers[m.creator].currentThreadIndex;
               && WorksOn(s, m.creator, m.taskId, i, m.threadId)
               && Proposer(s.tasks[m.taskId].threads[i], m.creator)
               && var sol := s.tasks[m.taskId].threads[i].solution.value;
                  && !sol.accepted && |m.entries| == |sol.frames| && AllKnown(m.entries, sol.frames)
                  && exists after :: Becomes(m.entries, sol.frames, after) && AllFull(after)
  {
    if m.creator in s.workers && m.taskId in s.tasks {
      assert WorkerInv(s, m.creator) && TaskInv(s, m.taskId);
      var i := s.workers[m.creator].currentThreadIndex;
      if WorksOn(s, m.creator, m.taskId, i, m.threadId) && s.tasks[m.taskId].threads[i].solution.Some? {
        RevealPossible(m.entries, s.tasks[m.taskId].threads[i].solution.value.frames);
      }
    }
  }

  lemma RevealPossible(entries: seq<Text>, frames: seq<Frame>)
    ensures Outcome(frames, FramesOf(entries)).Some? <==>
            AllKnown(entries, frames) && exists after :: Becomes(entries, frames, after) && AllFull(after)
  {
    forall after
      ensures Outcome(frames, FramesOf(entries)) == Some(after) <==>
              AllKnown(entries, frames) && Becomes(entries, frames, after) && AllFull(after)
    {
      OutcomeIs(entries, frames, after);
    }
    if Outcome(frames, FramesOf(entries)).Some? {
      assert Becomes(entries, frames, Outcome(frames, FramesOf(entries)).value);
    }
  }

  /** Of the whole store only the frames of the sender's solution in the named thread change. */
  lemma RevealEffect(o: Oracle, s: State, m: Msg)
    requires Inv(s) && m.MsgReveal? && Handle(o, s, m).Committed?
    ensures var s', i := Handle(o, s, m).state, s.workers[m.creator].currentThreadIndex;
            && SameCounters(s, s') && SameBank(s, s') && s'.workers == s.workers && OnlyThread(s, s', m.taskId, i)
            && var th, th' := s.tasks[m.taskId].threads[i], s'.tasks[m.taskId].threads[i];
               && th'.solution.Some? && Becomes(m.entries, th.solution.value.frames, th'.solution.value.frames)
               && th' == th.(solution := Some(th.solution.value.(frames := th'.solution.value.frames)))
  {
    var frames := s.tasks[m.taskId].threads[s.workers[m.creator].currentThreadIndex].solution.value.frames;
    OutcomeIs(m.entries, frames, Outcome(frames, FramesOf(m.entries)).value);
  }

  // ---- settling ----

  lemma SubmitCommits(o: Oracle, s: State, m: Msg)
    requires Inv(s) && m.MsgSubmit?
    ensures Handle(o, s, m).Committed? <==>
            && m.taskId in s.tasks
            && forall i: nat :: Named(s, m.taskId, i, m.threadId) ==> Proposer(s.tasks[m.taskId].threads[i], m.creator)
  {
    if m.taskId in s.tasks {
      FoundThread(s, m.taskId, m.threadId);
      var n := ThreadIndex(s.tasks[m.taskId].threads, m.threadId);
      if n >= 0 {
        assert Named(s, m.taskId, n, m.threadId) && TaskInv(s, m.taskId);
        assert ThreadInv(s.tasks[m.taskId].threads[n], m.taskId, n, s.params.maxWorkersPerThread, s.workers.Keys);
      }
    }
  }

  /** The most that can be paid 2n times out of the reward. */
  predicate ThreadShare(payment: nat, reward: nat, n: nat) { 2 * n * payment <= reward < 2 * n * (payment + 1) }

  lemma HalfShareIs(reward: nat, n: nat)
    requires n > 0
    ensures ThreadShare(HalfShare(reward, n), reward, n)
  {
    var half := reward / 2;
    var p := half / n;
    assert half == n * p + half % n;
    assert 2 * n * p == 2 * (n * p) && 2 * n * (p + 1) == 2 * (n * p) + 2 * n;
  }

  /** The named thread is completed, with the message's directory and duration. */
  predicate ThreadSettled(th: Thread, m: Msg, th': Thread)
    requires m.MsgSubmit? && th.solution.Some?
  {
    th' == th.(solution := Some(th.solution.value.(dir := m.dir)), completed := true,
               averageRenderSeconds := m.averageRenderSeconds)
  }

  /** Its workers are idle; the sender has one more point, solution and duration, and the payment among its winnings. */
  predicate WorkersSettled(s: State, s': State, m: Msg, i: nat, payment: nat)
    requires m.MsgSubmit? && m.creator in s.workers
  {
    && s'.workers.Keys == s.workers.Keys
    && (forall a :: a in s.workers && a != m.creator ==>
          s'.workers[a] == if PointsAt(s, a, m.taskId, i)
                           then s.workers[a].(currentTaskId := [], currentThreadIndex := 0) else s.workers[a])
    && var r := s.workers[m.creator].reputation;
       s'.workers[m.creator] ==
       s.workers[m.creator].(currentTaskId := [], currentThreadIndex := 0,
                             reputation := Reputation(r.staked, r.points + 1, r.validations, r.solutions + 1,
                                                      r.winnings + payment,
                                                      r.renderDurations + [m.averageRenderSeconds]))
  }

  lemma PointersListed(s: State, k: Text, i: nat, a: Text)
    requires Inv(s) && k != [] && PointsAt(s, a, k, i)
    ensures a in s.tasks[k].threads[i].workers
  {
    assert WorkerInv(s, a);
  }

  lemma SettledStore(s: State, m: Msg, i: nat)
    requires Inv(s) && m.MsgSubmit? && Named(s, m.taskId, i, m.threadId) && Submit(s, m).Committed?
    ensures var s' := Submit(s, m).state;
            && OnlyThread(s, s', m.taskId, i) && m.creator in s.workers
            && Proposer(s.tasks[m.taskId].threads[i], m.creator)
            && ThreadSettled(s.tasks[m.taskId].threads[i], m, s'.tasks[m.taskId].threads[i])
            && SameCounters(s, s')
            && PaidOut(s, s', m.creator, HalfShare(s.tasks[m.taskId].reward, |s.tasks[m.taskId].threads|))
  {
    UniqueThread(s, m.taskId, i);
  }

  lemma OtherSettled(s: State, m: Msg, i: nat, a: Text)
    requires Inv(s) && m.MsgSubmit? && Named(s, m.taskId, i, m.threadId) && Submit(s, m).Committed?
    requires a in s.workers && a != m.creator
    ensures var s' := Submit(s, m).state;
            && a in s'.workers
            && s'.workers[a] == if PointsAt(s, a, m.taskId, i)
                                then s.workers[a].(currentTaskId := [], currentThreadIndex := 0) else s.workers[a]
  {
    UniqueThread(s, m.taskId, i);
    assert TaskInv(s, m.taskId);
    if PointsAt(s, a, m.taskId, i) {
      PointersListed(s, m.taskId, i, a);
    }
  }

  lemma SettledPeople(s: State, m: Msg, i: nat)
    requires Inv(s) && m.MsgSubmit? && Named(s, m.taskId, i, m.threadId) && Submit(s, m).Committed?
    requires m.creator in s.workers
    ensures WorkersSettled(s, Submit(s, m).state, m, i,
                           HalfShare(s.tasks[m.taskId].reward, |s.tasks[m.taskId].threads|))
  {
    UniqueThread(s, m.taskId, i);
    forall a | a in s.workers && a != m.creator
      ensures var s' := Submit(s, m).state;
              && a in s'.workers
              && s'.workers[a] == if PointsAt(s, a, m.taskId, i)
                                  then s.workers[a].(currentTaskId := [], currentThreadIndex := 0) else s.workers[a]
    {
      OtherSettled(s, m, i, a);
    }
  }

  /** The sender is paid one share of the reward, if the module has it, and no other account changes; the thread it
      proposed for is completed and whoever worked on it is idle. */
  lemma SubmitEffect(o: Oracle, s: State, m: Msg, i: nat) returns (payment: nat)
    requires Inv(s) && m.MsgSubmit? && Handle(o, s, m).Committed? && Named(s, m.taskId, i, m.threadId)
    ensures ThreadShare(payment, s.tasks[m.taskId].reward, |s.tasks[m.taskId].threads|)
    ensures var s' := Handle(o, s, m).state;
            && SameCounters(s, s') && PaidOut(s, s', m.creator, payment) && OnlyThread(s, s', m.taskId, i)
            && Proposer(s.tasks[m.taskId].threads[i], m.creator)
            && ThreadSettled(s.tasks[m.taskId].threads[i], m, s'.tasks[m.taskId].threads[i])
            && m.creator in s.workers && WorkersSettled(s, s', m, i, payment)
  {
    payment := HalfShare(s.tasks[m.taskId].reward, |s.tasks[m.taskId].threads|);
    HalfShareIs(s.tasks[m.taskId].reward, |s.tasks[m.taskId].threads|);
    SettledStore(s, m, i);
    SettledPeople(s, m, i);
  }

  /** A settlement that names no thread does nothing. */
  lemma SubmitNothing(o: Oracle, s: State, m: Msg)
    requires Inv(s) && m.MsgSubmit? && Handle(o, s, m).Committed? && forall i: nat :: !Named(s, m.taskId, i, m.threadId)
    ensures Handle(o, s, m).state == s
  {
    var n := ThreadIndex(s.tasks[m.taskId].threads, m.threadId);
    assert n >= 0 ==> Named(s, m.taskId, n, m.threadId);
  }

  // ---- all messages ----

  /** The message names this thread. */
  predicate Names(m: Msg, k: Text, th: Thread) {
    !m.MsgCreateTask? && !m.MsgAddWorker? && m.taskId == k && m.threadId == th.threadId
  }

  /** Whatever the message, a thread that it changes is the one it names, and lists its sender afterwards. */
  lemma OnlyNamedThread(o: Oracle, s: State, m: Msg, k: Text, i: nat)
    requires Inv(s) && k in s.tasks && i < |s.tasks[k].threads|
    ensures var s' := Step(o, s, Tx(m));
            && k in s'.tasks && |s'.tasks[k].threads| == |s.tasks[k].threads|
            && var th, th' := s.tasks[k].threads[i], s'.tasks[k].threads[i];
               th' != th ==> Names(m, k, th) && m.creator in th'.workers
  {
    if Handle(o, s, m).Committed? {
      match m
      case MsgCreateTask(_, _, _, _, _, _, _) => CreateEffect(o, s, m);
      case MsgAddWorker(_, _, _, _, _) =>
      case MsgSubscribe(_, _, _) => SubscribeLocal(o, s, m, k, i);
      case MsgPropose(_, _, _, _, _) => ProposeLocal(o, s, m, k, i);
      case MsgReveal(_, _, _, _) => RevealLocal(o, s, m, k, i);
      case MsgValidate(_, _, _, _, _) => ValidateLocal(o, s, m, k, i);
      case MsgSubmit(_, _, _, _, _) => SubmitLocal(o, s, m, k, i);
    }
  }

  predicate Local(s: State, s': State, m: Msg, k: Text, i: nat)
    requires k in s.tasks && i < |s.tasks[k].threads|
  {
    && k in s'.tasks && |s'.tasks[k].threads| == |s.tasks[k].threads|
    && (s'.tasks[k].threads[i] != s.tasks[k].threads[i] ==>
          Names(m, k, s.tasks[k].threads[i]) && m.creator in s'.tasks[k].threads[i].workers)
  }

  lemma SubscribeLocal(o: Oracle, s: State, m: Msg, k: Text, i: nat)
    requires Inv(s) && k in s.tasks && i < |s.tasks[k].threads| && m.MsgSubscribe? && Handle(o, s, m).Committed?
    ensures Local(s, Handle(o, s, m).state, m, k, i)
  {
    SubscribeEffect(o, s, m);
    if n: nat :| Joins(s, m, n) {
      assert OnlyThread(s, Handle(o, s, m).state, m.taskId, n);
    }
  }

  lemma ProposeLocal(o: Oracle, s: State, m: Msg, k: Text, i: nat)
    requires Inv(s) && k in s.tasks && i < |s.tasks[k].threads| && m.MsgPropose? && Handle(o, s, m).Committed?
    ensures Local(s, Handle(o, s, m).state, m, k, i)
  {
    ProposeCommits(o, s, m);
    ProposeEffect(o, s, m);
    if n: nat :| Named(s, m.taskId, n, m.threadId) {
      assert OnlyThread(s, Handle(o, s, m).state, m.taskId, n);
    }
  }

  lemma RevealLocal(o: Oracle, s: State, m: Msg, k: Text, i: nat)
    requires Inv(s) && k in s.tasks && i < |s.tasks[k].threads| && m.MsgReveal? && Handle(o, s, m).Committed?
    ensures Local(s, Handle(o, s, m).state, m, k, i)
  {
    RevealEffect(o, s, m);
  }

  lemma ValidateLocal(o: Oracle, s: State, m: Msg, k: Text, i: nat)
    requires Inv(s) && k in s.tasks && i < |s.tasks[k].threads| && m.MsgValidate? && Handle(o, s, m).Committed?
    ensures Local(s, Handle(o, s, m).state, m, k, i)
  {
    ValidateEffect(o, s, m);
  }

  lemma SubmitLocal(o: Oracle, s: State, m: Msg, k: Text, i: nat)
    requires Inv(s) && k in s.tasks && i < |s.tasks[k].threads| && m.MsgSubmit? && Handle(o, s, m).Committed?
    ensures Local(s, Handle(o, s, m).state, m, k, i)
  {
    if n: nat :| Named(s, m.taskId, n, m.threadId) {
      var _ := SubmitEffect(o, s, m, n);
      assert TaskInv(s, m.taskId);
      assert ThreadInv(s.tasks[m.taskId].threads[n], m.taskId, n, s.params.maxWorkersPerThread, s.workers.Keys);
    } else {
      SubmitNothing(o, s, m);
    }
  }

  /** A number below the next one has no task. */
  ghost predicate NumberMissing(s: State) { exists n: nat :: n < s.nextId && Itoa(n) !in s.tasks }

  lemma EndAdds(s: State)
    ensures var s' := EndBlock(s);
            && s'.tasks.Keys == s.tasks.Keys + (if NumberMissing(s) then {[]} else {})
            && (NumberMissing(s) ==> s'.tasks[[]] == Task([], [], [], 0, 0, 0, 0, true, 0, []))
  {
    assert SweptTasks(s.tasks, s.nextId).Keys == s.tasks.Keys;
    assert Hole(s.tasks, s.nextId) <==> NumberMissing(s);
  }

  /** The completion pass sets the flags of tasks whose threads are all completed, adds the empty task when a number
      below the next one has no task, and changes nothing else. */
  lemma EndEffect(s: State)
    requires Inv(s)
    ensures var s' := EndBlock(s);
            && SameCounters(s, s') && SameBank(s, s') && s'.workers == s.workers
            && s'.tasks.Keys == s.tasks.Keys + (if NumberMissing(s) then {[]} else {})
            && (NumberMissing(s) ==> s'.tasks[[]] == Task([], [], [], 0, 0, 0, 0, true, 0, []))
            && forall k :: k in s.tasks ==>
                 s'.tasks[k] == s.tasks[k].(completed := forall th :: th in s.tasks[k].threads ==> th.completed)
  {
    EndAdds(s);
    forall k | k in s.tasks
      ensures EndBlock(s).tasks[k] ==
              s.tasks[k].(completed := forall th :: th in s.tasks[k].threads ==> th.completed)
    {
      assert TaskInv(s, k);
    }
  }
}
