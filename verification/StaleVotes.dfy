/** A run from genesis in which a solution is accepted on a vote for a hash that has since been replaced: two threads of
    ten frames each, one worker on each. */
module StaleVotes {
  import opened Records
  import opened CliFormat
  import opened Tally
  import opened Reveal
  import opened Chain
  import opened Acceptance
  import opened Stage

  // ---- ten frames ----

  function Name(i: nat): Text
    requires i < 10
  {
    [i as byte]
  }

  function Names(): (names: seq<Text>)
    ensures |names| == 10 && forall i :: 0 <= i < 10 ==> names[i] == Name(i)
  {
    seq(10, i requires 0 <= i < 10 => Name(i))
  }

  /** The hash revealed for frame i: the signed one for the frames in `good`. */
  function HashOf(good: set<nat>, i: nat): Text { if i in good then GOOD else WRONG }

  function Signatures(): map<Text, Text> { map name | name in Names() :: GOOD }

  function TenLines(): seq<Text> { Lines(Signatures(), Names()) }

  function Ten(): (frames: seq<Frame>)
    ensures |frames| == 10 && forall i :: 0 <= i < 10 ==> frames[i] == Frame(Name(i), GOOD, [], [], 0, 0)
  {
    seq(10, i requires 0 <= i < 10 => Frame(Name(i), GOOD, [], [], 0, 0))
  }

  lemma TenProposed()
    ensures |TenLines()| == 10 && ProposedFrames(TenLines()) == Some(Ten())
  {
    forall k | k in Names()
      ensures EQUALS !in k
    {
    }
    ProposedFromLines(Signatures(), Names());
    assert ProposedFrames(TenLines()).value == Ten();
  }

  function Work(good: set<nat>): map<Text, Frame> {
    map name | name in Names() :: Frame(name, [], CONTENT, HashOf(good, name[0] as nat), 0, 0)
  }

  function TenEntries(good: set<nat>): seq<Text> { Entries(Work(good), Names()) }

  lemma TenParsed(good: set<nat>)
    ensures |TenEntries(good)| == 10 && FramesOf(TenEntries(good)) == Work(good)
  {
    FramesOfEntries(Work(good), Names());
    forall k | k in Names()
      ensures CleanEntry(k, Work(good)[k])
    {
    }
    assert Survivors(Work(good), Names()) == Work(good);
  }

  predicate TenNamed(frames: seq<Frame>) {
    |frames| == 10 && forall i: nat :: i < 10 ==> frames[i].filename == Name(i)
  }

  /** The ten frames with these hashes. */
  predicate Hashed(frames: seq<Frame>, good: set<nat>) {
    TenNamed(frames) && forall i: nat :: i < 10 ==> frames[i].hash == HashOf(good, i)
  }

  lemma NamedPlace(frames: seq<Frame>, i: nat)
    requires TenNamed(frames) && i < 10
    ensures IndexNamed(frames, Name(i)) == i
  {
    var j := IndexNamed(frames, Name(i));
    assert frames[i].filename == Name(i);
    assert Name(j)[0] == Name(i)[0];
  }

  function Shown(frames: seq<Frame>, good: set<nat>): (after: seq<Frame>)
    requires |frames| == 10
    ensures |after| == 10
    ensures forall i: nat :: i < 10 ==> after[i] == frames[i].(cid := CONTENT, hash := HashOf(good, i))
  {
    seq(10, i requires 0 <= i < 10 => frames[i].(cid := CONTENT, hash := HashOf(good, i)))
  }

  lemma TenCovered(frames: seq<Frame>, good: set<nat>, i: nat)
    requires TenNamed(frames) && i < 10
    ensures Uncovered(frames, Work(good))[i] == Shown(frames, good)[i] && Full(Shown(frames, good)[i])
  {
    NamedPlace(frames, i);
    assert Names()[i] in Names();
  }

  lemma TenKnown(frames: seq<Frame>)
    requires TenNamed(frames)
    ensures forall name :: name in Names() ==> IndexNamed(frames, name) >= 0
  {
    forall name | name in Names()
      ensures IndexNamed(frames, name) >= 0
    {
      var i: nat :| i < 10 && Names()[i] == name;
      NamedPlace(frames, i);
    }
  }

  /** Ten entries reveal ten frames, whatever was revealed before. */
  lemma TenRevealed(frames: seq<Frame>, good: set<nat>)
    requires TenNamed(frames)
    ensures Outcome(frames, FramesOf(TenEntries(good))) == Some(Shown(frames, good))
    ensures Hashed(Shown(frames, good), good)
  {
    var work, after := Work(good), Shown(frames, good);
    TenParsed(good);
    TenKnown(frames);
    forall i: nat | i < 10
      ensures Uncovered(frames, work)[i] == after[i] && Full(after[i])
    {
      TenCovered(frames, good, i);
    }
    assert Uncovered(frames, work) == after;
  }

  // ---- counting a vote that signs the good hash of every frame ----

  function TenVote(a: Text): Validation { Validation(a, Ten(), [], OddPlace([a], a)) }

  lemma TenCast(a: Text, f: Frame, i: nat)
    requires i < 10 && f.filename == Name(i)
    ensures Cast(ORACLE, f, TenVote(a)) == if f.hash == GOOD then Valid else Ballot.Invalid
    ensures Count(ORACLE, f, [TenVote(a)], Valid) == if f.hash == GOOD then 1 else 0
  {
    NamedPlace(Ten(), i);
    assert [TenVote(a)][..0] == [];
  }

  function Tallied(frames: seq<Frame>, a: Text): seq<Frame> { Evaluated(ORACLE, frames, [TenVote(a)]) }

  /** A pass counts one vote for each frame with the good hash. */
  lemma TalliedFrames(frames: seq<Frame>, good: set<nat>, a: Text)
    requires Hashed(frames, good)
    ensures Hashed(Tallied(frames, a), good)
    ensures forall i: nat :: i < 10 ==>
      Tallied(frames, a)[i].validCount == frames[i].validCount + if i in good then 1 else 0
  {
    forall i: nat | i < 10
      ensures Tallied(frames, a)[i].validCount == frames[i].validCount + if i in good then 1 else 0
      ensures Tallied(frames, a)[i].filename == Name(i) && Tallied(frames, a)[i].hash == HashOf(good, i)
    {
      TenCast(a, frames[i], i);
      ExactTally(ORACLE, frames, [TenVote(a)], i);
      assert GOOD[0] != WRONG[0];
    }
  }

  lemma {:induction false} ReachingAtMost(frames: seq<Frame>, n: nat)
    requires n <= |frames| && forall i :: n <= i < |frames| ==> frames[i].validCount < 1
    ensures CountReaching(frames, 1) <= n
  {
    if frames != [] {
      ReachingAtMost(frames[..|frames| - 1], if n < |frames| then n else n - 1);
    }
  }

  /** Two of ten frames are needed. */
  lemma TooFew(frames: seq<Frame>, a: Text)
    requires |frames| == 10 && forall i: nat :: 1 <= i < 10 ==> frames[i].validCount == 0
    ensures !Accepted(frames, [a])
  {
    ReachingAtMost(frames, 1);
  }

  lemma Enough(frames: seq<Frame>, a: Text)
    requires |frames| == 10 && frames[0].validCount >= 1 && frames[1].validCount >= 1
    ensures Accepted(frames, [a])
  {
    CountReachingIsSize(frames, 1);
    SetsGrow({0, 1}, Reaching(frames, 1));
  }

  // ---- a thread and its only worker ----

  function Joined(a: Text, i: nat): Thread { Fresh(10, i).(workers := [a]) }

  function Solved(a: Text, i: nat, frames: seq<Frame>, vs: seq<Validation>): Thread {
    Joined(a, i).(solution := Some(Solution(a, frames, [], [], false)), validations := vs)
  }

  lemma JudgedSolved(a: Text, i: nat, frames: seq<Frame>, good: set<nat>)
    requires Hashed(frames, good)
    ensures var th := Solved(a, i, frames, [TenVote(a)]);
            && Ready(th) && Judged(ORACLE, th).workers == [a] && Judged(ORACLE, th).validations == [TenVote(a)]
            && Judged(ORACLE, th).solution ==
               Some(Solution(a, Tallied(frames, a), [], [], Accepted(Tallied(frames, a), [a])))
  {
    assert frames[0].hash == HashOf(good, 0);
  }

  function Working(es: seq<Event>, a: Text, i: nat, good: set<nat>): seq<Event> {
    es + [Proposing(a, i, TenLines())] + [Revealing(a, i, TenEntries(good))] + [Voting(a, i, TenLines())]
  }

  lemma Proposed(sc: Scene, es: seq<Event>, ts: seq<Thread>, ws: map<Text, Worker>, a: Text, i: nat)
    requires Reaches(sc, es, ts, ws) && i < |ts| && ts[i] == Joined(a, i) && On(ws, a, i)
    ensures Reaches(sc, es + [Proposing(a, i, TenLines())], ts[i := Solved(a, i, Ten(), [])], ws)
  {
    TenProposed();
    ThenProposed(sc, es, ts, ws, a, i, TenLines(), Ten(), Solved(a, i, Ten(), []));
  }

  lemma Reshown(sc: Scene, es: seq<Event>, ts: seq<Thread>, ws: map<Text, Worker>, a: Text, i: nat,
                frames: seq<Frame>, vs: seq<Validation>, good: set<nat>)
    requires Reaches(sc, es, ts, ws) && i < |ts| && ts[i] == Solved(a, i, frames, vs)
    requires On(ws, a, i) && TenNamed(frames)
    ensures Reaches(sc, es + [Revealing(a, i, TenEntries(good))], ts[i := Solved(a, i, Shown(frames, good), vs)], ws)
  {
    TenParsed(good);
    TenRevealed(frames, good);
    ThenRevealed(sc, es, ts, ws, a, i, TenEntries(good), Shown(frames, good), Solved(a, i, Shown(frames, good), vs));
  }

  lemma Voted(sc: Scene, es: seq<Event>, ts: seq<Thread>, ws: map<Text, Worker>, a: Text, i: nat, frames: seq<Frame>)
    requires Reaches(sc, es, ts, ws) && i < |ts| && ts[i] == Solved(a, i, frames, []) && On(ws, a, i)
    ensures Reaches(sc, es + [Voting(a, i, TenLines())], ts[i := Solved(a, i, frames, [TenVote(a)])], ws)
  {
    TenProposed();
    assert [] + [TenVote(a)] == [TenVote(a)];
    ThenVoted(sc, es, ts, ws, a, i, TenLines(), Ten(), Solved(a, i, frames, [TenVote(a)]));
  }

  /** The only worker of a thread proposes, reveals and votes. */
  lemma Worked(sc: Scene, es: seq<Event>, ts: seq<Thread>, ws: map<Text, Worker>, a: Text, i: nat, good: set<nat>)
    requires Reaches(sc, es, ts, ws) && i < |ts| && ts[i] == Joined(a, i) && On(ws, a, i)
    ensures Reaches(sc, Working(es, a, i, good), ts[i := Solved(a, i, Shown(Ten(), good), [TenVote(a)])], ws)
  {
    var proposed, shown := Solved(a, i, Ten(), []), Solved(a, i, Shown(Ten(), good), []);
    var es1 := es + [Proposing(a, i, TenLines())];
    Proposed(sc, es, ts, ws, a, i);
    Reshown(sc, es1, ts[i := proposed], ws, a, i, Ten(), [], good);
    PutAgain(ts, i, proposed, shown);
    Voted(sc, es1 + [Revealing(a, i, TenEntries(good))], ts[i := shown], ws, a, i, Shown(Ten(), good));
    PutAgain(ts, i, shown, Solved(a, i, Shown(Ten(), good), [TenVote(a)]));
  }

  // ---- the run ----

  function Busy(): map<Text, Worker> { Recruits()[A := Moved(Recruit(A), 0)][B := Moved(Recruit(B), 1)] }

  lemma BothBusy()
    ensures On(Busy(), A, 0) && On(Busy(), B, 1)
  {
    assert A[0] != B[0];
  }

  function TwoThreads(): Scene { FirstScene(10, 2, 2) }

  function Joining(): seq<Event> { Setup(10, 2, 2) + [Subscribing(A, 0)] + [Subscribing(B, 1)] }

  lemma JoinedRun()
    ensures Reaches(TwoThreads(), Joining(), [Joined(A, 0), Joined(B, 1)], Busy())
  {
    var sc, es, ws := TwoThreads(), Setup(10, 2, 2), Recruits();
    SetUp(10, 2, 2, [Fresh(10, 0), Fresh(10, 1)]);
    Balances();
    assert A[0] != B[0];
    ThenSubscribed(sc, es, [Fresh(10, 0), Fresh(10, 1)], ws, A, 0, Joined(A, 0));
    PutFirst(Fresh(10, 0), Joined(A, 0), Fresh(10, 1));
    ThenSubscribed(sc, es + [Subscribing(A, 0)], [Joined(A, 0), Fresh(10, 1)], ws[A := Moved(ws[A], 0)], B, 1,
                   Joined(B, 1));
    PutSecond(Joined(A, 0), Fresh(10, 1), Joined(B, 1));
  }

  function Revealed(a: Text, i: nat, good: set<nat>): Thread { Solved(a, i, Shown(Ten(), good), [TenVote(a)]) }

  function AtWork(): seq<Event> { Working(Working(Joining(), A, 0, {0}), B, 1, {0, 1}) }

  lemma AtWorkRun()
    ensures Reaches(TwoThreads(), AtWork(), [Revealed(A, 0, {0}), Revealed(B, 1, {0, 1})], Busy())
  {
    var sc, ws, first, second := TwoThreads(), Busy(), Revealed(A, 0, {0}), Revealed(B, 1, {0, 1});
    JoinedRun();
    BothBusy();
    Worked(sc, Joining(), [Joined(A, 0), Joined(B, 1)], ws, A, 0, {0});
    PutFirst(Joined(A, 0), first, Joined(B, 1));
    Worked(sc, Working(Joining(), A, 0, {0}), [first, Joined(B, 1)], ws, B, 1, {0, 1});
    PutSecond(first, Joined(B, 1), second);
  }

  /** Frame 0 of thread 0 has its vote counted, and thread 0 is not accepted. */
  function CountedFrames(): (frames: seq<Frame>)
    ensures |frames| == 10
  {
    Tallied(Shown(Ten(), {0}), A)
  }

  lemma FirstPass()
    ensures Judged(ORACLE, Revealed(A, 0, {0})) == Solved(A, 0, CountedFrames(), [TenVote(A)])
    ensures Hashed(CountedFrames(), {0})
    ensures forall i: nat :: i < 10 ==> CountedFrames()[i].validCount == if i == 0 then 1 else 0
  {
    var frames := Shown(Ten(), {0});
    TenRevealed(Ten(), {0});
    TalliedFrames(frames, {0}, A);
    TooFew(CountedFrames(), A);
    JudgedSolved(A, 0, frames, {0});
  }

  lemma OtherAccepted()
    ensures NewlyAccepted(ORACLE, Revealed(B, 1, {0, 1}))
  {
    var frames := Shown(Ten(), {0, 1});
    TenRevealed(Ten(), {0, 1});
    TalliedFrames(frames, {0, 1}, B);
    Enough(Tallied(frames, B), B);
    JudgedSolved(B, 1, frames, {0, 1});
  }

  function Replacing(): seq<Event> { AtWork() + [Begin] + [Revealing(A, 0, TenEntries({1}))] }

  function Replaced(): Thread { Solved(A, 0, Shown(CountedFrames(), {1}), [TenVote(A)]) }

  lemma ReplacedRun()
    ensures Reaches(NextScene(TwoThreads(), Busy()), Replacing(),
                    [Replaced(), Judged(ORACLE, Revealed(B, 1, {0, 1}))], Busy())
  {
    var sc, ws, first, second := TwoThreads(), Busy(), Revealed(A, 0, {0}), Revealed(B, 1, {0, 1});
    var counted, other := Solved(A, 0, CountedFrames(), [TenVote(A)]), Judged(ORACLE, second);
    AtWorkRun();
    OtherAccepted();
    BothStored(sc.task.(threads := [first, second]), first, second);
    FirstPass();
    ThenBegun(sc, AtWork(), [first, second], ws, [counted, other]);
    BothBusy();
    Reshown(NextScene(sc, ws), AtWork() + [Begin], [counted, other], ws, A, 0, CountedFrames(), [TenVote(A)], {1});
    PutFirst(counted, Replaced(), other);
  }

  lemma SecondPass()
    ensures NewlyAccepted(ORACLE, Replaced()) && Judged(ORACLE, Replaced()).validations == [TenVote(A)]
    ensures Hashed(Judged(ORACLE, Replaced()).solution.value.frames, {1})
  {
    var frames := Shown(CountedFrames(), {1});
    FirstPass();
    TenRevealed(CountedFrames(), {1});
    TalliedFrames(frames, {1}, A);
    Enough(Tallied(frames, A), A);
    JudgedSolved(A, 0, frames, {1});
  }

  lemma LastBlock()
    ensures var s := Run(ORACLE, Start(), Replacing() + [Begin]);
            TASK in s.tasks && |s.tasks[TASK].threads| == 2 && s.tasks[TASK].threads[0] == Judged(ORACLE, Replaced())
  {
    var sc, ws, other := NextScene(TwoThreads(), Busy()), Busy(), Judged(ORACLE, Revealed(B, 1, {0, 1}));
    var t := sc.task.(threads := [Replaced(), other]);
    ReplacedRun();
    SecondPass();
    FirstStored(t, Replaced(), other);
    ThenBegun(sc, Replacing(), [Replaced(), other], ws, JudgedTask(ORACLE, t).threads);
  }

  /** Accepted, with two of its frames needed and one verified as it is revealed. */
  predicate TwoNeeded(th: Thread) {
    && th.solution.Some? && th.solution.value.accepted && Max(1, |th.solution.value.frames| / 5) == 2
    && VerifiedNowFrames(ORACLE, th) == {1}
  }

  lemma OnlyOneNow(th: Thread, a: Text, i: nat)
    requires th.solution.Some? && th.solution.value.accepted && th.validations == [TenVote(a)]
    requires Hashed(th.solution.value.frames, {i}) && i < 10
    ensures |th.solution.value.frames| == 10 && VerifiedNowFrames(ORACLE, th) == {i}
  {
    var frames, vs := th.solution.value.frames, th.validations;
    forall j: nat | j < 10
      ensures VerifiedNow(ORACLE, frames[j], vs) <==> j == i
    {
      TenCast(a, frames[j], j);
      assert GOOD[0] != WRONG[0] && TenVote(a) in vs;
    }
  }

  lemma LastVerdict()
    ensures TwoNeeded(Judged(ORACLE, Replaced()))
  {
    SecondPass();
    OnlyOneNow(Judged(ORACLE, Replaced()), A, 1);
  }

  lemma NotCurrent(es: seq<Event>, i: nat)
    requires var s := Run(ORACLE, Start(), es);
             TASK in s.tasks && i < |s.tasks[TASK].threads| && TwoNeeded(s.tasks[TASK].threads[i])
    ensures !CurrentRun(ORACLE, Start(), es)
  {
    AcceptanceBacked(ORACLE, Start(), es, TASK, i);
  }

  /** Of the ten frames of thread 0 two must be verified. In the first block its only validation verifies frame 0; the
      thread is not accepted, but its count is stored because thread 1 is. Its proposer reveals again, with a wrong
      hash for frame 0 and the signed one for frame 1, and the second block accepts the thread, although frame 1 is
      the only one that is verified as it is revealed. */
  lemma StaleVoteAccepted()
    ensures var es := Replacing() + [Begin];
            var s := Run(ORACLE, Start(), es);
            && TASK in s.tasks && |s.tasks[TASK].threads| == 2
            && TwoNeeded(s.tasks[TASK].threads[0]) && !CurrentRun(ORACLE, Start(), es)
  {
    LastBlock();
    LastVerdict();
    NotCurrent(Replacing() + [Begin], 0);
  }
}
