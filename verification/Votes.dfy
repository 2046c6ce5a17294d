/** Who votes for a frame, said of keys, signers and signatures, and what BeginBlock makes of it (module/module.go,
    VideoUpscalerThread.go). */
module Votes {
  import opened Records
  import opened CliFormat
  import opened Tally
  import opened Chain
  import opened Invariant
  import opened Ballots
  import opened Effects

  // ---- one vote ----

  /** The validation's frame n is its first one of this name. */
  predicate FirstOf(v: Validation, f: Frame, n: int) {
    && 0 <= n < |v.frames| && v.frames[n].filename == f.filename
    && forall k :: 0 <= k < n ==> v.frames[k].filename != f.filename
  }

  /** What it says about the frame, if anything, can be decoded. */
  predicate Legible(o: Oracle, v: Validation, f: Frame) {
    forall n :: 0 <= n < |v.frames| && FirstOf(v, f, n) ==>
      o.keyDecodes(v.publicKey) && o.signatureDecodes(v.frames[n].signature)
  }

  /** Its signature is that of its own validator, under its own key, on the frame's hash. */
  predicate Supports(o: Oracle, v: Validation, f: Frame) {
    exists n :: 0 <= n < |v.frames| && FirstOf(v, f, n) && Legible(o, v, f) &&
                o.verifies(v.publicKey, f.hash, v.validator, v.frames[n].signature)
  }

  predicate Opposes(o: Oracle, v: Validation, f: Frame) {
    exists n :: 0 <= n < |v.frames| && FirstOf(v, f, n) && Legible(o, v, f) &&
                !o.verifies(v.publicKey, f.hash, v.validator, v.frames[n].signature)
  }

  lemma FirstIs(v: Validation, f: Frame)
    ensures var n := IndexNamed(v.frames, f.filename); forall k :: FirstOf(v, f, k) <==> k == n && n >= 0
  {
  }

  lemma CastIs(o: Oracle, f: Frame, v: Validation)
    ensures Cast(o, f, v) == Unreadable <==> !Legible(o, v, f)
    ensures Cast(o, f, v) == Valid <==> Supports(o, v, f)
    ensures Cast(o, f, v) == Ballot.Invalid <==> Opposes(o, v, f)
  {
    FirstIs(v, f);
    var n := IndexNamed(v.frames, f.filename);
    if n >= 0 {
      assert FirstOf(v, f, n);
    }
  }

  // ---- all votes on a frame ----

  /** The first n votes can be decoded. */
  predicate LegibleUpTo(o: Oracle, f: Frame, vs: seq<Validation>, n: nat) {
    forall k :: 0 <= k < n && k < |vs| ==> Legible(o, vs[k], f)
  }

  /** The validations for the frame, up to the first that cannot be decoded. */
  function Ayes(o: Oracle, f: Frame, vs: seq<Validation>): set<nat> {
    set i: nat | i < |vs| && Supports(o, vs[i], f) && LegibleUpTo(o, f, vs, i)
  }

  function Noes(o: Oracle, f: Frame, vs: seq<Validation>): set<nat> {
    set i: nat | i < |vs| && Opposes(o, vs[i], f) && LegibleUpTo(o, f, vs, i)
  }

  function Placed(o: Oracle, f: Frame, vs: seq<Validation>, b: Ballot): set<nat> {
    set i: nat | i < |vs| && Cast(o, f, vs[i]) == b
  }

  lemma PlacedAppend(o: Oracle, f: Frame, vs: seq<Validation>, v: Validation, b: Ballot)
    ensures Placed(o, f, vs + [v], b) == Placed(o, f, vs, b) + if Cast(o, f, v) == b then {|vs| as nat} else {}
  {
    var all, n := vs + [v], |vs|;
    assert all[n] == v && forall i: nat :: i < n ==> all[i] == vs[i];
  }

  lemma {:induction false} CountIsSize(o: Oracle, f: Frame, vs: seq<Validation>, b: Ballot)
    ensures Count(o, f, vs, b) == |Placed(o, f, vs, b)|
  {
    if vs != [] {
      var n := |vs| - 1;
      CountIsSize(o, f, vs[..n], b);
      PlacedAppend(o, f, vs[..n], vs[n], b);
      assert vs[..n] + [vs[n]] == vs;
    }
  }

  lemma HeardIs(o: Oracle, f: Frame, vs: seq<Validation>, i: nat)
    requires i < |vs|
    ensures i < Heard(o, f, vs) <==> LegibleUpTo(o, f, vs, i) && Legible(o, vs[i], f)
  {
    var h := Heard(o, f, vs);
    forall k | 0 <= k < |vs|
      ensures Cast(o, f, vs[k]) == Unreadable <==> !Legible(o, vs[k], f)
    {
      CastIs(o, f, vs[k]);
    }
    if h <= i {
      assert !Legible(o, vs[h], f);
    }
  }

  lemma HeardVotes(o: Oracle, f: Frame, vs: seq<Validation>)
    ensures var heard := vs[..Heard(o, f, vs)];
            Placed(o, f, heard, Valid) == Ayes(o, f, vs) && Placed(o, f, heard, Ballot.Invalid) == Noes(o, f, vs)
  {
    forall i: nat | i < |vs|
      ensures i < Heard(o, f, vs) && Cast(o, f, vs[i]) == Valid <==> Supports(o, vs[i], f) && LegibleUpTo(o, f, vs, i)
      ensures i < Heard(o, f, vs) && Cast(o, f, vs[i]) == Ballot.Invalid <==>
              Opposes(o, vs[i], f) && LegibleUpTo(o, f, vs, i)
    {
      CastIs(o, f, vs[i]);
      HeardIs(o, f, vs, i);
    }
  }

  /** The pass gets to frame j: all votes on the frames before it can be decoded. */
  predicate GetsTo(o: Oracle, frames: seq<Frame>, vs: seq<Validation>, j: nat)
    requires j <= |frames|
  {
    forall k, i :: 0 <= k < j && 0 <= i < |vs| ==> Legible(o, vs[i], frames[k])
  }

  /** The frame with its votes added. */
  function CountedFrame(o: Oracle, frames: seq<Frame>, vs: seq<Validation>, j: nat): Frame
    requires j < |frames|
  {
    var f := frames[j];
    if GetsTo(o, frames, vs, j)
    then f.(validCount := f.validCount + |Ayes(o, f, vs)|, invalidCount := f.invalidCount + |Noes(o, f, vs)|)
    else f
  }

  lemma WholeHeard(o: Oracle, f: Frame, vs: seq<Validation>)
    ensures Heard(o, f, vs) == |vs| <==> forall i :: 0 <= i < |vs| ==> Legible(o, vs[i], f)
  {
    forall i | 0 <= i < |vs|
      ensures Cast(o, f, vs[i]) == Unreadable <==> !Legible(o, vs[i], f)
    {
      CastIs(o, f, vs[i]);
    }
  }

  lemma ReachedIs(o: Oracle, frames: seq<Frame>, vs: seq<Validation>, j: nat)
    requires j <= |frames|
    ensures Reached(o, frames, vs, j) <==> GetsTo(o, frames, vs, j)
  {
    forall k | 0 <= k < j
      ensures Heard(o, frames[k], vs) == |vs| <==> forall i :: 0 <= i < |vs| ==> Legible(o, vs[i], frames[k])
    {
      WholeHeard(o, frames[k], vs);
    }
  }

  /** Main result: a pass adds to a frame it gets to one valid count for each validation whose own validator signed the
      frame's hash with the validation's key, and one invalid count for each other validation that names the frame, up
      to the first that cannot be decoded. */
  lemma PassCounts(o: Oracle, frames: seq<Frame>, vs: seq<Validation>, j: nat)
    requires j < |frames|
    ensures Evaluated(o, frames, vs)[j] == CountedFrame(o, frames, vs, j)
  {
    var f, heard := frames[j], vs[..Heard(o, frames[j], vs)];
    ReachedIs(o, frames, vs, j);
    HeardVotes(o, f, vs);
    CountIsSize(o, f, heard, Valid);
    CountIsSize(o, f, heard, Ballot.Invalid);
  }

  // ---- BeginBlock ----

  /** The solution has been revealed, enough votes are in, and no verdict has been given. */
  predicate AwaitsVerdict(th: Thread) {
    && (|th.validations| > 1 || |th.validations| == |th.workers|) && !th.completed
    && th.solution.Some? && !th.solution.value.accepted
    && th.solution.value.frames != [] && th.solution.value.frames[0].hash != []
  }

  /** The frames with as many valid votes as the thread needs: one when it has one worker, two otherwise. */
  function Upheld(o: Oracle, th: Thread): set<nat>
    requires th.solution.Some?
  {
    var frames := th.solution.value.frames;
    set j: nat | j < |frames| &&
                 CountedFrame(o, frames, th.validations, j).validCount >= if |th.workers| == 1 then 1 else 2
  }

  /** A fifth of its frames, and at least one, are upheld. */
  predicate WillBeAccepted(o: Oracle, th: Thread) {
    AwaitsVerdict(th) && |Upheld(o, th)| >= Max(1, |th.solution.value.frames| / 5)
  }

  lemma JudgedIs(o: Oracle, th: Thread)
    ensures Ready(th) <==> AwaitsVerdict(th)
    ensures NewlyAccepted(o, th) <==> WillBeAccepted(o, th)
    ensures AwaitsVerdict(th) ==>
      var sol, sol' := th.solution.value, Judged(o, th).solution;
      && sol'.Some? && sol'.value == sol.(frames := sol'.value.frames, accepted := WillBeAccepted(o, th))
      && Judged(o, th) == th.(solution := sol') && |sol'.value.frames| == |sol.frames|
      && forall j: nat :: j < |sol.frames| ==>
           sol'.value.frames[j] == CountedFrame(o, sol.frames, th.validations, j)
  {
    if AwaitsVerdict(th) {
      var frames, vs := th.solution.value.frames, th.validations;
      var after := Evaluated(o, frames, vs);
      forall j: nat | j < |frames|
        ensures after[j] == CountedFrame(o, frames, vs, j)
      {
        PassCounts(o, frames, vs, j);
      }
      CountReachingIsSize(after, VotesNeeded(th.workers));
      assert Reaching(after, VotesNeeded(th.workers)) == Upheld(o, th);
    }
  }

  /** The thread's counts reach the store. */
  predicate Recorded(o: Oracle, t: Task, i: nat)
    requires i < |t.threads|
  {
    !t.completed && AwaitsVerdict(t.threads[i]) && exists n :: i <= n < |t.threads| && WillBeAccepted(o, t.threads[n])
  }

  /** A thread after the hook: votes counted and verdict given, or as it was. */
  predicate VerdictGiven(o: Oracle, th: Thread, th': Thread)
    requires th.solution.Some?
  {
    && th'.solution.Some?
    && th' == th.(solution := Some(th.solution.value.(frames := th'.solution.value.frames,
                                                      accepted := WillBeAccepted(o, th))))
    && |th'.solution.value.frames| == |th.solution.value.frames|
    && forall j: nat :: j < |th.solution.value.frames| ==>
         th'.solution.value.frames[j] == CountedFrame(o, th.solution.value.frames, th.validations, j)
  }

  lemma ThreadAfterBegin(o: Oracle, t: Task, i: nat)
    requires i < |t.threads|
    ensures var th, th' := t.threads[i], JudgedTask(o, t).threads[i];
            if Recorded(o, t, i) then VerdictGiven(o, th, th') else th' == th
  {
    StoredExactlyWhen(o, t, i);
    JudgedIs(o, t.threads[i]);
    forall n | i <= n < |t.threads|
      ensures NewlyAccepted(o, t.threads[n]) <==> WillBeAccepted(o, t.threads[n])
    {
      JudgedIs(o, t.threads[n]);
    }
  }

  /** Main result: the whole effect of BeginBlock on the chain, without the functions it is computed with. */
  lemma BeginEffect(o: Oracle, s: State)
    ensures var s' := BeginBlock(o, s);
            && s'.nextId == s.nextId && SameBank(s, s') && s'.workers == s.workers && s'.tasks.Keys == s.tasks.Keys
            && s'.params == s.params.(minValidators :=
                 if 2 <= |s.workers| <= 6 then |s.workers| else s.params.minValidators)
            && forall k :: k in s.tasks ==>
                 && s'.tasks[k] == s.tasks[k].(threads := s'.tasks[k].threads)
                 && |s'.tasks[k].threads| == |s.tasks[k].threads|
                 && forall i: nat :: i < |s.tasks[k].threads| ==>
                      var th, th' := s.tasks[k].threads[i], s'.tasks[k].threads[i];
                      if Recorded(o, s.tasks[k], i) then VerdictGiven(o, th, th') else th' == th
  {
    forall k, i: nat | k in s.tasks && i < |s.tasks[k].threads|
      ensures var th, th' := s.tasks[k].threads[i], BeginBlock(o, s).tasks[k].threads[i];
              if Recorded(o, s.tasks[k], i) then VerdictGiven(o, th, th') else th' == th
    {
      assert BeginBlock(o, s).tasks[k] == JudgedTask(o, s.tasks[k]);
      ThreadAfterBegin(o, s.tasks[k], i);
    }
  }

  // ---- a message and the block after it ----

  /** The oracle accepts exactly what this signs. */
  ghost predicate SignedBy(o: Oracle, sign: (Text, Text, Text) -> Text) {
    forall key, hash, signer, signature ::
      o.verifies(key, hash, signer, signature) <==> signature == sign(key, hash, signer)
  }

  /** Line n is the first for this name. */
  ghost predicate FirstLine(lines: seq<Text>, n: int, name: Text, signature: Text) {
    && 0 <= n < |lines| && EQUALS !in name && lines[n] == name + [EQUALS] + signature
    && forall k, x :: 0 <= k < n ==> lines[k] != name + [EQUALS] + x
  }

  lemma FirstLineFound(lines: seq<Text>, v: Validation, f: Frame, n: int, signature: Text)
    requires Spelled(lines, v.frames) && FirstLine(lines, n, f.filename, signature)
    ensures FirstOf(v, f, n) && v.frames[n].signature == signature
  {
    CutUnique(f.filename, signature, EQUALS);
    CutUnique(v.frames[n].filename, v.frames[n].signature, EQUALS);
    forall k | 0 <= k < n
      ensures v.frames[k].filename != f.filename
    {
      assert lines[k] == v.frames[k].filename + [EQUALS] + v.frames[k].signature;
    }
  }

  lemma AyesAppend(o: Oracle, f: Frame, vs: seq<Validation>, v: Validation)
    requires LegibleUpTo(o, f, vs, |vs|)
    ensures Ayes(o, f, vs + [v]) == Ayes(o, f, vs) + if Supports(o, v, f) then {|vs| as nat} else {}
    ensures Noes(o, f, vs + [v]) == Noes(o, f, vs) + if Opposes(o, v, f) then {|vs| as nat} else {}
  {
    var all, n := vs + [v], |vs|;
    assert all[n] == v && forall i: nat :: i < n ==> all[i] == vs[i];
    forall i: nat | i <= n
      ensures LegibleUpTo(o, f, all, i) && (i < n ==> LegibleUpTo(o, f, vs, i))
    {
    }
  }

  lemma OneMoreVote(o: Oracle, f: Frame, vs: seq<Validation>, v: Validation)
    requires LegibleUpTo(o, f, vs, |vs|)
    ensures |Ayes(o, f, vs + [v])| == |Ayes(o, f, vs)| + if Supports(o, v, f) then 1 else 0
    ensures |Noes(o, f, vs + [v])| == |Noes(o, f, vs)| + if Opposes(o, v, f) then 1 else 0
  {
    AyesAppend(o, f, vs, v);
  }

  /** All votes on all frames of the thread can be decoded. */
  predicate AllLegible(o: Oracle, th: Thread) {
    th.solution.Some? ==>
      forall v, f :: v in th.validations && f in th.solution.value.frames ==> Legible(o, v, f)
  }

  lemma LegibleCount(o: Oracle, th: Thread, j: nat)
    requires AllLegible(o, th) && th.solution.Some? && j < |th.solution.value.frames|
    ensures GetsTo(o, th.solution.value.frames, th.validations, j)
  {
  }

  lemma SignedVote(o: Oracle, sign: (Text, Text, Text) -> Text, v: Validation, f: Frame, n: int)
    requires SignedBy(o, sign) && FirstOf(v, f, n) && Legible(o, v, f)
    ensures Supports(o, v, f) <==> v.frames[n].signature == sign(v.publicKey, f.hash, v.validator)
    ensures Opposes(o, v, f) <==> v.frames[n].signature != sign(v.publicKey, f.hash, v.validator)
  {
    FirstIs(v, f);
  }

  /** Main result: a validation sent in one message and counted in the next block. For each frame it has a line for, the
      valid count rises by one more than without it exactly when the line's signature is what the sender's key signs for
      the frame's hash and the sender's own address; otherwise the invalid count does. */
  lemma VoteThenBlock(o: Oracle, sign: (Text, Text, Text) -> Text, s: State, m: Msg, j: nat, n: int, signature: Text)
    requires Inv(s) && SignedBy(o, sign) && m.MsgValidate? && Handle(o, s, m).Committed?
    requires var i, sent := s.workers[m.creator].currentThreadIndex, Handle(o, s, m).state;
             && Recorded(o, sent.tasks[m.taskId], i) && AllLegible(o, sent.tasks[m.taskId].threads[i])
             && j < |s.tasks[m.taskId].threads[i].solution.value.frames|
             && FirstLine(m.signatures, n, s.tasks[m.taskId].threads[i].solution.value.frames[j].filename, signature)
    ensures var i, s' := s.workers[m.creator].currentThreadIndex, BeginBlock(o, Handle(o, s, m).state);
            && m.taskId in s'.tasks && i < |s'.tasks[m.taskId].threads|
            && var th, th' := s.tasks[m.taskId].threads[i], s'.tasks[m.taskId].threads[i];
               && th'.solution.Some? && j < |th'.solution.value.frames|
               && var f, f' := th.solution.value.frames[j], th'.solution.value.frames[j];
                  var honest := signature == sign(m.publicKey, f.hash, m.creator);
                  && f'.validCount == f.validCount + |Ayes(o, f, th.validations)| + (if honest then 1 else 0)
                  && f'.invalidCount == f.invalidCount + |Noes(o, f, th.validations)| + if honest then 0 else 1
  {
    var i, sent := s.workers[m.creator].currentThreadIndex, Handle(o, s, m).state;
    var th, th1 := s.tasks[m.taskId].threads[i], sent.tasks[m.taskId].threads[i];
    ValidateCommits(o, s, m);
    ValidateEffect(o, s, m);
    BeginEffect(o, sent);
    var f, v := th.solution.value.frames[j], th1.validations[|th.validations|];
    assert th1.validations == th.validations + [v] && f in th1.solution.value.frames && v in th1.validations;
    FirstLineFound(m.signatures, v, f, n, signature);
    LegibleCount(o, th1, j);
    forall k | 0 <= k < |th.validations|
      ensures Legible(o, th.validations[k], f)
    {
      assert th.validations[k] in th1.validations;
    }
    OneMoreVote(o, f, th.validations, v);
    SignedVote(o, sign, v, f, n);
  }
}
