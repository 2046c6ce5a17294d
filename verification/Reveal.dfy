/** Applying a reveal to the frames of a solution (the frame loops of RevealSolution, keeper/msg_server.go). */
module Reveal {
  import opened Records
  import opened CliFormat
  import opened Tally

  function Uncover(f: Frame, g: Frame): Frame {
    f.(cid := g.cid, hash := g.hash)
  }

  /** The first frame of each revealed name takes its CID and hash; the others are left alone. */
  function Uncovered(frames: seq<Frame>, shown: map<Text, Frame>): (r: seq<Frame>)
    ensures |r| == |frames|
    ensures forall j :: 0 <= j < |frames| ==>
      r[j] == if frames[j].filename in shown && IndexNamed(frames, frames[j].filename) == j
              then Uncover(frames[j], shown[frames[j].filename]) else frames[j]
  {
    seq(|frames|, j requires 0 <= j < |frames| =>
      if frames[j].filename in shown && IndexNamed(frames, frames[j].filename) == j
      then Uncover(frames[j], shown[frames[j].filename]) else frames[j])
  }

  predicate AllNamed(frames: seq<Frame>, names: set<Text>) {
    forall name :: name in names ==> IndexNamed(frames, name) >= 0
  }

  predicate Full(f: Frame) { f.cid != [] && f.hash != [] }

  predicate AllFull(frames: seq<Frame>) {
    forall f :: f in frames ==> Full(f)
  }

  /** None: RevealSolution rejects the reveal. */
  function Outcome(frames: seq<Frame>, shown: map<Text, Frame>): Option<seq<Frame>> {
    if AllNamed(frames, shown.Keys) && AllFull(Uncovered(frames, shown)) then Some(Uncovered(frames, shown)) else None
  }

  /** The two loops of the handler over a map visited in the given order. */
  function InOrder(frames: seq<Frame>, shown: map<Text, Frame>, order: seq<Text>): Option<seq<Frame>>
    requires forall k :: k in order ==> k in shown
    decreases |order|
  {
    if order == [] then (if AllFull(frames) then Some(frames) else None)
    else
      var idx := IndexNamed(frames, order[0]);
      if idx < 0 then None
      else InOrder(frames[idx := Uncover(frames[idx], shown[order[0]])], shown, order[1..])
  }

  predicate SameNames(a: seq<Frame>, b: seq<Frame>) {
    |a| == |b| && forall j :: 0 <= j < |a| ==> a[j].filename == b[j].filename
  }

  lemma SameIndex(a: seq<Frame>, b: seq<Frame>, name: Text)
    requires SameNames(a, b)
    ensures IndexNamed(a, name) == IndexNamed(b, name)
  {
    var i, j := IndexNamed(a, name), IndexNamed(b, name);
    if 0 <= i {
      assert b[i].filename == name;
    }
    if 0 <= j {
      assert a[j].filename == name;
    }
  }

  function Restricted(shown: map<Text, Frame>, order: seq<Text>): map<Text, Frame> {
    map k | k in order && k in shown :: shown[k]
  }

  lemma UncoverOne(frames: seq<Frame>, shown: map<Text, Frame>, order: seq<Text>)
    requires order != [] && Distinct(order) && forall k :: k in order ==> k in shown
    requires IndexNamed(frames, order[0]) >= 0
    ensures var idx := IndexNamed(frames, order[0]);
            var next := frames[idx := Uncover(frames[idx], shown[order[0]])];
            && SameNames(frames, next)
            && Uncovered(next, Restricted(shown, order[1..])) == Uncovered(frames, Restricted(shown, order))
  {
    var idx := IndexNamed(frames, order[0]);
    var next := frames[idx := Uncover(frames[idx], shown[order[0]])];
    var rest := order[1..];
    assert forall k :: k in order <==> k == order[0] || k in rest;
    assert order[0] !in rest;
    forall j | 0 <= j < |frames|
      ensures Uncovered(next, Restricted(shown, rest))[j] == Uncovered(frames, Restricted(shown, order))[j]
    {
      SameIndex(frames, next, frames[j].filename);
      assert frames[j].filename in Restricted(shown, order) <==> frames[j].filename in order;
    }
  }

  lemma {:induction false} InOrderIs(frames: seq<Frame>, shown: map<Text, Frame>, order: seq<Text>)
    requires Distinct(order) && forall k :: k in order ==> k in shown
    ensures InOrder(frames, shown, order) == Outcome(frames, Restricted(shown, order))
    decreases |order|
  {
    if order == [] {
      assert Uncovered(frames, Restricted(shown, order)) == frames;
    } else {
      assert order[0] in Restricted(shown, order);
      var idx := IndexNamed(frames, order[0]);
      if idx >= 0 {
        var next := frames[idx := Uncover(frames[idx], shown[order[0]])];
        UncoverOne(frames, shown, order);
        InOrderIs(next, shown, order[1..]);
        forall k | k in order
          ensures IndexNamed(frames, k) == IndexNamed(next, k)
        {
          SameIndex(frames, next, k);
        }
        assert AllNamed(next, Restricted(shown, order[1..]).Keys) <==> AllNamed(frames, Restricted(shown, order).Keys);
      }
    }
  }

  /** RevealSolution succeeds or fails, and with which frames, independently of the order in which Go visits the map. */
  lemma OrderIndependentReveal(frames: seq<Frame>, shown: map<Text, Frame>, order: seq<Text>)
    requires Ordering(order, shown.Keys)
    ensures InOrder(frames, shown, order) == Outcome(frames, shown)
  {
    assert forall k :: k in order ==> k in shown.Keys;
    InOrderIs(frames, shown, order);
    assert Restricted(shown, order) == shown;
  }

  method CheckFull(frames: seq<Frame>) returns (full: bool)
    ensures full <==> AllFull(frames)
  {
    for j := 0 to |frames|
      invariant forall k :: 0 <= k < j ==> Full(frames[k])
    {
      if frames[j].cid == [] || frames[j].hash == [] {
        assert frames[j] in frames;
        return false;
      }
    }
    return true;
  }

  method RevealFrames(start: seq<Frame>, shown: map<Text, Frame>) returns (result: Option<seq<Frame>>)
    ensures result == Outcome(start, shown)
  {
    var frames := start;
    var left := shown.Keys;
    while left != {}
      invariant left <= shown.Keys && |frames| == |start|
      invariant AllNamed(start, shown.Keys - left)
      invariant forall j :: 0 <= j < |start| ==>
        frames[j] == if start[j].filename in shown.Keys - left && IndexNamed(start, start[j].filename) == j
                     then Uncover(start[j], shown[start[j].filename]) else start[j]
      decreases |left|
    {
      var name :| name in left;
      SameIndex(start, frames, name);
      var idx := IndexNamed(frames, name);
      if idx < 0 {
        return None;
      }
      frames := frames[idx := Uncover(frames[idx], shown[name])];
      left := left - {name};
    }
    assert frames == Uncovered(start, shown);
    var full := CheckFull(frames);
    return if full then Some(frames) else None;
  }

  // ---- all or nothing ----

  predicate Blank(f: Frame) { f.cid == [] && f.hash == [] }

  predicate AllBlank(frames: seq<Frame>) {
    forall f :: f in frames ==> Blank(f)
  }

  predicate DistinctNames(frames: seq<Frame>) {
    forall i, j :: 0 <= i < j < |frames| ==> frames[i].filename != frames[j].filename
  }

  /** Either nothing has been revealed, or everything has and the filenames are pairwise distinct. */
  predicate AllOrNothing(frames: seq<Frame>) {
    AllBlank(frames) || (AllFull(frames) && DistinctNames(frames))
  }

  /** A reveal, partial or repeated, never leaves a solution half revealed. */
  lemma RevealKeepsAllOrNothing(frames: seq<Frame>, shown: map<Text, Frame>)
    requires AllOrNothing(frames) && Outcome(frames, shown).Some?
    ensures AllOrNothing(Outcome(frames, shown).value) && AllFull(Outcome(frames, shown).value)
    ensures SameNames(frames, Outcome(frames, shown).value)
  {
    var next := Uncovered(frames, shown);
    if AllBlank(frames) {
      forall i, j | 0 <= i < j < |frames|
        ensures frames[i].filename != frames[j].filename
      {
        assert frames[j] in frames && next[j] in next;
        assert Blank(frames[j]) && Full(next[j]);
        assert IndexNamed(frames, frames[j].filename) == j;
      }
    }
  }

  // ---- honest reveals ----

  /** The frames ProposeSolution stores for key=value lines; None: some line has no "=", and the handler panics. */
  function ProposedFrames(lines: seq<Text>): (r: Option<seq<Frame>>)
    ensures r.Some? ==> |r.value| == |lines| && forall i :: 0 <= i < |lines| ==>
      Cut(lines[i], EQUALS).Some? &&
      r.value[i] == Frame(Cut(lines[i], EQUALS).value.0, Cut(lines[i], EQUALS).value.1, [], [], 0, 0)
    ensures r.None? ==> exists i :: 0 <= i < |lines| && EQUALS !in lines[i]
  {
    if lines == [] then Some([])
    else
      var last := lines[|lines| - 1];
      match (ProposedFrames(lines[..|lines| - 1]), Cut(last, EQUALS))
      case (Some(fs), Some((name, sig))) => Some(fs + [Frame(name, sig, [], [], 0, 0)])
      case _ => None
  }

  lemma ProposedFromLines(signatures: map<Text, Text>, order: seq<Text>)
    requires forall k :: k in order ==> k in signatures && EQUALS !in k
    ensures var stored := ProposedFrames(Lines(signatures, order));
            && stored.Some? && |stored.value| == |order|
            && forall i :: 0 <= i < |order| ==> stored.value[i] == Frame(order[i], signatures[order[i]], [], [], 0, 0)
  {
    var lines := Lines(signatures, order);
    forall i | 0 <= i < |order|
      ensures Cut(lines[i], EQUALS) == Some((order[i], signatures[order[i]]))
    {
      CutUnique(order[i], signatures[order[i]], EQUALS);
    }
  }

  /** What an honest proposer's solution should look like once revealed. */
  function HonestFrames(signatures: map<Text, Text>, work: map<Text, Frame>, order: seq<Text>): (r: seq<Frame>)
    requires forall k :: k in order ==> k in signatures && k in work
    ensures |r| == |order|
    ensures forall i :: 0 <= i < |order| ==>
      r[i] == Frame(order[i], signatures[order[i]], work[order[i]].cid, work[order[i]].hash, 0, 0)
  {
    seq(|order|, i requires 0 <= i < |order| =>
      Frame(order[i], signatures[order[i]], work[order[i]].cid, work[order[i]].hash, 0, 0))
  }

  lemma HonestOutcome(stored: seq<Frame>, signatures: map<Text, Text>, work: map<Text, Frame>, order: seq<Text>)
    requires Distinct(order) && |stored| == |order|
    requires forall k :: k in order <==> k in work
    requires forall k :: k in work ==> k in signatures && Full(work[k])
    requires forall i :: 0 <= i < |order| ==> stored[i] == Frame(order[i], signatures[order[i]], [], [], 0, 0)
    ensures Outcome(stored, PublicPart(work)) == Some(HonestFrames(signatures, work, order))
  {
    var shown := PublicPart(work);
    forall name | name in shown.Keys
      ensures IndexNamed(stored, name) >= 0
    {
      var i :| 0 <= i < |order| && order[i] == name;
      assert stored[i].filename == name;
    }
    var next := Uncovered(stored, shown);
    forall i | 0 <= i < |order|
      ensures next[i] == HonestFrames(signatures, work, order)[i]
    {
      assert order[i] in work;
      assert IndexNamed(stored, order[i]) == i;
    }
    assert next == HonestFrames(signatures, work, order);
    assert AllFull(next);
  }

  function PublicPart(work: map<Text, Frame>): map<Text, Frame> {
    map k | k in work :: Revealed(k, work[k].cid, work[k].hash)
  }

  lemma CleanWork(work: map<Text, Frame>, order: seq<Text>)
    requires Ordering(order, work.Keys) && forall k :: k in work ==> CleanEntry(k, work[k])
    ensures forall k :: k in order ==> k in work
    ensures FramesOf(Entries(work, order)) == PublicPart(work)
  {
    assert forall k :: k in order <==> k in work.Keys;
    FramesOfEntries(work, order);
  }

  /** If a solution was proposed from a map of signatures and revealed from a map with the same clean keys and
      non-empty clean CIDs and hashes, then under every map iteration order at both ends the lengths match, the reveal
      is accepted, and each frame gets exactly its own CID and hash. */
  lemma HonestRevealSucceeds(signatures: map<Text, Text>, order: seq<Text>, work: map<Text, Frame>, order': seq<Text>)
    requires Ordering(order, signatures.Keys) && Ordering(order', work.Keys) && signatures.Keys == work.Keys
    requires forall k :: k in work ==> CleanEntry(k, work[k]) && Full(work[k])
    ensures forall k :: k in order ==> k in signatures && k in work
    ensures var stored := ProposedFrames(Lines(signatures, order));
            && stored.Some? && |stored.value| == |Entries(work, order')|
            && Outcome(stored.value, FramesOf(Entries(work, order'))) == Some(HonestFrames(signatures, work, order))
  {
    assert forall k :: k in order <==> k in signatures.Keys;
    OrderingSize(order, signatures.Keys);
    OrderingSize(order', work.Keys);
    ProposedFromLines(signatures, order);
    CleanWork(work, order');
    HonestOutcome(ProposedFrames(Lines(signatures, order)).value, signatures, work, order);
  }
}
