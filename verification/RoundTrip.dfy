/** Decoding undoes encoding, for every thread and for every record inside it. */
module RoundTrip {
  import opened Records
  import opened Wire
  import opened Messages
  import opened Codec

  predicate FrameFits(f: Frame) { Int64(f.validCount) && Int64(f.invalidCount) }

  predicate SolutionFits(s: Solution) { forall f :: f in s.frames ==> FrameFits(f) }

  predicate ValidationFits(v: Validation) { forall f :: f in v.frames ==> FrameFits(f) }

  /** The int64 fields of a thread hold int64s. */
  predicate ThreadFits(t: Thread) {
    && Int64(t.startFrame) && Int64(t.endFrame) && Int64(t.scale) && Int64(t.averageRenderSeconds)
    && (t.solution.Some? ==> SolutionFits(t.solution.value))
    && forall v :: v in t.validations ==> ValidationFits(v)
  }

  predicate Fits(m: Message) {
    match m
    case OfThread(t) => ThreadFits(t)
    case OfSolution(s) => SolutionFits(s)
    case OfValidation(v) => ValidationFits(v)
    case OfFrame(f) => FrameFits(f)
  }

  /** Folding rs into m gives end. */
  predicate Gives(m: Message, rs: seq<Raw>, end: Message) {
    AllSound(TypeOf(m), rs) && Fold(m, rs) == Done(end)
  }

  lemma FoldText(m: Message, num: nat, s: Text, rest: seq<Raw>, end: Message)
    requires num < 16 && KindOf(TypeOf(m), num) == KText && SetText(m, num, []) == m
    requires Gives(SetText(m, num, s), rest, end)
    ensures Gives(m, AddText(num, s, rest), end)
  {
    assert s == [] || AddText(num, s, rest)[1..] == rest;
  }

  lemma FoldInt(m: Message, num: nat, v: int, rest: seq<Raw>, end: Message)
    requires num < 16 && KindOf(TypeOf(m), num) == KInt && SetInt(m, num, 0) == m && Int64(v)
    requires Gives(SetInt(m, num, v), rest, end)
    ensures Gives(m, AddInt(num, v, rest), end)
  {
    assert v == 0 || AddInt(num, v, rest)[1..] == rest;
  }

  lemma FoldFrame(f: Frame)
    requires FrameFits(f)
    ensures Gives(Zero(TFrame), FrameParts(f), OfFrame(f))
  {
    var p6 := AddInt(6, f.invalidCount, []);
    var p5 := AddInt(5, f.validCount, p6);
    var p4 := AddText(4, f.hash, p5);
    var p3 := AddText(3, f.cid, p4);
    var p2 := AddText(2, f.signature, p3);
    var end := OfFrame(f);
    FoldInt(OfFrame(f.(invalidCount := 0)), 6, f.invalidCount, [], end);
    FoldInt(OfFrame(f.(validCount := 0, invalidCount := 0)), 5, f.validCount, p6, end);
    FoldText(OfFrame(Frame(f.filename, f.signature, f.cid, [], 0, 0)), 4, f.hash, p5, end);
    FoldText(OfFrame(Frame(f.filename, f.signature, [], [], 0, 0)), 3, f.cid, p4, end);
    FoldText(OfFrame(Frame(f.filename, [], [], [], 0, 0)), 2, f.signature, p3, end);
    FoldText(Zero(TFrame), 1, f.filename, p2, end);
  }

  /** What Unmarshal makes of an encoding that folds to `end`. */
  lemma DecodeWhole(m: Message, rs: seq<Raw>, end: Message)
    requires Gives(m, rs, end) && |EncodeRaws(rs)| < TWO63
    ensures Decode(EncodeRaws(rs), 0, m) == Done(end)
  {
    WholeAt(EncodeRaws(rs));
    DecodeRaws(EncodeRaws(rs), 0, rs, m);
  }

  function AddFrames(m: Message, fs: seq<Frame>): Message {
    match m
    case OfSolution(o) => OfSolution(o.(frames := o.frames + fs))
    case OfValidation(v) => OfValidation(v.(frames := v.frames + fs))
    case _ => m
  }

  lemma FoldOne(m: Message, r: Raw, next: Message, rest: seq<Raw>, end: Message)
    requires Sound(TypeOf(m), r) && Apply(m, r) == Done(next) && Gives(next, rest, end)
    ensures Gives(m, [r] + rest, end)
  {
    assert ([r] + rest)[1..] == rest;
  }

  lemma ApplySub(m: Message, num: nat, s: seq<byte>, sub: Message, next: Message)
    requires Known(TypeOf(m), RBytes(num, s)) && KindOf(TypeOf(m), num) != KText
    requires Decode(s, 0, SubStart(m, num)) == Done(sub) && SetSub(m, num, sub) == next
    ensures Apply(m, RBytes(num, s)) == Done(next)
  {
  }

  lemma ApplyFrame(m: Message, f: Frame)
    requires (m.OfSolution? || m.OfValidation?) && FrameFits(f) && |EncodeFrame(f)| < TWO63
    ensures Apply(m, RBytes(2, EncodeFrame(f))) == Done(AddFrames(m, [f]))
  {
    FoldFrame(f);
    DecodeWhole(Zero(TFrame), FrameParts(f), OfFrame(f));
    ApplySub(m, 2, EncodeFrame(f), OfFrame(f), AddFrames(m, [f]));
  }

  lemma AddFramesOn(m: Message, fs: seq<Frame>)
    requires fs != []
    ensures AddFrames(AddFrames(m, [fs[0]]), fs[1..]) == AddFrames(m, fs)
  {
    var first, later := [fs[0]], fs[1..];
    assert first + later == fs;
    match m
    case OfSolution(o) => assert (o.frames + first) + later == o.frames + fs;
    case OfValidation(v) => assert (v.frames + first) + later == v.frames + fs;
    case _ =>
  }

  lemma {:induction false} FoldFrames(m: Message, fs: seq<Frame>, rest: seq<Raw>, end: Message)
    requires (m.OfSolution? || m.OfValidation?) && forall f :: f in fs ==> FrameFits(f)
    requires AllSize(EncodeFrames(fs)) < TWO63
    requires Gives(AddFrames(m, fs), rest, end)
    ensures Gives(m, AddAll(2, EncodeFrames(fs), rest), end)
    decreases fs
  {
    if fs == [] {
      assert AddFrames(m, fs) == m;
    } else {
      assert EncodeFrames(fs)[1..] == EncodeFrames(fs[1..]);
      ApplyFrame(m, fs[0]);
      AddFramesOn(m, fs);
      FoldFrames(AddFrames(m, [fs[0]]), fs[1..], rest, end);
      FoldOne(m, RBytes(2, EncodeFrame(fs[0])), AddFrames(m, [fs[0]]), AddAll(2, EncodeFrames(fs[1..]), rest), end);
    }
  }

  lemma FoldSolutionEnd(s: Solution)
    ensures Gives(OfSolution(Solution(s.proposedBy, s.frames, [], [], false)),
                  AddText(3, s.publicKey, AddText(4, s.dir, AddFlag(5, s.accepted, []))), OfSolution(s))
  {
    var p5 := AddFlag(5, s.accepted, []);
    var p4 := AddText(4, s.dir, p5);
    var end := OfSolution(s);
    FoldInt(OfSolution(s.(accepted := false)), 5, if s.accepted then 1 else 0, [], end);
    FoldText(OfSolution(Solution(s.proposedBy, s.frames, s.publicKey, [], false)), 4, s.dir, p5, end);
    FoldText(OfSolution(Solution(s.proposedBy, s.frames, [], [], false)), 3, s.publicKey, p4, end);
  }

  lemma FoldSolution(s: Solution)
    requires SolutionFits(s) && |EncodeSolution(s)| < TWO63
    ensures Gives(Zero(TSolution), SolutionParts(s), OfSolution(s))
  {
    FoldSolutionEnd(s);
    var p3 := AddText(3, s.publicKey, AddText(4, s.dir, AddFlag(5, s.accepted, [])));
    var start := OfSolution(Solution(s.proposedBy, [], [], [], false));
    assert AddFrames(start, s.frames) == OfSolution(Solution(s.proposedBy, s.frames, [], [], false));
    FoldFrames(start, s.frames, p3, OfSolution(s));
    FoldText(Zero(TSolution), 1, s.proposedBy, AddAll(2, EncodeFrames(s.frames), p3), OfSolution(s));
  }

  lemma FoldValidation(v: Validation)
    requires ValidationFits(v) && |EncodeValidation(v)| < TWO63
    ensures Gives(Zero(TValidation), ValidationParts(v), OfValidation(v))
  {
    var p4 := AddFlag(4, v.isReverse, []);
    var p3 := AddText(3, v.publicKey, p4);
    var p2 := AddAll(2, EncodeFrames(v.frames), p3);
    var end := OfValidation(v);
    FoldInt(OfValidation(v.(isReverse := false)), 4, if v.isReverse then 1 else 0, [], end);
    FoldText(OfValidation(Validation(v.validator, v.frames, [], false)), 3, v.publicKey, p4, end);
    var start := OfValidation(Validation(v.validator, [], [], false));
    assert AddFrames(start, v.frames) == OfValidation(Validation(v.validator, v.frames, [], false));
    FoldFrames(start, v.frames, p3, end);
    FoldText(Zero(TValidation), 1, v.validator, p2, end);
  }

  function WithValidations(t: Thread, vs: seq<Validation>): Message {
    OfThread(t.(validations := t.validations + vs))
  }

  lemma ApplyValidation(t: Thread, v: Validation)
    requires ValidationFits(v) && |EncodeValidation(v)| < TWO63
    ensures Apply(OfThread(t), RBytes(9, EncodeValidation(v))) == Done(WithValidations(t, [v]))
  {
    FoldValidation(v);
    DecodeWhole(Zero(TValidation), ValidationParts(v), OfValidation(v));
  }

  lemma WithValidationsOn(t: Thread, vs: seq<Validation>)
    requires vs != []
    ensures WithValidations(WithValidations(t, [vs[0]]).thread, vs[1..]) == WithValidations(t, vs)
  {
    var first, later := [vs[0]], vs[1..];
    assert first + later == vs;
    assert (t.validations + first) + later == t.validations + vs;
  }

  lemma {:induction false} FoldValidations(t: Thread, vs: seq<Validation>, rest: seq<Raw>, end: Message)
    requires (forall v :: v in vs ==> ValidationFits(v)) && AllSize(EncodeValidations(vs)) < TWO63
    requires Gives(WithValidations(t, vs), rest, end)
    ensures Gives(OfThread(t), AddAll(9, EncodeValidations(vs), rest), end)
    decreases vs
  {
    if vs == [] {
      assert t.validations + vs == t.validations;
    } else {
      assert EncodeValidations(vs)[1..] == EncodeValidations(vs[1..]);
      ApplyValidation(t, vs[0]);
      WithValidationsOn(t, vs);
      var next := WithValidations(t, [vs[0]]);
      FoldValidations(next.thread, vs[1..], rest, end);
      FoldOne(OfThread(t), RBytes(9, EncodeValidation(vs[0])), next, AddAll(9, EncodeValidations(vs[1..]), rest), end);
    }
  }

  lemma {:induction false} FoldWorkers(t: Thread, ws: seq<Text>, rest: seq<Raw>, end: Message)
    requires Gives(OfThread(t.(workers := t.workers + ws)), rest, end)
    ensures Gives(OfThread(t), AddAll(7, ws, rest), end)
    decreases ws
  {
    if ws == [] {
      assert t.workers + ws == t.workers;
    } else {
      var next := t.(workers := t.workers + [ws[0]]);
      assert next.workers + ws[1..] == t.workers + ws by {
        assert [ws[0]] + ws[1..] == ws;
      }
      FoldWorkers(next, ws[1..], rest, end);
      FoldOne(OfThread(t), RBytes(7, ws[0]), OfThread(next), AddAll(7, ws[1..], rest), end);
    }
  }

  lemma ApplySolution(t: Thread, s: Solution)
    requires t.solution.None? && SolutionFits(s) && |EncodeSolution(s)| < TWO63
    ensures Apply(OfThread(t), RBytes(8, EncodeSolution(s))) == Done(OfThread(t.(solution := Some(s))))
  {
    FoldSolution(s);
    DecodeWhole(Zero(TSolution), SolutionParts(s), OfSolution(s));
  }

  /** The thread while it is decoded: texts and numbers, then workers, solution and validations. */
  function Upto(t: Thread, n: nat): Message {
    OfThread(Thread(t.threadId, if n < 2 then [] else t.taskId, if n < 3 then 0 else t.startFrame,
                    if n < 4 then 0 else t.endFrame, if n < 5 then 0 else t.scale, n >= 6 && t.completed,
                    if n < 7 then [] else t.workers, if n < 8 then None else t.solution,
                    if n < 9 then [] else t.validations, if n < 10 then 0 else t.averageRenderSeconds))
  }

  function IntOf(t: Thread, n: nat): int {
    if n == 3 then t.startFrame else if n == 4 then t.endFrame else if n == 5 then t.scale
    else if n == 6 then (if t.completed then 1 else 0) else t.averageRenderSeconds
  }

  lemma FoldThreadInt(t: Thread, n: nat, rest: seq<Raw>)
    requires (3 <= n <= 6 || n == 10) && Int64(IntOf(t, n))
    requires Gives(Upto(t, n), rest, OfThread(t))
    ensures Gives(Upto(t, n - 1), AddInt(n, IntOf(t, n), rest), OfThread(t))
  {
    var before, v := Upto(t, n - 1), IntOf(t, n);
    assert SetInt(before, n, v) == Upto(t, n) && SetInt(before, n, 0) == before;
    FoldInt(before, n, v, rest, OfThread(t));
  }

  lemma FoldStoredValidations(t: Thread, rest: seq<Raw>)
    requires ThreadFits(t) && AllSize(EncodeValidations(t.validations)) < TWO63
    requires Gives(Upto(t, 9), rest, OfThread(t))
    ensures Gives(Upto(t, 8), AddAll(9, EncodeValidations(t.validations), rest), OfThread(t))
  {
    assert [] + t.validations == t.validations;
    FoldValidations(Upto(t, 8).thread, t.validations, rest, OfThread(t));
  }

  lemma FoldStoredSolution(t: Thread, rest: seq<Raw>)
    requires ThreadFits(t) && AllSize(EncodedSolution(t.solution)) < TWO63
    requires Gives(Upto(t, 8), rest, OfThread(t))
    ensures Gives(Upto(t, 7), AddAll(8, EncodedSolution(t.solution), rest), OfThread(t))
  {
    if t.solution.Some? {
      ApplySolution(Upto(t, 7).thread, t.solution.value);
      FoldOne(Upto(t, 7), RBytes(8, EncodeSolution(t.solution.value)), Upto(t, 8), rest, OfThread(t));
      assert EncodedSolution(t.solution)[1..] == [];
    }
  }

  lemma FoldStoredWorkers(t: Thread, rest: seq<Raw>)
    requires Gives(Upto(t, 7), rest, OfThread(t))
    ensures Gives(Upto(t, 6), AddAll(7, t.workers, rest), OfThread(t))
  {
    assert [] + t.workers == t.workers;
    FoldWorkers(Upto(t, 6).thread, t.workers, rest, OfThread(t));
  }

  lemma FoldNumbers(t: Thread, rest: seq<Raw>)
    requires ThreadFits(t) && Gives(Upto(t, 6), rest, OfThread(t))
    ensures Gives(Upto(t, 2), AddInt(3, t.startFrame, AddInt(4, t.endFrame, AddInt(5, t.scale,
                  AddFlag(6, t.completed, rest)))), OfThread(t))
  {
    var p6 := AddFlag(6, t.completed, rest);
    var p5 := AddInt(5, t.scale, p6);
    var p4 := AddInt(4, t.endFrame, p5);
    FoldThreadInt(t, 6, rest);
    FoldThreadInt(t, 5, p6);
    FoldThreadInt(t, 4, p5);
    FoldThreadInt(t, 3, p4);
  }

  lemma FoldThread(t: Thread)
    requires ThreadFits(t) && |EncodeRaws(ThreadParts(t))| < TWO63
    ensures Gives(Zero(TThread), ThreadParts(t), OfThread(t))
  {
    var p10 := AddInt(10, t.averageRenderSeconds, []);
    FoldThreadInt(t, 10, []);
    var p9 := AddAll(9, EncodeValidations(t.validations), p10);
    FoldStoredValidations(t, p10);
    FoldStoredSolution(t, p9);
    FoldStoredWorkers(t, AddAll(8, EncodedSolution(t.solution), p9));
    FoldNumbers(t, RepeatedParts(t));
    var p3 := NumberParts(t);
    FoldText(Upto(t, 1), 2, t.taskId, p3, OfThread(t));
    FoldText(Zero(TThread), 1, t.threadId, AddText(2, t.taskId, p3), OfThread(t));
  }

  lemma FoldParts(m: Message)
    requires Fits(m) && |Encode(m)| < TWO63
    ensures Gives(Zero(TypeOf(m)), Parts(m), m)
  {
    match m
    case OfThread(t) => FoldThread(t);
    case OfSolution(s) => FoldSolution(s);
    case OfValidation(v) => FoldValidation(v);
    case OfFrame(f) => FoldFrame(f);
  }

  /** Main result: Unmarshal of Marshal, from a zero record, is the record. */
  lemma DecodeEncode(m: Message)
    requires Fits(m) && |Encode(m)| < TWO63
    ensures Decode(Encode(m), 0, Zero(TypeOf(m))) == Done(m)
  {
    FoldParts(m);
    DecodeWhole(Zero(TypeOf(m)), Parts(m), m);
  }

  /** Main result: unknown fields of any kind, nested groups included, put anywhere between the fields of a record or of
      the records inside it, do not change what is decoded. */
  lemma UnknownFieldsIgnored(m: Message, ps: seq<Piece>)
    requires Fits(m) && Spells(ps, m) && |EncodePieces(ps)| < TWO63
    ensures Decode(EncodePieces(ps), 0, Zero(TypeOf(m))) == Done(m)
  {
    CleanIsShorter(TypeOf(m), ps);
    FoldParts(m);
    WholeAt(EncodePieces(ps));
    DecodePieces(EncodePieces(ps), 0, ps, Zero(TypeOf(m)));
  }
}
