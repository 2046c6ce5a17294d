/** The tag bytes of the four stored messages (types.pb.go): which bytes a record becomes, and which field of a record
    each of them sets, stated on bytes alone. */
module WireTable {
  import opened Records
  import opened Wire
  import opened Messages
  import opened Codec
  import opened RoundTrip

  // ---- fields as bytes ----

  /** A text or a nested record: tag, length, bytes. */
  function Block(tag: byte, s: seq<byte>): seq<byte> { [tag] + Varint(|s|) + s }

  /** A number: tag and value, a negative one as its two's complement in 64 bits. */
  function Number(tag: byte, v: int): seq<byte>
    requires Int64(v)
  {
    [tag] + Varint(if v < 0 then v + TWO64 else v)
  }

  function TextBytes(tag: byte, s: Text): seq<byte> { if s == [] then [] else Block(tag, s) }

  function NumberBytes(tag: byte, v: int): seq<byte>
    requires Int64(v)
  {
    if v == 0 then [] else Number(tag, v)
  }

  function FlagBytes(tag: byte, b: bool): seq<byte> { if b then [tag, 1] else [] }

  function TextsBytes(tag: byte, ss: seq<Text>): seq<byte> {
    if ss == [] then [] else Block(tag, ss[0]) + TextsBytes(tag, ss[1..])
  }

  // ---- records as bytes ----

  function FrameBytes(f: Frame): seq<byte>
    requires FrameFits(f)
  {
    TextBytes(10, f.filename) + (TextBytes(18, f.signature) + (TextBytes(26, f.cid) + (TextBytes(34, f.hash)
    + (NumberBytes(40, f.validCount) + NumberBytes(48, f.invalidCount)))))
  }

  function FramesBytes(tag: byte, fs: seq<Frame>): seq<byte>
    requires forall f :: f in fs ==> FrameFits(f)
  {
    if fs == [] then [] else Block(tag, FrameBytes(fs[0])) + FramesBytes(tag, fs[1..])
  }

  function SolutionBytes(s: Solution): seq<byte>
    requires SolutionFits(s)
  {
    TextBytes(10, s.proposedBy) + (FramesBytes(18, s.frames) + (TextBytes(26, s.publicKey) + (TextBytes(34, s.dir)
    + FlagBytes(40, s.accepted))))
  }

  function ValidationBytes(v: Validation): seq<byte>
    requires ValidationFits(v)
  {
    TextBytes(10, v.validator) + (FramesBytes(18, v.frames) + (TextBytes(26, v.publicKey) + FlagBytes(32, v.isReverse)))
  }

  function ValidationsBytes(tag: byte, vs: seq<Validation>): seq<byte>
    requires forall v :: v in vs ==> ValidationFits(v)
  {
    if vs == [] then [] else Block(tag, ValidationBytes(vs[0])) + ValidationsBytes(tag, vs[1..])
  }

  function ThreadBytes(t: Thread): seq<byte>
    requires ThreadFits(t)
  {
    TextBytes(10, t.threadId) + (TextBytes(18, t.taskId) + (NumberBytes(24, t.startFrame)
    + (NumberBytes(32, t.endFrame) + (NumberBytes(40, t.scale) + (FlagBytes(48, t.completed) + LaterBytes(t))))))
  }

  /** The thread's workers, its solution and everything after it. */
  function LaterBytes(t: Thread): seq<byte>
    requires ThreadFits(t)
  {
    TextsBytes(58, t.workers) + (StoredBytes(t.solution) + (ValidationsBytes(74, t.validations)
    + NumberBytes(80, t.averageRenderSeconds)))
  }

  function StoredBytes(s: Option<Solution>): seq<byte>
    requires s.Some? ==> SolutionFits(s.value)
  {
    if s.None? then [] else Block(66, SolutionBytes(s.value))
  }

  function RecordBytes(m: Message): seq<byte>
    requires Fits(m)
  {
    match m
    case OfThread(t) => ThreadBytes(t)
    case OfSolution(s) => SolutionBytes(s)
    case OfValidation(v) => ValidationBytes(v)
    case OfFrame(f) => FrameBytes(f)
  }

  // ---- encoding ----

  lemma BlockIs(field: nat, tag: byte, s: seq<byte>)
    requires field < 16 && tag as int == field * 8 + 2
    ensures EncodeRaw(RBytes(field, s)) == Block(tag, s)
  {
    TagByte(field, 2);
    assert [tag] + (Varint(|s|) + s) == [tag] + Varint(|s|) + s;
  }

  lemma NumberIs(field: nat, tag: byte, v: int)
    requires field < 16 && tag as int == field * 8 && Int64(v)
    ensures EncodeRaw(RInt(field, v)) == Number(tag, v)
  {
    TagByte(field, 0);
  }

  lemma FirstRaw(r: Raw, rest: seq<Raw>)
    ensures EncodeRaws([r] + rest) == EncodeRaw(r) + EncodeRaws(rest)
  {
    assert ([r] + rest)[1..] == rest;
  }

  lemma TextFirst(field: nat, tag: byte, s: Text, rest: seq<Raw>)
    requires field < 16 && tag as int == field * 8 + 2
    ensures EncodeRaws(AddText(field, s, rest)) == TextBytes(tag, s) + EncodeRaws(rest)
  {
    BlockIs(field, tag, s);
    FirstRaw(RBytes(field, s), rest);
  }

  lemma NumberFirst(field: nat, tag: byte, v: int, rest: seq<Raw>)
    requires field < 16 && tag as int == field * 8 && Int64(v)
    ensures EncodeRaws(AddInt(field, v, rest)) == NumberBytes(tag, v) + EncodeRaws(rest)
  {
    NumberIs(field, tag, v);
    FirstRaw(RInt(field, v), rest);
  }

  lemma FlagFirst(field: nat, tag: byte, b: bool, rest: seq<Raw>)
    requires field < 16 && tag as int == field * 8
    ensures EncodeRaws(AddFlag(field, b, rest)) == FlagBytes(tag, b) + EncodeRaws(rest)
  {
    NumberFirst(field, tag, if b then 1 else 0, rest);
    assert [tag] + [1] == [tag, 1];
  }

  lemma {:induction false} BlocksFirst(field: nat, tag: byte, ss: seq<seq<byte>>, rest: seq<Raw>)
    requires field < 16 && tag as int == field * 8 + 2
    ensures EncodeRaws(AddAll(field, ss, rest)) == TextsBytes(tag, ss) + EncodeRaws(rest)
  {
    if ss != [] {
      BlocksFirst(field, tag, ss[1..], rest);
      BlockIs(field, tag, ss[0]);
      FirstRaw(RBytes(field, ss[0]), AddAll(field, ss[1..], rest));
    }
  }

  lemma NumberLast(field: nat, tag: byte, v: int)
    requires field < 16 && tag as int == field * 8 && Int64(v)
    ensures EncodeRaws(AddInt(field, v, [])) == NumberBytes(tag, v)
  {
    NumberFirst(field, tag, v, []);
  }

  lemma FlagLast(field: nat, tag: byte, b: bool)
    requires field < 16 && tag as int == field * 8
    ensures EncodeRaws(AddFlag(field, b, [])) == FlagBytes(tag, b)
  {
    FlagFirst(field, tag, b, []);
  }

  lemma FrameLayout(f: Frame)
    requires FrameFits(f)
    ensures EncodeFrame(f) == FrameBytes(f)
  {
    var p6 := AddInt(6, f.invalidCount, []);
    var p5 := AddInt(5, f.validCount, p6);
    var p4 := AddText(4, f.hash, p5);
    var p3 := AddText(3, f.cid, p4);
    NumberLast(6, 48, f.invalidCount);
    NumberFirst(5, 40, f.validCount, p6);
    TextFirst(4, 34, f.hash, p5);
    TextFirst(3, 26, f.cid, p4);
    TextFirst(2, 18, f.signature, p3);
    TextFirst(1, 10, f.filename, AddText(2, f.signature, p3));
  }

  lemma {:induction false} FramesLayout(tag: byte, fs: seq<Frame>)
    requires forall f :: f in fs ==> FrameFits(f)
    ensures TextsBytes(tag, EncodeFrames(fs)) == FramesBytes(tag, fs)
  {
    if fs != [] {
      FrameLayout(fs[0]);
      FramesLayout(tag, fs[1..]);
      assert EncodeFrames(fs)[1..] == EncodeFrames(fs[1..]);
    }
  }

  lemma SolutionLayout(s: Solution)
    requires SolutionFits(s)
    ensures EncodeSolution(s) == SolutionBytes(s)
  {
    var p5 := AddFlag(5, s.accepted, []);
    var p4 := AddText(4, s.dir, p5);
    var p3 := AddText(3, s.publicKey, p4);
    FlagLast(5, 40, s.accepted);
    TextFirst(4, 34, s.dir, p5);
    TextFirst(3, 26, s.publicKey, p4);
    FramesLayout(18, s.frames);
    BlocksFirst(2, 18, EncodeFrames(s.frames), p3);
    TextFirst(1, 10, s.proposedBy, AddAll(2, EncodeFrames(s.frames), p3));
  }

  lemma ValidationLayout(v: Validation)
    requires ValidationFits(v)
    ensures EncodeValidation(v) == ValidationBytes(v)
  {
    var p4 := AddFlag(4, v.isReverse, []);
    var p3 := AddText(3, v.publicKey, p4);
    FlagLast(4, 32, v.isReverse);
    TextFirst(3, 26, v.publicKey, p4);
    FramesLayout(18, v.frames);
    BlocksFirst(2, 18, EncodeFrames(v.frames), p3);
    TextFirst(1, 10, v.validator, AddAll(2, EncodeFrames(v.frames), p3));
  }

  lemma {:induction false} ValidationsLayout(tag: byte, vs: seq<Validation>)
    requires forall v :: v in vs ==> ValidationFits(v)
    ensures TextsBytes(tag, EncodeValidations(vs)) == ValidationsBytes(tag, vs)
  {
    if vs != [] {
      ValidationLayout(vs[0]);
      ValidationsLayout(tag, vs[1..]);
      assert EncodeValidations(vs)[1..] == EncodeValidations(vs[1..]);
    }
  }

  lemma StoredSolutionLayout(s: Option<Solution>, rest: seq<Raw>)
    requires s.Some? ==> SolutionFits(s.value)
    ensures EncodeRaws(AddAll(8, EncodedSolution(s), rest)) == StoredBytes(s) + EncodeRaws(rest)
  {
    BlocksFirst(8, 66, EncodedSolution(s), rest);
    if s.Some? {
      SolutionLayout(s.value);
      assert EncodedSolution(s)[1..] == [];
    }
  }

  lemma RepeatedLayout(t: Thread)
    requires ThreadFits(t)
    ensures EncodeRaws(RepeatedParts(t)) == LaterBytes(t)
  {
    var p10 := AddInt(10, t.averageRenderSeconds, []);
    var p9 := AddAll(9, EncodeValidations(t.validations), p10);
    NumberLast(10, 80, t.averageRenderSeconds);
    ValidationsLayout(74, t.validations);
    BlocksFirst(9, 74, EncodeValidations(t.validations), p10);
    StoredSolutionLayout(t.solution, p9);
    BlocksFirst(7, 58, t.workers, AddAll(8, EncodedSolution(t.solution), p9));
  }

  lemma ThreadLayout(t: Thread)
    requires ThreadFits(t)
    ensures EncodeRaws(ThreadParts(t)) == ThreadBytes(t)
  {
    var p7 := RepeatedParts(t);
    var p6 := AddFlag(6, t.completed, p7);
    var p5 := AddInt(5, t.scale, p6);
    var p4 := AddInt(4, t.endFrame, p5);
    RepeatedLayout(t);
    FlagFirst(6, 48, t.completed, p7);
    NumberFirst(5, 40, t.scale, p6);
    NumberFirst(4, 32, t.endFrame, p5);
    NumberFirst(3, 24, t.startFrame, p4);
    TextFirst(2, 18, t.taskId, NumberParts(t));
    TextFirst(1, 10, t.threadId, AddText(2, t.taskId, NumberParts(t)));
  }

  /** Main result: the bytes Marshal fills a buffer with, field by field. */
  lemma MarshalledBytes(m: Message)
    requires Fits(m)
    ensures Encode(m) == RecordBytes(m)
  {
    match m
    case OfThread(t) => ThreadLayout(t);
    case OfSolution(s) => SolutionLayout(s);
    case OfValidation(v) => ValidationLayout(v);
    case OfFrame(f) => FrameLayout(f);
  }

  // ---- decoding ----

  /** One field of such bytes fits in a buffer. */
  predicate Short(s: seq<byte>) { 1 + |Varint(|s|)| + |s| < TWO63 }

  lemma OneField(r: Raw, m: Message)
    requires Sound(TypeOf(m), r) && |EncodeRaw(r)| < TWO63
    ensures Decode(EncodeRaw(r), 0, m) == Apply(m, r)
  {
    var d := EncodeRaw(r);
    WholeAt(d);
    DecodeRaw(d, 0, |d|, r, m);
  }

  lemma BlockRead(m: Message, field: nat, tag: byte, s: seq<byte>)
    requires Short(s) && field < 16 && tag as int == field * 8 + 2 && Known(TypeOf(m), RBytes(field, s))
    ensures Decode(Block(tag, s), 0, m) == Apply(m, RBytes(field, s))
  {
    BlockIs(field, tag, s);
    OneField(RBytes(field, s), m);
  }

  lemma {:induction false} VarintSize(v: nat)
    ensures |Varint(v)| <= 1 + v / 128
  {
    if v >= 128 {
      VarintSize(v / 128);
    }
  }

  lemma NumberRead(m: Message, field: nat, tag: byte, v: int)
    requires Int64(v) && field < 16 && tag as int == field * 8 && Known(TypeOf(m), RInt(field, v))
    ensures Decode(Number(tag, v), 0, m) == Apply(m, RInt(field, v))
  {
    NumberIs(field, tag, v);
    VarintSize(Unsigned(v));
    OneField(RInt(field, v), m);
  }

  /** The fields of a frame, decoded one at a time into any frame. */
  lemma FrameFields(f: Frame, s: Text, v: int)
    requires Short(s) && Int64(v)
    ensures Decode(Block(10, s), 0, OfFrame(f)) == Done(OfFrame(f.(filename := s)))
    ensures Decode(Block(18, s), 0, OfFrame(f)) == Done(OfFrame(f.(signature := s)))
    ensures Decode(Block(26, s), 0, OfFrame(f)) == Done(OfFrame(f.(cid := s)))
    ensures Decode(Block(34, s), 0, OfFrame(f)) == Done(OfFrame(f.(hash := s)))
    ensures Decode(Number(40, v), 0, OfFrame(f)) == Done(OfFrame(f.(validCount := v)))
    ensures Decode(Number(48, v), 0, OfFrame(f)) == Done(OfFrame(f.(invalidCount := v)))
  {
    var m := OfFrame(f);
    BlockRead(m, 1, 10, s);
    BlockRead(m, 2, 18, s);
    BlockRead(m, 3, 26, s);
    BlockRead(m, 4, 34, s);
    NumberRead(m, 5, 40, v);
    NumberRead(m, 6, 48, v);
  }

  /** Those of a solution; a nested frame is decoded into a fresh one and added. */
  lemma SolutionFields(o: Solution, s: Text, v: int)
    requires Short(s) && Int64(v)
    ensures Decode(Block(10, s), 0, OfSolution(o)) == Done(OfSolution(o.(proposedBy := s)))
    ensures Decode(Block(26, s), 0, OfSolution(o)) == Done(OfSolution(o.(publicKey := s)))
    ensures Decode(Block(34, s), 0, OfSolution(o)) == Done(OfSolution(o.(dir := s)))
    ensures Decode(Number(40, v), 0, OfSolution(o)) == Done(OfSolution(o.(accepted := v != 0)))
    ensures var inner := Decode(s, 0, OfFrame(NO_FRAME));
            Decode(Block(18, s), 0, OfSolution(o)) ==
            if inner.Done? then Done(OfSolution(o.(frames := o.frames + [inner.message.frame]))) else inner
  {
    var m := OfSolution(o);
    BlockRead(m, 1, 10, s);
    BlockRead(m, 3, 26, s);
    BlockRead(m, 4, 34, s);
    NumberRead(m, 5, 40, v);
    BlockRead(m, 2, 18, s);
  }

  /** Those of a validation. */
  lemma ValidationFields(w: Validation, s: Text, v: int)
    requires Short(s) && Int64(v)
    ensures Decode(Block(10, s), 0, OfValidation(w)) == Done(OfValidation(w.(validator := s)))
    ensures Decode(Block(26, s), 0, OfValidation(w)) == Done(OfValidation(w.(publicKey := s)))
    ensures Decode(Number(32, v), 0, OfValidation(w)) == Done(OfValidation(w.(isReverse := v != 0)))
    ensures var inner := Decode(s, 0, OfFrame(NO_FRAME));
            Decode(Block(18, s), 0, OfValidation(w)) ==
            if inner.Done? then Done(OfValidation(w.(frames := w.frames + [inner.message.frame]))) else inner
  {
    var m := OfValidation(w);
    BlockRead(m, 1, 10, s);
    BlockRead(m, 3, 26, s);
    NumberRead(m, 4, 32, v);
    BlockRead(m, 2, 18, s);
  }

  /** The texts and numbers of a thread. */
  lemma ThreadFields(t: Thread, s: Text, v: int)
    requires Short(s) && Int64(v)
    ensures Decode(Block(10, s), 0, OfThread(t)) == Done(OfThread(t.(threadId := s)))
    ensures Decode(Block(18, s), 0, OfThread(t)) == Done(OfThread(t.(taskId := s)))
    ensures Decode(Number(24, v), 0, OfThread(t)) == Done(OfThread(t.(startFrame := v)))
    ensures Decode(Number(32, v), 0, OfThread(t)) == Done(OfThread(t.(endFrame := v)))
    ensures Decode(Number(40, v), 0, OfThread(t)) == Done(OfThread(t.(scale := v)))
    ensures Decode(Number(48, v), 0, OfThread(t)) == Done(OfThread(t.(completed := v != 0)))
    ensures Decode(Block(58, s), 0, OfThread(t)) == Done(OfThread(t.(workers := t.workers + [s])))
    ensures Decode(Number(80, v), 0, OfThread(t)) == Done(OfThread(t.(averageRenderSeconds := v)))
  {
    var m := OfThread(t);
    BlockRead(m, 1, 10, s);
    BlockRead(m, 2, 18, s);
    NumberRead(m, 3, 24, v);
    NumberRead(m, 4, 32, v);
    NumberRead(m, 5, 40, v);
    NumberRead(m, 6, 48, v);
    BlockRead(m, 7, 58, s);
    NumberRead(m, 10, 80, v);
  }

  /** The records inside a thread: a second solution is merged into the first, a validation is added. */
  lemma ThreadRecords(t: Thread, s: seq<byte>)
    requires Short(s)
    ensures var inner := Decode(s, 0, OfSolution(if t.solution.Some? then t.solution.value else NO_SOLUTION));
            Decode(Block(66, s), 0, OfThread(t)) ==
            if inner.Done? then Done(OfThread(t.(solution := Some(inner.message.solution)))) else inner
    ensures var inner := Decode(s, 0, OfValidation(NO_VALIDATION));
            Decode(Block(74, s), 0, OfThread(t)) ==
            if inner.Done? then Done(OfThread(t.(validations := t.validations + [inner.message.validation]))) else inner
  {
    BlockRead(OfThread(t), 8, 66, s);
    BlockRead(OfThread(t), 9, 74, s);
  }

  /** The wire type each field number must have; None: the number is not the message's. */
  function Expected(t: Type, field: int): Option<int> {
    match t
    case TThread =>
      if field in {1, 2, 7, 8, 9} then Some(2) else if field in {3, 4, 5, 6, 10} then Some(0) else None
    case TSolution => if field in {1, 2, 3, 4} then Some(2) else if field == 5 then Some(0) else None
    case TValidation => if field in {1, 2, 3} then Some(2) else if field == 4 then Some(0) else None
    case TFrame => if field in {1, 2, 3, 4} then Some(2) else if field in {5, 6} then Some(0) else None
  }

  lemma TagRead(tag: byte, rest: seq<byte>, field: nat, wireType: nat)
    requires 0 < field && wireType < 8 && wireType != 4 && tag as int == field * 8 + wireType < 128
    ensures ReadTag([tag] + rest, 0) == Got((field, wireType), 1)
  {
    assert VarintFrom([tag] + rest, 0, 0) == Got(tag as int, 1);
  }

  /** A field of the message under any other wire type is refused, whatever follows it. */
  lemma MistypedField(m: Message, field: nat, wireType: nat, tag: byte, rest: seq<byte>)
    requires wireType < 8 && wireType != 4 && tag as int == field * 8 + wireType
    requires Expected(TypeOf(m), field).Some? && Expected(TypeOf(m), field).value != wireType
    ensures Decode([tag] + rest, 0, m) == Failed(WrongWireType)
  {
    TagRead(tag, rest, field, wireType);
  }
}
