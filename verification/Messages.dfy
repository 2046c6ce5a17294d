/** The protobuf form of a stored thread and of the records inside it. The generated code repeats one template for every
    message; here the template is written once and the four messages give it their field tables. */
module Messages {
  import opened Records
  import opened Wire

  datatype Message =
    | OfThread(thread: Thread)
    | OfSolution(solution: Solution)
    | OfValidation(validation: Validation)
    | OfFrame(frame: Frame)

  datatype Type = TThread | TSolution | TValidation | TFrame

  function TypeOf(m: Message): Type {
    match m
    case OfThread(_) => TThread
    case OfSolution(_) => TSolution
    case OfValidation(_) => TValidation
    case OfFrame(_) => TFrame
  }

  /** A field on the wire: a text or a nested message is bytes, a number or a flag is an int64. */
  datatype Raw = RBytes(field: nat, bytes: seq<byte>) | RInt(field: nat, value: int)

  // ---- encoding ----

  function WireTypeOf(r: Raw): nat { if r.RBytes? then 2 else 0 }

  function Payload(r: Raw): seq<byte> {
    match r
    case RBytes(_, b) => Varint(|b|) + b
    case RInt(_, v) => Varint(Unsigned(v))
  }

  function EncodeRaw(r: Raw): (s: seq<byte>)
    ensures |s| >= 1
  {
    Tag(r.field, WireTypeOf(r)) + Payload(r)
  }

  function EncodeRaws(rs: seq<Raw>): seq<byte> {
    if rs == [] then [] else EncodeRaw(rs[0]) + EncodeRaws(rs[1..])
  }

  function BytesSize(l: nat): nat { 1 + l + Sov(l) }

  function TextSize(s: Text): nat { if s == [] then 0 else BytesSize(|s|) }

  function IntSize(v: int): nat { if v == 0 then 0 else 1 + Sov(Unsigned(v)) }

  lemma SizeOfBytes(field: nat, s: seq<byte>, rest: seq<Raw>)
    requires field < 16
    ensures |EncodeRaws([RBytes(field, s)] + rest)| == BytesSize(|s|) + |EncodeRaws(rest)|
  {
    TagByte(field, 2);
    SovIsLength(|s|);
    assert ([RBytes(field, s)] + rest)[1..] == rest;
  }

  lemma SizeOfInt(field: nat, v: int, rest: seq<Raw>)
    requires field < 16
    ensures |EncodeRaws([RInt(field, v)] + rest)| == 1 + Sov(Unsigned(v)) + |EncodeRaws(rest)|
  {
    TagByte(field, 0);
    SovIsLength(Unsigned(v));
    assert ([RInt(field, v)] + rest)[1..] == rest;
  }

  /** A text field is written unless it is empty, in front of the fields after it. */
  function AddText(field: nat, s: Text, rest: seq<Raw>): (r: seq<Raw>)
    requires field < 16
    ensures |EncodeRaws(r)| == TextSize(s) + |EncodeRaws(rest)|
  {
    SizeOfBytes(field, s, rest);
    if s == [] then rest else [RBytes(field, s)] + rest
  }

  function AddInt(field: nat, v: int, rest: seq<Raw>): (r: seq<Raw>)
    requires field < 16
    ensures |EncodeRaws(r)| == IntSize(v) + |EncodeRaws(rest)|
  {
    SizeOfInt(field, v, rest);
    if v == 0 then rest else [RInt(field, v)] + rest
  }

  function AddFlag(field: nat, b: bool, rest: seq<Raw>): (r: seq<Raw>)
    requires field < 16
    ensures |EncodeRaws(r)| == (if b then 2 else 0) + |EncodeRaws(rest)|
  {
    assert Sov(1) == 1;
    AddInt(field, if b then 1 else 0, rest)
  }

  /** A repeated field is written element by element, empty elements too. */
  function AddAll(field: nat, ss: seq<seq<byte>>, rest: seq<Raw>): (r: seq<Raw>)
    requires field < 16
    ensures |EncodeRaws(r)| == AllSize(ss) + |EncodeRaws(rest)|
  {
    if ss == [] then rest
    else
      var tail := AddAll(field, ss[1..], rest);
      SizeOfBytes(field, ss[0], tail);
      [RBytes(field, ss[0])] + tail
  }

  function AllSize(ss: seq<seq<byte>>): nat {
    if ss == [] then 0 else BytesSize(|ss[0]|) + AllSize(ss[1..])
  }

  function FrameParts(f: Frame): seq<Raw> {
    AddText(1, f.filename, AddText(2, f.signature, AddText(3, f.cid, AddText(4, f.hash,
      AddInt(5, f.validCount, AddInt(6, f.invalidCount, []))))))
  }

  function EncodeFrame(f: Frame): seq<byte> { EncodeRaws(FrameParts(f)) }

  function EncodeFrames(fs: seq<Frame>): (r: seq<seq<byte>>)
    ensures |r| == |fs| && forall k :: 0 <= k < |fs| ==> r[k] == EncodeFrame(fs[k])
  {
    if fs == [] then [] else [EncodeFrame(fs[0])] + EncodeFrames(fs[1..])
  }

  function SolutionParts(s: Solution): seq<Raw> {
    AddText(1, s.proposedBy, AddAll(2, EncodeFrames(s.frames), AddText(3, s.publicKey, AddText(4, s.dir,
      AddFlag(5, s.accepted, [])))))
  }

  function ValidationParts(v: Validation): seq<Raw> {
    AddText(1, v.validator, AddAll(2, EncodeFrames(v.frames), AddText(3, v.publicKey, AddFlag(4, v.isReverse, []))))
  }

  function EncodeSolution(s: Solution): seq<byte> { EncodeRaws(SolutionParts(s)) }

  function EncodeValidation(v: Validation): seq<byte> { EncodeRaws(ValidationParts(v)) }

  function EncodeValidations(vs: seq<Validation>): (r: seq<seq<byte>>)
    ensures |r| == |vs| && forall k :: 0 <= k < |vs| ==> r[k] == EncodeValidation(vs[k])
  {
    if vs == [] then [] else [EncodeValidation(vs[0])] + EncodeValidations(vs[1..])
  }

  function EncodedSolution(s: Option<Solution>): seq<seq<byte>> {
    if s.None? then [] else [EncodeSolution(s.value)]
  }

  function ThreadParts(t: Thread): seq<Raw> {
    AddText(1, t.threadId, AddText(2, t.taskId, NumberParts(t)))
  }

  /** The numbers and everything after them. */
  function NumberParts(t: Thread): seq<Raw> {
    AddInt(3, t.startFrame, AddInt(4, t.endFrame, AddInt(5, t.scale, AddFlag(6, t.completed, RepeatedParts(t)))))
  }

  /** The workers and everything after them. */
  function RepeatedParts(t: Thread): seq<Raw> {
    AddAll(7, t.workers, AddAll(8, EncodedSolution(t.solution), AddAll(9, EncodeValidations(t.validations),
      AddInt(10, t.averageRenderSeconds, []))))
  }

  function Parts(m: Message): seq<Raw> {
    match m
    case OfThread(t) => ThreadParts(t)
    case OfSolution(s) => SolutionParts(s)
    case OfValidation(v) => ValidationParts(v)
    case OfFrame(f) => FrameParts(f)
  }

  function Encode(m: Message): seq<byte> { EncodeRaws(Parts(m)) }

  // ---- decoding ----

  datatype Kind = KText | KInt | KSub | KNone

  /** The switch of each Unmarshal. */
  function KindOf(t: Type, num: int): Kind {
    match t
    case TThread =>
      if num == 1 || num == 2 || num == 7 then KText
      else if num == 8 || num == 9 then KSub
      else if 3 <= num <= 6 || num == 10 then KInt
      else KNone
    case TSolution => if num == 2 then KSub else if num == 5 then KInt else if 1 <= num <= 4 then KText else KNone
    case TValidation => if num == 2 then KSub else if num == 4 then KInt else if 1 <= num <= 3 then KText else KNone
    case TFrame => if 1 <= num <= 4 then KText else if 5 <= num <= 6 then KInt else KNone
  }

  const NO_FRAME := Frame([], [], [], [], 0, 0)
  const NO_SOLUTION := Solution([], [], [], [], false)
  const NO_VALIDATION := Validation([], [], [], false)
  const NO_THREAD := Thread([], [], 0, 0, 0, false, [], None, [], 0)

  function Zero(t: Type): Message {
    match t
    case TThread => OfThread(NO_THREAD)
    case TSolution => OfSolution(NO_SOLUTION)
    case TValidation => OfValidation(NO_VALIDATION)
    case TFrame => OfFrame(NO_FRAME)
  }

  /** A text field is replaced, a repeated one grows. */
  function SetText(m: Message, num: int, s: Text): (r: Message)
    ensures TypeOf(r) == TypeOf(m)
  {
    match m
    case OfThread(t) =>
      OfThread(if num == 1 then t.(threadId := s) else if num == 2 then t.(taskId := s)
               else t.(workers := t.workers + [s]))
    case OfSolution(o) =>
      OfSolution(if num == 1 then o.(proposedBy := s) else if num == 3 then o.(publicKey := s) else o.(dir := s))
    case OfValidation(v) => OfValidation(if num == 1 then v.(validator := s) else v.(publicKey := s))
    case OfFrame(f) =>
      OfFrame(if num == 1 then f.(filename := s) else if num == 2 then f.(signature := s)
              else if num == 3 then f.(cid := s) else f.(hash := s))
  }

  function SetInt(m: Message, num: int, v: int): (r: Message)
    ensures TypeOf(r) == TypeOf(m)
  {
    match m
    case OfThread(t) =>
      OfThread(if num == 3 then t.(startFrame := v) else if num == 4 then t.(endFrame := v)
               else if num == 5 then t.(scale := v) else if num == 6 then t.(completed := v != 0)
               else t.(averageRenderSeconds := v))
    case OfSolution(o) => OfSolution(o.(accepted := v != 0))
    case OfValidation(w) => OfValidation(w.(isReverse := v != 0))
    case OfFrame(f) => OfFrame(if num == 5 then f.(validCount := v) else f.(invalidCount := v))
  }

  function SubType(t: Type, num: int): Type
    requires KindOf(t, num) == KSub
  {
    if t != TThread then TFrame else if num == 8 then TSolution else TValidation
  }

  /** A nested message is decoded into a fresh record, except that a second solution is merged into the first. */
  function SubStart(m: Message, num: int): (r: Message)
    requires KindOf(TypeOf(m), num) == KSub
    ensures TypeOf(r) == SubType(TypeOf(m), num)
  {
    if num == 8 && m.thread.solution.Some? then OfSolution(m.thread.solution.value) else Zero(SubType(TypeOf(m), num))
  }

  function SetSub(m: Message, num: int, sub: Message): (r: Message)
    requires KindOf(TypeOf(m), num) == KSub && TypeOf(sub) == SubType(TypeOf(m), num)
    ensures TypeOf(r) == TypeOf(m)
  {
    match m
    case OfThread(t) =>
      OfThread(if num == 8 then t.(solution := Some(sub.solution))
               else t.(validations := t.validations + [sub.validation]))
    case OfSolution(o) => OfSolution(o.(frames := o.frames + [sub.frame]))
    case OfValidation(v) => OfValidation(v.(frames := v.frames + [sub.frame]))
  }

  datatype Decoded = Done(message: Message) | Failed(error: Error)

  /** r is a field of messages of type t. */
  predicate Known(t: Type, r: Raw) {
    match r
    case RInt(num, _) => KindOf(t, num) == KInt
    case RBytes(num, _) => KindOf(t, num) == KText || KindOf(t, num) == KSub
  }

  /** The effect of one known field. */
  function Apply(m: Message, r: Raw): (o: Decoded)
    requires Known(TypeOf(m), r)
    ensures o.Done? ==> TypeOf(o.message) == TypeOf(m)
    decreases if r.RBytes? then |r.bytes| else 0, 2, 0
  {
    match r
    case RInt(num, v) => Done(SetInt(m, num, v))
    case RBytes(num, s) =>
      if KindOf(TypeOf(m), num) == KText then Done(SetText(m, num, s))
      else
        match Decode(s, 0, SubStart(m, num))
        case Failed(e) => Failed(e)
        case Done(sub) => Done(SetSub(m, num, sub))
  }

  /** Unmarshal into m, from index i on. */
  function Decode(d: seq<byte>, i: nat, m: Message): (o: Decoded)
    requires i <= |d|
    ensures o.Done? ==> TypeOf(o.message) == TypeOf(m)
    decreases |d|, 1, |d| - i, 1
  {
    if i == |d| then Done(m)
    else
      match ReadTag(d, i)
      case Bad(e) => Failed(e)
      case Got(tag, j) => Field(d, i, j, tag.0, tag.1, m)
  }

  /** The field that starts at i and whose payload starts at j. */
  function Field(d: seq<byte>, i: nat, j: nat, num: int, wireType: nat, m: Message): (o: Decoded)
    requires i < j <= |d| && num > 0
    ensures o.Done? ==> TypeOf(o.message) == TypeOf(m)
    decreases |d|, 1, |d| - i, 0
  {
    match KindOf(TypeOf(m), num)
    case KInt =>
      (match ReadInt(d, j, wireType)
       case Bad(e) => Failed(e)
       case Got(v, n) => Rest(d, n, Apply(m, RInt(num, v))))
    case KNone =>
      (match SkipField(d, i)
       case Bad(e) => Failed(e)
       case Got(_, n) => Decode(d, n, m))
    case _ =>
      (match ReadBytes(d, j, wireType)
       case Bad(e) => Failed(e)
       case Got(s, n) => Rest(d, n, Apply(m, RBytes(num, s))))
  }

  function Rest(d: seq<byte>, i: nat, o: Decoded): (r: Decoded)
    requires i <= |d|
    ensures r.Done? ==> o.Done? && TypeOf(r.message) == TypeOf(o.message)
    decreases |d|, 1, |d| - i, 2
  {
    match o
    case Failed(e) => o
    case Done(m) => Decode(d, i, m)
  }
}
