/** Which bytes the generated decoder refuses, and with which error (types.pb.go). */
module Refusals {
  import opened Records
  import opened Wire
  import opened Messages
  import opened WireTable

  /** The n bytes from i on all have the continuation bit. */
  predicate Continued(d: seq<byte>, i: nat, n: nat) { i + n <= |d| && forall k :: i <= k < i + n ==> d[k] >= 128 }

  lemma {:induction false} ContinuedFrom(d: seq<byte>, i: nat, k: nat, n: nat)
    requires Continued(d, i, n) && k + n <= 10
    ensures k + n == 10 ==> VarintFrom(d, i, k) == Bad(IntOverflow)
    ensures k + n < 10 && i + n == |d| ==> VarintFrom(d, i, k) == Bad(UnexpectedEof)
    ensures k + n < 10 && i + n < |d| && d[i + n] < 128 ==>
      VarintFrom(d, i, k).Got? && VarintFrom(d, i, k).next == i + n + 1
    decreases n
  {
    if n > 0 {
      ContinuedFrom(d, i + 1, k + 1, n - 1);
    }
  }

  /** A varint of n continued bytes: the tenth one overflows, the end of the buffer cuts it short, and a byte without
      the bit ends it. */
  lemma VarintVerdict(d: seq<byte>, i: nat, n: nat)
    requires Continued(d, i, n) && n <= 10 && (n == 10 || i + n == |d| || d[i + n] < 128)
    ensures ReadVarint(d, i).Bad? <==> n == 10 || i + n == |d|
    ensures n == 10 ==> ReadVarint(d, i) == Bad(IntOverflow)
    ensures n < 10 && i + n == |d| ==> ReadVarint(d, i) == Bad(UnexpectedEof)
    ensures n < 10 && i + n < |d| ==> ReadVarint(d, i).next == i + n + 1
  {
    ContinuedFrom(d, i, 0, n);
  }

  lemma OneByteVarint(b: byte, rest: seq<byte>)
    requires b < 128
    ensures ReadVarint([b] + rest, 0) == Got(b as int, 1)
  {
    assert VarintFrom([b] + rest, 0, 0) == Got(b as int, 1);
  }

  /** The end of a group outside any group, and field number 0, are refused whatever follows. */
  lemma TagVerdict(m: Message, tag: byte, rest: seq<byte>)
    requires tag < 128
    ensures tag % 8 == 4 ==> Decode([tag] + rest, 0, m) == Failed(EndGroupForNonGroup)
    ensures tag < 8 && tag != 4 ==> Decode([tag] + rest, 0, m) == Failed(IllegalTag)
  {
    OneByteVarint(tag, rest);
  }

  lemma LengthAt(tag: byte, length: nat, s: seq<byte>)
    requires length < TWO64
    ensures ReadVarint([tag] + Varint(length) + s, 1) == Got(length, 1 + |Varint(length)|)
  {
    var d := [tag] + Varint(length) + s;
    assert d[1..1 + |Varint(length)|] == Varint(length);
    AtSlice(d, 1, Varint(length));
    ReadBack(d, 1, length);
  }

  lemma BlockField(m: Message, field: nat, tag: byte, length: nat, s: seq<byte>)
    requires tag as int == field * 8 + 2 && length < TWO64 && Expected(TypeOf(m), field) == Some(2)
    ensures var d := [tag] + Varint(length) + s;
            ReadBytes(d, 1, 2).Bad? ==> Decode(d, 0, m) == Failed(ReadBytes(d, 1, 2).error)
  {
    var d := [tag] + Varint(length) + s;
    assert d == [tag] + (Varint(length) + s);
    TagRead(tag, Varint(length) + s, field, 2);
    LengthAt(tag, length, s);
  }

  /** A text or nested record that announces more bytes than there are is cut short; one that announces more than an
      int64 can index has no valid length. */
  lemma LengthVerdict(m: Message, field: nat, tag: byte, length: nat, s: seq<byte>)
    requires tag as int == field * 8 + 2 && |s| < length < TWO64 && Expected(TypeOf(m), field) == Some(2)
    ensures Decode([tag] + Varint(length) + s, 0, m) ==
            Failed(if 1 + |Varint(length)| + length >= TWO63 then InvalidLength else UnexpectedEof)
  {
    LengthAt(tag, length, s);
    BlockField(m, field, tag, length, s);
  }

  lemma UnknownField(m: Message, field: nat, wireType: nat, tag: byte, rest: seq<byte>)
    requires 0 < field && wireType < 8 && wireType != 4 && tag as int == field * 8 + wireType < 128
    requires Expected(TypeOf(m), field).None?
    ensures var d := [tag] + rest;
            var skipped := SkipField(d, 0);
            Decode(d, 0, m) == if skipped.Bad? then Failed(skipped.error) else Decode(d, skipped.next, m)
  {
    TagRead(tag, rest, field, wireType);
  }

  lemma SkipOne(tag: byte, rest: seq<byte>, wireType: nat)
    requires wireType in {1, 5, 6, 7} && tag as int % 8 == wireType && tag < 128
    ensures var size := if wireType == 1 then 8 else 4;
            Skip([tag] + rest, 0, 0) == if wireType >= 6 then Bad(IllegalWireType) else Got((), 1 + size)
  {
    var d, size: nat := [tag] + rest, if wireType == 1 then 8 else 4;
    OneByteVarint(tag, rest);
    assert Resume(d, 1 + size, 0) == Got((), 1 + size);
    assert SkipPayload(d, 1, wireType, 0) == if wireType >= 6 then Bad(IllegalWireType) else Resume(d, 1 + size, 0);
  }

  lemma SkipFieldOne(tag: byte, rest: seq<byte>, wireType: nat)
    requires wireType in {1, 5, 6, 7} && tag as int % 8 == wireType && tag < 128
    ensures var size := if wireType == 1 then 8 else 4;
            SkipField([tag] + rest, 0) ==
            if wireType >= 6 then Bad(IllegalWireType)
            else if |rest| < size then Bad(UnexpectedEof) else Got((), 1 + size)
  {
    assert ([tag] + rest)[0..] == [tag] + rest;
    SkipOne(tag, rest, wireType);
  }

  /** An unknown field of wire type 6 or 7 is refused; a fixed-size one is passed over, or cut short. */
  lemma UnknownVerdict(m: Message, field: nat, wireType: nat, tag: byte, rest: seq<byte>, d: seq<byte>)
    requires 0 < field && wireType in {1, 5, 6, 7} && tag as int == field * 8 + wireType < 128
    requires Expected(TypeOf(m), field).None? && d == [tag] + rest
    ensures wireType >= 6 ==> Decode(d, 0, m) == Failed(IllegalWireType)
    ensures wireType == 1 ==> Decode(d, 0, m) == if |rest| < 8 then Failed(UnexpectedEof) else Decode(d, 9, m)
    ensures wireType == 5 ==> Decode(d, 0, m) == if |rest| < 4 then Failed(UnexpectedEof) else Decode(d, 5, m)
  {
    TagParts(field, wireType, tag);
    UnknownField(m, field, wireType, tag, rest);
    SkipFieldOne(tag, rest, wireType);
  }

  lemma TagParts(field: nat, wireType: nat, tag: byte)
    requires wireType < 8 && tag as int == field * 8 + wireType
    ensures tag as int % 8 == wireType
  {
  }
}
