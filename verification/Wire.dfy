/** The protobuf wire format of types.pb.go: varints, tags, lengths and unknown fields, on any bytes. A uint64 is its
    value; `|=` of disjoint bits is addition; a buffer is shorter than 2^63, so an int sum overflows when it reaches it. */
module Wire {
  import opened Records

  const TWO32: int := 0x1_0000_0000
  const TWO63: int := 0x8000_0000_0000_0000
  const TWO64: int := 0x1_0000_0000_0000_0000

  datatype Error =
    | IntOverflow | UnexpectedEof | InvalidLength | UnexpectedEndOfGroup | EndGroupForNonGroup | IllegalTag
    | WrongWireType | IllegalWireType

  /** A value read and the index after it. */
  datatype Read<+T> = Got(value: T, next: nat) | Bad(error: Error)

  // ---- bytes in place ----

  /** `s` stands in `d` at i. */
  predicate At(d: seq<byte>, i: nat, s: seq<byte>): (r: bool)
    ensures r ==> i + |s| <= |d|
    decreases |s|
  {
    if s == [] then i <= |d| else i < |d| && d[i] == s[0] && At(d, i + 1, s[1..])
  }

  lemma {:induction false} AtSlice(d: seq<byte>, i: nat, s: seq<byte>)
    ensures At(d, i, s) <==> i + |s| <= |d| && d[i..i + |s|] == s
    decreases |s|
  {
    if s != [] {
      AtSlice(d, i + 1, s[1..]);
      if i + |s| <= |d| {
        assert d[i..i + |s|] == [d[i]] + d[i + 1..i + |s|];
        assert s == [s[0]] + s[1..];
      }
    }
  }

  lemma AtSplit(d: seq<byte>, i: nat, a: seq<byte>, b: seq<byte>)
    requires At(d, i, a + b)
    ensures At(d, i, a) && At(d, i + |a|, b) && i + |a| + |b| <= |d|
  {
    AtSlice(d, i, a + b);
    var s := d[i..i + |a + b|];
    assert a == s[..|a|] && b == s[|a|..];
    AtSlice(d, i, a);
    AtSlice(d, i + |a|, b);
  }

  // ---- varints ----

  function Varint(v: nat): (s: seq<byte>)
    ensures |s| >= 1
  {
    if v < 128 then [v as byte] else [(v % 128 + 128) as byte] + Varint(v / 128)
  }

  /** The k-th byte (0-based) of a varint is at i; at most ten bytes are read. */
  function VarintFrom(d: seq<byte>, i: nat, k: nat): (r: Read<nat>)
    ensures r.Got? ==> i < r.next <= |d|
    decreases 10 - k
  {
    if k >= 10 then Bad(IntOverflow)
    else if i >= |d| then Bad(UnexpectedEof)
    else
      var b := d[i] as int;
      if b < 128 then Got(b, i + 1)
      else
        match VarintFrom(d, i + 1, k + 1)
        case Bad(e) => Bad(e)
        case Got(v, n) => Got(b - 128 + 128 * v, n)
  }

  /** Bits shifted past the 64th are lost. */
  function ReadVarint(d: seq<byte>, i: nat): (r: Read<nat>)
    ensures r.Got? ==> i < r.next <= |d| && r.value < TWO64
  {
    match VarintFrom(d, i, 0)
    case Bad(e) => Bad(e)
    case Got(v, n) => Got(v % TWO64, n)
  }

  /** x << (7 * k) */
  function Shl(x: nat, k: nat): nat { if k == 0 then x else 128 * Shl(x, k - 1) }

  lemma {:induction false} ShlAdds(a: nat, b: nat, k: nat)
    ensures Shl(a + 128 * b, k) == Shl(a, k) + Shl(b, k + 1)
  {
    if k > 0 {
      ShlAdds(a, b, k - 1);
    }
  }

  /** The result of reading on from the k-th byte, on top of the bits read so far. */
  function Onto(r: Read<nat>, sum: nat, k: nat): Read<nat> {
    match r
    case Bad(e) => Bad(e)
    case Got(v, n) => Got(sum + Shl(v, k), n)
  }

  lemma OneMoreByte(d: seq<byte>, i: nat, k: nat, sum: nat)
    requires k < 10 && i < |d|
    ensures var b := d[i] as int;
            Onto(VarintFrom(d, i, k), sum, k) ==
            if b < 128 then Got(sum + Shl(b, k), i + 1)
            else Onto(VarintFrom(d, i + 1, k + 1), sum + Shl(b - 128, k), k + 1)
  {
    var b, rest := d[i] as int, VarintFrom(d, i + 1, k + 1);
    if b >= 128 && rest.Got? {
      ShlAdds(b - 128, rest.value, k);
    }
  }

  lemma ModStep(a: nat, b: nat)
    ensures (a % TWO64 + b) % TWO64 == (a + b) % TWO64
  {
  }

  /** The k bytes from start to i are worth `sum`, of which the loop keeps 64 bits. */
  predicate Partial(d: seq<byte>, start: nat, i: nat, k: nat, sum: nat, value: nat) {
    k <= 10 && value == sum % TWO64 && VarintFrom(d, start, 0) == Onto(VarintFrom(d, i, k), sum, k)
  }

  lemma NoByte(d: seq<byte>, start: nat, i: nat, k: nat, sum: nat, value: nat)
    requires Partial(d, start, i, k, sum, value) && (k == 10 || i >= |d|)
    ensures ReadVarint(d, start) == Bad(if k == 10 then IntOverflow else UnexpectedEof)
  {
  }

  lemma TakeByte(d: seq<byte>, start: nat, i: nat, k: nat, sum: nat, value: nat, bits: nat, value': nat)
    requires Partial(d, start, i, k, sum, value) && k < 10 && i < |d|
    requires bits == Shl(if d[i] < 128 then d[i] as int else d[i] as int - 128, k) && value' == (value + bits) % TWO64
    ensures if d[i] < 128 then ReadVarint(d, start) == Got(value', i + 1)
            else Partial(d, start, i + 1, k + 1, sum + bits, value')
  {
    OneMoreByte(d, i, k, sum);
    ModStep(sum, bits);
  }

  /** The decoding loop that the generated code repeats at every varint. */
  method DecodeVarint(d: seq<byte>, start: nat) returns (r: Read<nat>)
    ensures r == ReadVarint(d, start)
  {
    var value: nat, k: nat, i: nat := 0, 0, start;
    ghost var sum: nat := 0;
    while true
      invariant Partial(d, start, i, k, sum, value)
      decreases 10 - k
    {
      if 7 * k >= 64 {
        NoByte(d, start, i, k, sum, value);
        return Bad(IntOverflow);
      }
      if i >= |d| {
        NoByte(d, start, i, k, sum, value);
        return Bad(UnexpectedEof);
      }
      var b := d[i] as int;
      var bits := Shl(if b < 128 then b else b - 128, k);
      var next := (value + bits) % TWO64;
      TakeByte(d, start, i, k, sum, value, bits, next);
      i := i + 1;
      value := next;
      sum := sum + bits;
      if b < 128 {
        return Got(value, i);
      }
      k := k + 1;
    }
  }

  /** The bytes from the k-th on of a varint: all but the last carry the continuation bit, and ten is the most. A value
      may be spelled with more bytes than it needs. */
  predicate VarintTail(s: seq<byte>, k: nat)
    decreases s
  {
    s != [] && k < 10 && if s[0] < 128 then |s| == 1 else VarintTail(s[1..], k + 1)
  }

  predicate IsVarint(s: seq<byte>) { VarintTail(s, 0) }

  /** The seven low bits of every byte, the first byte's lowest. */
  function Bits(s: seq<byte>): nat {
    if s == [] then 0 else (s[0] as int) % 128 + 128 * Bits(s[1..])
  }

  function ValueOf(s: seq<byte>): nat { Bits(s) % TWO64 }

  lemma {:induction false} TailBack(d: seq<byte>, i: nat, k: nat, s: seq<byte>)
    requires VarintTail(s, k) && At(d, i, s)
    ensures VarintFrom(d, i, k) == Got(Bits(s), i + |s|)
    decreases s
  {
    if s[0] >= 128 {
      TailBack(d, i + 1, k + 1, s[1..]);
    } else {
      assert s[1..] == [];
    }
  }

  /** Any varint, of any of the lengths it may have, is read back, and nothing after it is looked at. */
  lemma AnyReadBack(d: seq<byte>, i: nat, s: seq<byte>)
    requires IsVarint(s) && At(d, i, s)
    ensures ReadVarint(d, i) == Got(ValueOf(s), i + |s|)
  {
    TailBack(d, i, 0, s);
  }

  function Pow128(n: nat): nat { if n == 0 then 1 else 128 * Pow128(n - 1) }

  lemma {:induction false} ShortestTail(k: nat, v: nat)
    requires k < 10 && v < Pow128(10 - k)
    ensures VarintTail(Varint(v), k) && Bits(Varint(v)) == v
    decreases v
  {
    if v < 128 {
      assert Varint(v)[1..] == [];
    } else {
      assert Pow128(1) == 128;
      assert k < 9;
      assert v / 128 < Pow128(9 - k);
      assert Varint(v)[1..] == Varint(v / 128);
      ShortestTail(k + 1, v / 128);
    }
  }

  /** What is written for a 64-bit value is a varint of that value. */
  lemma ShortestVarint(v: nat)
    requires v < TWO64
    ensures IsVarint(Varint(v)) && ValueOf(Varint(v)) == v
  {
    assert Pow128(10) == 128 * 128 * Pow128(8) && Pow128(8) == 128 * 128 * 128 * 128 * Pow128(4);
    assert Pow128(4) == 128 * 128 * 128 * 128;
    ShortestTail(0, v);
  }

  /** A 64-bit varint written at i is read back, and nothing after it is looked at. */
  lemma ReadBack(d: seq<byte>, i: nat, v: nat)
    requires v < TWO64
    requires At(d, i, Varint(v))
    ensures ReadVarint(d, i) == Got(v, i + |Varint(v)|)
  {
    ShortestVarint(v);
    AnyReadBack(d, i, Varint(v));
  }

  function BitLen(x: nat): nat { if x == 0 then 0 else 1 + BitLen(x / 2) }

  /** x|1 */
  function WithLowBit(x: nat): nat { if x % 2 == 0 then x + 1 else x }

  /** sovTypes */
  function Sov(x: nat): nat { (BitLen(WithLowBit(x)) + 6) / 7 }

  lemma BitLenBy128(x: nat)
    requires x >= 128
    ensures BitLen(x) == 7 + BitLen(x / 128)
  {
    var a, b, c, e, f, g := x / 2, x / 2 / 2, x / 2 / 2 / 2, x / 2 / 2 / 2 / 2, x / 2 / 2 / 2 / 2 / 2,
                            x / 2 / 2 / 2 / 2 / 2 / 2;
    assert BitLen(x) == 2 + BitLen(b) && BitLen(b) == 2 + BitLen(e) && BitLen(e) == 2 + BitLen(g);
    assert g / 2 == x / 128;
  }

  function Pow2(n: nat): nat { if n == 0 then 1 else 2 * Pow2(n - 1) }

  lemma {:induction false} BitLenAtMost(x: nat, n: nat)
    requires x < Pow2(n)
    ensures BitLen(x) <= n
  {
    if x > 0 {
      BitLenAtMost(x / 2, n - 1);
    }
  }

  /** sovTypes is the length of the varint. */
  lemma {:induction false} SovIsLength(v: nat)
    ensures Sov(v) == |Varint(v)|
    decreases v
  {
    if v < 128 {
      assert Pow2(7) == 8 * Pow2(4) && Pow2(4) == 8 * Pow2(1);
      BitLenAtMost(WithLowBit(v), 7);
    } else {
      SovIsLength(v / 128);
      BitLenBy128(WithLowBit(v));
      assert WithLowBit(v) / 128 == v / 128;
      LowBitKeepsLength(v / 128);
    }
  }

  lemma LowBitKeepsLength(x: nat)
    requires x > 0
    ensures BitLen(WithLowBit(x)) == BitLen(x)
  {
    assert WithLowBit(x) / 2 == x / 2;
  }

  // ---- integers ----

  predicate Int64(x: int) { -TWO63 <= x < TWO63 }

  /** uint64(x) and int64(v) */
  function Unsigned(x: int): (v: nat)
    ensures v < TWO64
    ensures Int64(x) ==> Signed(v) == x
  {
    x % TWO64
  }

  function Signed(v: nat): int
    requires v < TWO64
  {
    if v < TWO63 then v else v - TWO64
  }

  /** int32(v), from the low 32 bits. */
  function Low32(v: nat): int {
    var low := v % TWO32;
    if low < TWO32 / 2 then low else low - TWO32
  }

  // ---- tags and payloads ----

  /** Field number and wire type; the checks come in the generated code's order. */
  function ReadTag(d: seq<byte>, i: nat): (r: Read<(int, nat)>)
    ensures r.Got? ==> i < r.next <= |d| && r.value.0 > 0
  {
    match ReadVarint(d, i)
    case Bad(e) => Bad(e)
    case Got(wire, n) =>
      if wire % 8 == 4 then Bad(EndGroupForNonGroup)
      else if Low32(wire / 8) <= 0 then Bad(IllegalTag)
      else Got((Low32(wire / 8), wire % 8), n)
  }

  function ReadBytes(d: seq<byte>, i: nat, wireType: nat): (r: Read<seq<byte>>)
    ensures r.Got? ==> i < r.next <= |d| && |r.value| <= r.next - i - 1
  {
    if wireType != 2 then Bad(WrongWireType)
    else
      match ReadVarint(d, i)
      case Bad(e) => Bad(e)
      case Got(v, j) =>
        var length := Signed(v);
        if length < 0 || j + length >= TWO63 then Bad(InvalidLength)
        else if j + length > |d| then Bad(UnexpectedEof)
        else Got(d[j..j + length], j + length)
  }

  function ReadInt(d: seq<byte>, i: nat, wireType: nat): (r: Read<int>)
    ensures r.Got? ==> i < r.next <= |d|
  {
    if wireType != 0 then Bad(WrongWireType)
    else
      match ReadVarint(d, i)
      case Bad(e) => Bad(e)
      case Got(v, n) => Got(Signed(v), n)
  }

  function Tag(field: nat, wireType: nat): seq<byte> { Varint(field * 8 + wireType) }

  lemma TagBack(d: seq<byte>, i: nat, tag: seq<byte>, field: nat, wireType: nat)
    requires 1 <= field < TWO32 / 2 && wireType < 8 && wireType != 4 && IsTag(tag, field, wireType) && At(d, i, tag)
    ensures ReadTag(d, i) == Got((field, wireType), i + |tag|)
  {
    AnyReadBack(d, i, tag);
  }

  lemma IntBack(d: seq<byte>, i: nat, v: int)
    requires Int64(v) && At(d, i, Varint(Unsigned(v)))
    ensures ReadInt(d, i, 0) == Got(v, i + |Varint(Unsigned(v))|)
  {
    ReadBack(d, i, Unsigned(v));
  }

  lemma LengthRead(d: seq<byte>, i: nat, length: nat, j: nat, end: nat)
    requires ReadVarint(d, i) == Got(length, j) && end == j + length && length < TWO63 && end <= |d| < TWO63
    ensures ReadBytes(d, i, 2) == Got(d[j..end], end)
  {
  }

  lemma BytesBack(d: seq<byte>, i: nat, s: seq<byte>)
    requires |d| < TWO63 && At(d, i, Varint(|s|) + s)
    ensures ReadBytes(d, i, 2) == Got(s, i + |Varint(|s|) + s|)
  {
    var j := i + |Varint(|s|)|;
    AtSplit(d, i, Varint(|s|), s);
    ReadBack(d, i, |s|);
    AtSlice(d, j, s);
    LengthRead(d, i, |s|, j, j + |s|);
  }

  /** The tag of every modelled field is one byte. */
  lemma TagByte(field: nat, wireType: nat)
    requires field < 16 && wireType < 8
    ensures Tag(field, wireType) == [(field * 8 + wireType) as byte]
  {
  }

  // ---- unknown fields ----

  /** skipTypes from index i inside `depth` groups: the index after the field, which may lie past the end. */
  function Skip(d: seq<byte>, i: nat, depth: nat): (r: Read<()>)
    ensures r.Got? ==> i < r.next
    decreases if i < |d| then |d| - i else 0, 2
  {
    if i >= |d| then Bad(UnexpectedEof)
    else
      match ReadVarint(d, i)
      case Bad(e) => Bad(e)
      case Got(wire, j) => SkipPayload(d, j, wire % 8, depth)
  }

  /** The payload of a skipped field, and whatever is still open after it. */
  function SkipPayload(d: seq<byte>, j: nat, wireType: nat, depth: nat): (r: Read<()>)
    requires j <= |d|
    ensures r.Got? ==> j <= r.next
    decreases |d| - j, 4
  {
    match wireType
    case 0 => (match ReadVarint(d, j) case Bad(e) => Bad(e) case Got(_, n) => Resume(d, n, depth))
    case 1 => Resume(d, j + 8, depth)
    case 2 =>
      (match ReadVarint(d, j)
       case Bad(e) => Bad(e)
       case Got(v, n) => if Signed(v) < 0 then Bad(InvalidLength) else Resume(d, n + Signed(v), depth))
    case 3 => Resume(d, j, depth + 1)
    case 4 => if depth == 0 then Bad(UnexpectedEndOfGroup) else Resume(d, j, depth - 1)
    case 5 => Resume(d, j + 4, depth)
    case _ => Bad(IllegalWireType)
  }

  /** The end of one turn of the loop: the index has overflowed, the field is over, or a group is still open. */
  function Resume(d: seq<byte>, n: nat, depth: nat): (r: Read<()>)
    ensures r.Got? ==> n <= r.next
    decreases if n < |d| then |d| - n else 0, 3
  {
    if n >= TWO63 then Bad(InvalidLength) else if depth == 0 then Got((), n) else Skip(d, n, depth)
  }

  /** The switch: the number of open groups and the index after the payload. */
  method SkipValue(d: seq<byte>, j: nat, wireType: nat, depth: nat) returns (r: Read<nat>)
    requires j <= |d| && wireType < 8
    ensures SkipPayload(d, j, wireType, depth) == match r case Bad(e) => Bad(e) case Got(open, n) => Resume(d, n, open)
    ensures r.Got? ==> j <= r.next
  {
    match wireType {
      case 0 =>
        var v := DecodeVarint(d, j);
        return if v.Bad? then Bad(v.error) else Got(depth, v.next);
      case 1 => return Got(depth, j + 8);
      case 2 =>
        var length := DecodeVarint(d, j);
        if length.Bad? {
          return Bad(length.error);
        }
        if Signed(length.value) < 0 {
          return Bad(InvalidLength);
        }
        return Got(depth, length.next + Signed(length.value));
      case 3 => return Got(depth + 1, j);
      case 4 => return if depth == 0 then Bad(UnexpectedEndOfGroup) else Got(depth - 1, j);
      case 5 => return Got(depth, j + 4);
      case _ => return Bad(IllegalWireType);
    }
  }

  method SkipTypes(d: seq<byte>) returns (r: Read<()>)
    ensures r == Skip(d, 0, 0)
  {
    var i: nat, depth: nat := 0, 0;
    while i < |d|
      invariant Skip(d, 0, 0) == Skip(d, i, depth)
      decreases |d| - i
    {
      var tag := DecodeVarint(d, i);
      if tag.Bad? {
        return Bad(tag.error);
      }
      var rest := SkipValue(d, tag.next, tag.value % 8, depth);
      if rest.Bad? {
        return Bad(rest.error);
      }
      if rest.next >= TWO63 {
        return Bad(InvalidLength);
      }
      if rest.value == 0 {
        return Got((), rest.next);
      }
      i, depth := rest.next, rest.value;
    }
    return Bad(UnexpectedEof);
  }

  /** The default branch of every Unmarshal: skip the field that starts at i. */
  function SkipField(d: seq<byte>, i: nat): (r: Read<()>)
    requires i <= |d|
    ensures r.Got? ==> i < r.next <= |d|
  {
    match Skip(d[i..], 0, 0)
    case Bad(e) => Bad(e)
    case Got(_, n) =>
      if i + n >= TWO63 then Bad(InvalidLength)
      else if i + n > |d| then Bad(UnexpectedEof)
      else Got((), i + n)
  }

  /** A well-formed field of any wire type, groups nested to any depth. Tags, values and lengths are varints of any
      spelling. */
  datatype Foreign =
    | FVarint(tag: seq<byte>, value: seq<byte>)
    | FFixed64(tag: seq<byte>, bytes: seq<byte>)
    | FBytes(tag: seq<byte>, length: seq<byte>, bytes: seq<byte>)
    | FGroup(tag: seq<byte>, body: seq<Foreign>, close: seq<byte>)
    | FFixed32(tag: seq<byte>, bytes: seq<byte>)

  predicate IsTag(s: seq<byte>, field: nat, wireType: nat) {
    IsVarint(s) && ValueOf(s) == field * 8 + wireType
  }

  function FieldOf(u: Foreign): nat { ValueOf(u.tag) / 8 }

  predicate ForeignFits(u: Foreign) {
    && 1 <= FieldOf(u) < TWO32 / 2 && IsTag(u.tag, FieldOf(u), WireType(u))
    && match u
       case FVarint(_, value) => IsVarint(value)
       case FFixed64(_, bytes) => |bytes| == 8
       case FBytes(_, length, bytes) => |bytes| < TWO63 && IsVarint(length) && ValueOf(length) == |bytes|
       case FGroup(_, body, close) => IsTag(close, FieldOf(u), 4) && forall x :: x in body ==> ForeignFits(x)
       case FFixed32(_, bytes) => |bytes| == 4
  }

  function WireType(u: Foreign): nat {
    match u
    case FVarint(_, _) => 0
    case FFixed64(_, _) => 1
    case FBytes(_, _, _) => 2
    case FGroup(_, _, _) => 3
    case FFixed32(_, _) => 5
  }

  /** What follows the tag. */
  function ForeignPayload(u: Foreign): seq<byte>
    decreases u, 0
  {
    match u
    case FVarint(_, value) => value
    case FFixed64(_, bytes) => bytes
    case FBytes(_, length, bytes) => length + bytes
    case FGroup(_, body, close) => EncodeForeigns(body) + close
    case FFixed32(_, bytes) => bytes
  }

  function EncodeForeign(u: Foreign): seq<byte>
    decreases u, 1
  {
    u.tag + ForeignPayload(u)
  }

  function EncodeForeigns(us: seq<Foreign>): seq<byte>
    decreases us
  {
    if us == [] then [] else EncodeForeign(us[0]) + EncodeForeigns(us[1..])
  }

  lemma SkipStart(d: seq<byte>, i: nat, depth: nat, tag: seq<byte>, field: nat, wireType: nat)
    requires wireType < 8 && IsTag(tag, field, wireType) && At(d, i, tag)
    ensures Skip(d, i, depth) == SkipPayload(d, i + |tag|, wireType, depth)
  {
    AnyReadBack(d, i, tag);
    assert ValueOf(tag) % 8 == wireType;
  }

  lemma SkipBytes(d: seq<byte>, j: nat, depth: nat, length: seq<byte>, bytes: seq<byte>)
    requires IsVarint(length) && ValueOf(length) == |bytes| && At(d, j, length + bytes) && |d| < TWO63
    ensures SkipPayload(d, j, 2, depth) == Resume(d, j + |length + bytes|, depth)
  {
    AtSplit(d, j, length, bytes);
    AnyReadBack(d, j, length);
  }

  /** skipTypes passes over any well-formed field, nested groups included. */
  lemma {:induction false} SkipForeign(d: seq<byte>, i: nat, depth: nat, u: Foreign)
    requires ForeignFits(u) && At(d, i, EncodeForeign(u)) && |d| < TWO63
    ensures Skip(d, i, depth) == Resume(d, i + |EncodeForeign(u)|, depth)
    decreases u, 2
  {
    AtSplit(d, i, u.tag, ForeignPayload(u));
    SkipStart(d, i, depth, u.tag, FieldOf(u), WireType(u));
    SkipRest(d, i + |u.tag|, depth, u);
  }

  lemma SkipRest(d: seq<byte>, j: nat, depth: nat, u: Foreign)
    requires ForeignFits(u) && At(d, j, ForeignPayload(u)) && |d| < TWO63
    ensures SkipPayload(d, j, WireType(u), depth) == Resume(d, j + |ForeignPayload(u)|, depth)
    decreases u, 1
  {
    match u
    case FVarint(_, value) => AnyReadBack(d, j, value);
    case FBytes(_, length, bytes) => SkipBytes(d, j, depth, length, bytes);
    case FGroup(_, body, close) => SkipGroup(d, j, depth, body, close, FieldOf(u));
    case _ =>
  }

  lemma SkipGroup(d: seq<byte>, j: nat, depth: nat, body: seq<Foreign>, close: seq<byte>, field: nat)
    requires IsTag(close, field, 4) && forall x :: x in body ==> ForeignFits(x)
    requires At(d, j, EncodeForeigns(body) + close) && |d| < TWO63
    ensures SkipPayload(d, j, 3, depth) == Resume(d, j + |EncodeForeigns(body) + close|, depth)
    decreases body, 4
  {
    AtSplit(d, j, EncodeForeigns(body), close);
    var end := j + |EncodeForeigns(body)|;
    SkipForeigns(d, j, depth + 1, body, end);
    SkipStart(d, end, depth + 1, close, field, 4);
  }

  lemma {:induction false} SkipForeigns(d: seq<byte>, i: nat, depth: nat, us: seq<Foreign>, end: nat)
    requires (forall u :: u in us ==> ForeignFits(u)) && At(d, i, EncodeForeigns(us)) && |d| < TWO63 && depth > 0
    requires end == i + |EncodeForeigns(us)|
    ensures Skip(d, i, depth) == Skip(d, end, depth)
    decreases us, 3
  {
    if us != [] {
      var next := i + |EncodeForeign(us[0])|;
      AtSplit(d, i, EncodeForeign(us[0]), EncodeForeigns(us[1..]));
      SkipForeign(d, i, depth, us[0]);
      assert Skip(d, i, depth) == Skip(d, next, depth);
      SkipForeigns(d, next, depth, us[1..], end);
    }
  }
}
