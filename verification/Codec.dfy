/** What decoding gives back: the encoded record, whatever unknown fields stand between its fields. */
module Codec {
  import opened Records
  import opened Wire
  import opened Messages

  /** A known field that survives the wire: a number must be an int64. */
  predicate Sound(t: Type, r: Raw) { Known(t, r) && (r.RInt? ==> Int64(r.value)) }

  predicate AllSound(t: Type, rs: seq<Raw>) { rs == [] || (Sound(t, rs[0]) && AllSound(t, rs[1..])) }

  /** The effect of known fields, in order. */
  function Fold(m: Message, rs: seq<Raw>): (o: Decoded)
    requires AllSound(TypeOf(m), rs)
    ensures o.Done? ==> TypeOf(o.message) == TypeOf(m)
    decreases rs
  {
    if rs == [] then Done(m)
    else
      match Apply(m, rs[0])
      case Failed(e) => Failed(e)
      case Done(n) => Fold(n, rs[1..])
  }

  lemma DecodeTag(d: seq<byte>, i: nat, j: nat, tag: seq<byte>, num: nat, wireType: nat, m: Message)
    requires 1 <= num < TWO32 / 2 && wireType < 8 && wireType != 4 && IsTag(tag, num, wireType)
    requires At(d, i, tag) && j == i + |tag|
    ensures Decode(d, i, m) == Field(d, i, j, num, wireType, m)
  {
    TagBack(d, i, tag, num, wireType);
  }

  lemma DecodeInt(d: seq<byte>, i: nat, j: nat, n: nat, num: nat, v: int, m: Message)
    requires KindOf(TypeOf(m), num) == KInt && Int64(v) && i < j
    requires At(d, j, Varint(Unsigned(v))) && n == j + |Varint(Unsigned(v))|
    ensures Field(d, i, j, num, 0, m) == Rest(d, n, Apply(m, RInt(num, v)))
  {
    IntBack(d, j, v);
  }

  lemma DecodeBytes(d: seq<byte>, i: nat, j: nat, n: nat, num: nat, s: seq<byte>, m: Message)
    requires KindOf(TypeOf(m), num) in {KText, KSub} && |d| < TWO63 && i < j
    requires At(d, j, Varint(|s|) + s) && n == j + |Varint(|s|) + s|
    ensures Field(d, i, j, num, 2, m) == Rest(d, n, Apply(m, RBytes(num, s)))
  {
    BytesBack(d, j, s);
  }

  lemma DecodePayload(d: seq<byte>, i: nat, j: nat, n: nat, r: Raw, m: Message)
    requires Sound(TypeOf(m), r) && i < j && At(d, j, Payload(r)) && n == j + |Payload(r)| && |d| < TWO63
    ensures Field(d, i, j, r.field, WireTypeOf(r), m) == Rest(d, n, Apply(m, r))
  {
    if r.RInt? {
      DecodeInt(d, i, j, n, r.field, r.value, m);
    } else {
      DecodeBytes(d, i, j, n, r.field, r.bytes, m);
    }
  }

  lemma SplitRaw(d: seq<byte>, i: nat, r: Raw) returns (j: nat)
    requires At(d, i, EncodeRaw(r))
    ensures At(d, i, Tag(r.field, WireTypeOf(r))) && j == i + |Tag(r.field, WireTypeOf(r))|
    ensures At(d, j, Payload(r)) && i + |EncodeRaw(r)| == j + |Payload(r)|
  {
    AtSplit(d, i, Tag(r.field, WireTypeOf(r)), Payload(r));
    j := i + |Tag(r.field, WireTypeOf(r))|;
  }

  /** A known field that stands from i up to n. */
  lemma DecodeRaw(d: seq<byte>, i: nat, n: nat, r: Raw, m: Message)
    requires Sound(TypeOf(m), r) && At(d, i, EncodeRaw(r)) && n == i + |EncodeRaw(r)| && |d| < TWO63
    ensures Decode(d, i, m) == Rest(d, n, Apply(m, r))
  {
    var j := SplitRaw(d, i, r);
    ShortestVarint(r.field * 8 + WireTypeOf(r));
    DecodeTag(d, i, j, Tag(r.field, WireTypeOf(r)), r.field, WireTypeOf(r), m);
    DecodePayload(d, i, j, n, r, m);
  }

  /** Decoding the fields of an encoding up to its end applies them in order. */
  lemma {:induction false} DecodeRaws(d: seq<byte>, i: nat, rs: seq<Raw>, m: Message)
    requires AllSound(TypeOf(m), rs) && At(d, i, EncodeRaws(rs)) && i + |EncodeRaws(rs)| == |d| < TWO63
    ensures Decode(d, i, m) == Fold(m, rs)
    decreases rs
  {
    if rs != [] {
      AtSplit(d, i, EncodeRaw(rs[0]), EncodeRaws(rs[1..]));
      var n, o := i + |EncodeRaw(rs[0])|, Apply(m, rs[0]);
      DecodeRaw(d, i, n, rs[0], m);
      if o.Done? {
        DecodeRaws(d, n, rs[1..], o.message);
      }
    }
  }

  // ---- unknown fields ----

  /** What may stand on the wire for a record: its fields, and between them, at every level, unknown fields. */
  datatype Piece =
    | Plain(raw: Raw)
    | Nested(field: nat, of: Message, inside: seq<Piece>)
    | Unknown(foreign: Foreign)

  function EncodePiece(p: Piece): seq<byte>
    decreases p, 1
  {
    if p.Unknown? then EncodeForeign(p.foreign) else EncodeRaw(OnWire(p))
  }

  function OnWire(p: Piece): Raw
    requires !p.Unknown?
    decreases p, 0
  {
    match p
    case Plain(r) => r
    case Nested(num, _, inside) => RBytes(num, EncodePieces(inside))
  }

  function EncodePieces(ps: seq<Piece>): seq<byte>
    decreases ps
  {
    if ps == [] then [] else EncodePiece(ps[0]) + EncodePieces(ps[1..])
  }

  /** The fields that are left without the unknown ones. */
  function Cleaned(ps: seq<Piece>): seq<Raw> {
    if ps == [] then []
    else if ps[0].Unknown? then Cleaned(ps[1..])
    else [Clean(ps[0])] + Cleaned(ps[1..])
  }

  function Clean(p: Piece): Raw
    requires !p.Unknown?
  {
    match p
    case Plain(r) => r
    case Nested(num, m, _) => RBytes(num, Encode(m))
  }

  predicate PieceFits(t: Type, p: Piece)
    decreases p
  {
    match p
    case Plain(r) => Sound(t, r)
    case Nested(num, m, inside) =>
      KindOf(t, num) == KSub && TypeOf(m) == SubType(t, num) && PiecesFit(TypeOf(m), inside) && Cleaned(inside) == Parts(m)
    case Unknown(u) => KindOf(t, FieldOf(u)) == KNone && ForeignFits(u)
  }

  predicate PiecesFit(t: Type, ps: seq<Piece>)
    decreases ps
  {
    ps == [] || (PieceFits(t, ps[0]) && PiecesFit(t, ps[1..]))
  }

  /** ps is an encoding of m with unknown fields put in. */
  predicate Spells(ps: seq<Piece>, m: Message) { PiecesFit(TypeOf(m), ps) && Cleaned(ps) == Parts(m) }

  lemma {:induction false} VarintGrows(a: nat, b: nat)
    requires a <= b
    ensures |Varint(a)| <= |Varint(b)|
    decreases a
  {
    if a >= 128 {
      VarintGrows(a / 128, b / 128);
    }
  }

  lemma {:induction false} CleanIsShorter(t: Type, ps: seq<Piece>)
    requires PiecesFit(t, ps)
    ensures |EncodeRaws(Cleaned(ps))| <= |EncodePieces(ps)|
    decreases ps
  {
    if ps != [] {
      CleanIsShorter(t, ps[1..]);
      assert ps[0].Unknown? || Cleaned(ps)[1..] == Cleaned(ps[1..]);
      match ps[0]
      case Nested(num, m, inside) =>
        CleanIsShorter(TypeOf(m), inside);
        VarintGrows(|Encode(m)|, |EncodePieces(inside)|);
      case Plain(r) => assert EncodePiece(ps[0]) == EncodeRaw(r);
      case Unknown(_) =>
    }
  }

  lemma {:induction false} CleanIsSound(t: Type, ps: seq<Piece>)
    requires PiecesFit(t, ps)
    ensures AllSound(t, Cleaned(ps))
  {
    if ps != [] {
      CleanIsSound(t, ps[1..]);
      assert ps[0].Unknown? || Cleaned(ps)[1..] == Cleaned(ps[1..]);
    }
  }

  lemma SkipUnknown(d: seq<byte>, i: nat, u: Foreign)
    requires ForeignFits(u) && At(d, i, EncodeForeign(u)) && |d| < TWO63
    ensures SkipField(d, i) == Got((), i + |EncodeForeign(u)|)
  {
    AtSlice(d, i, EncodeForeign(u));
    assert d[i..][0..|EncodeForeign(u)|] == d[i..i + |EncodeForeign(u)|];
    AtSlice(d[i..], 0, EncodeForeign(u));
    SkipForeign(d[i..], 0, 0, u);
  }

  lemma DecodeUnknown(d: seq<byte>, i: nat, n: nat, u: Foreign, m: Message)
    requires KindOf(TypeOf(m), FieldOf(u)) == KNone && ForeignFits(u) && |d| < TWO63
    requires At(d, i, EncodeForeign(u)) && n == i + |EncodeForeign(u)|
    ensures Decode(d, i, m) == Decode(d, n, m)
  {
    AtSplit(d, i, u.tag, ForeignPayload(u));
    DecodeTag(d, i, i + |u.tag|, u.tag, FieldOf(u), WireType(u), m);
    SkipUnknown(d, i, u);
  }

  lemma WholeAt(s: seq<byte>)
    ensures At(s, 0, s)
  {
    AtSlice(s, 0, s);
  }

  /** A nested message means the same with unknown fields put into it. */
  lemma CleanIsSame(p: Piece, m: Message)
    requires !p.Unknown? && PieceFits(TypeOf(m), p) && |EncodePiece(p)| < TWO63
    ensures Sound(TypeOf(m), OnWire(p)) && Sound(TypeOf(m), Clean(p)) && Apply(m, OnWire(p)) == Apply(m, Clean(p))
    decreases p, 0
  {
    if p.Nested? {
      var start := SubStart(m, p.field);
      WholeAt(EncodePieces(p.inside));
      DecodePieces(EncodePieces(p.inside), 0, p.inside, start);
      CleanIsShorter(TypeOf(p.of), p.inside);
      WholeAt(Encode(p.of));
      DecodeRaws(Encode(p.of), 0, Parts(p.of), start);
    }
  }

  lemma DecodeKnown(d: seq<byte>, i: nat, n: nat, p: Piece, m: Message)
    requires !p.Unknown? && PieceFits(TypeOf(m), p) && |d| < TWO63
    requires At(d, i, EncodePiece(p)) && n == i + |EncodePiece(p)|
    ensures Known(TypeOf(m), Clean(p)) && Decode(d, i, m) == Rest(d, n, Apply(m, Clean(p)))
    decreases p, 1
  {
    CleanIsSame(p, m);
    DecodeRaw(d, i, n, OnWire(p), m);
  }

  /** Decoding pieces up to the end applies the known ones in order, whatever record decoding starts from. */
  lemma {:induction false} DecodePieces(d: seq<byte>, i: nat, ps: seq<Piece>, m: Message)
    requires PiecesFit(TypeOf(m), ps) && At(d, i, EncodePieces(ps)) && i + |EncodePieces(ps)| == |d| < TWO63
    ensures AllSound(TypeOf(m), Cleaned(ps)) && Decode(d, i, m) == Fold(m, Cleaned(ps))
    decreases ps, 2
  {
    CleanIsSound(TypeOf(m), ps);
    if ps != [] {
      AtSplit(d, i, EncodePiece(ps[0]), EncodePieces(ps[1..]));
      DecodeRest(d, i, i + |EncodePiece(ps[0])|, ps, m);
    }
  }

  lemma DecodeRest(d: seq<byte>, i: nat, n: nat, ps: seq<Piece>, m: Message)
    requires ps != [] && PiecesFit(TypeOf(m), ps) && AllSound(TypeOf(m), Cleaned(ps))
    requires At(d, i, EncodePiece(ps[0])) && n == i + |EncodePiece(ps[0])|
    requires At(d, n, EncodePieces(ps[1..])) && n + |EncodePieces(ps[1..])| == |d| < TWO63
    ensures Decode(d, i, m) == Fold(m, Cleaned(ps))
    decreases ps, 1
  {
    if ps[0].Unknown? {
      DecodeUnknown(d, i, n, ps[0].foreign, m);
      DecodePieces(d, n, ps[1..], m);
    } else {
      DecodeKnown(d, i, n, ps[0], m);
      DecodeFrom(d, n, ps, m);
    }
  }

  lemma DecodeFrom(d: seq<byte>, n: nat, ps: seq<Piece>, m: Message)
    requires ps != [] && !ps[0].Unknown? && PiecesFit(TypeOf(m), ps) && AllSound(TypeOf(m), Cleaned(ps))
    requires At(d, n, EncodePieces(ps[1..])) && n + |EncodePieces(ps[1..])| == |d| < TWO63
    ensures Rest(d, n, Apply(m, Clean(ps[0]))) == Fold(m, Cleaned(ps))
    decreases ps, 0
  {
    assert Cleaned(ps)[0] == Clean(ps[0]) && Cleaned(ps)[1..] == Cleaned(ps[1..]);
    var o := Apply(m, Clean(ps[0]));
    if o.Done? {
      DecodePieces(d, n, ps[1..], o.message);
    }
  }
}
