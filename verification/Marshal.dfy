/** The generated methods that fill a byte buffer from its end to its start, measure a record, and decode one. */
module Marshal {
  import opened Records
  import opened Wire
  import opened Messages
  import opened RoundTrip
  import opened WireTable

  /** `now` is `was` with `bytes` in the places from i on. */
  ghost predicate Filled(now: seq<byte>, was: seq<byte>, i: nat, bytes: seq<byte>) {
    && |now| == |was| && i + |bytes| <= |now|
    && now[..i] == was[..i] && now[i..i + |bytes|] == bytes && now[i + |bytes|..] == was[i + |bytes|..]
  }

  lemma FilledInFront(now: seq<byte>, mid: seq<byte>, was: seq<byte>, i: nat, a: seq<byte>, b: seq<byte>)
    requires Filled(mid, was, i + |a|, b) && Filled(now, mid, i, a)
    ensures Filled(now, was, i, a + b)
  {
    var j, end := i + |a|, i + |a| + |b|;
    assert now[j..][..|b|] == mid[j..][..|b|];
    assert now[j..end] == now[j..][..|b|] && mid[j..end] == mid[j..][..|b|];
    assert now[i..end] == now[i..j] + now[j..end];
    assert now[end..] == now[j..][|b|..] && mid[end..] == mid[j..][|b|..];
    assert now[..i] == mid[..j][..i];
  }

  method EncodeVarint(a: array<byte>, offset: nat, v: nat) returns (base: nat)
    requires Sov(v) <= offset <= a.Length
    modifies a
    ensures base + |Varint(v)| == offset && Filled(a[..], old(a[..]), base, Varint(v))
  {
    SovIsLength(v);
    base := offset - Sov(v);
    var i, x := base, v;
    ghost var done: seq<byte> := [];
    while x >= 128
      invariant i == base + |done| && done + Varint(x) == Varint(v)
      invariant Filled(a[..], old(a[..]), base, done)
      decreases x
    {
      var b := (x % 128 + 128) as byte;
      VarintNext(done, x);
      FilledNext(a[..], old(a[..]), base, done, b);
      a[i] := b;
      done := done + [b];
      x := x / 128;
      i := i + 1;
    }
    FilledNext(a[..], old(a[..]), base, done, x as byte);
    a[i] := x as byte;
  }

  lemma VarintNext(done: seq<byte>, x: nat)
    requires x >= 128
    ensures done + Varint(x) == done + [(x % 128 + 128) as byte] + Varint(x / 128)
    ensures |Varint(x)| == 1 + |Varint(x / 128)|
  {
  }

  lemma FilledNext(now: seq<byte>, was: seq<byte>, i: nat, bytes: seq<byte>, b: byte)
    requires Filled(now, was, i, bytes) && i + |bytes| < |now|
    ensures Filled(now[i + |bytes| := b], was, i, bytes + [b])
  {
    var j := i + |bytes|;
    assert now[j + 1..] == now[j..][1..] && was[j + 1..] == was[j..][1..];
  }

  /** Copies s so that it ends at i. */
  method PutBefore(a: array<byte>, i: nat, s: seq<byte>) returns (j: nat)
    requires |s| <= i <= a.Length
    modifies a
    ensures j + |s| == i && Filled(a[..], old(a[..]), j, s)
  {
    j := i - |s|;
    var k := 0;
    while k < |s|
      invariant 0 <= k <= |s| && Filled(a[..], old(a[..]), j, s[..k])
    {
      FilledNext(a[..], old(a[..]), j, s[..k], s[k]);
      a[j + k] := s[k];
      k := k + 1;
      assert s[..k] == s[..k - 1] + [s[k - 1]];
    }
    assert s[..k] == s;
  }

  /** The fields rs stand in the buffer from i up to end; the rest of it is as it was. */
  ghost predicate Wrote(now: seq<byte>, was: seq<byte>, i: nat, end: nat, rs: seq<Raw>) {
    i + |EncodeRaws(rs)| == end && Filled(now, was, i, EncodeRaws(rs))
  }

  lemma RawInFront(r: Raw, rest: seq<Raw>)
    requires r.field < 16
    ensures EncodeRaws([r] + rest) == [(r.field * 8 + WireTypeOf(r)) as byte] + (Payload(r) + EncodeRaws(rest))
  {
    var tag := [(r.field * 8 + WireTypeOf(r)) as byte];
    TagByte(r.field, WireTypeOf(r));
    assert ([r] + rest)[1..] == rest;
    Regroup(tag, Payload(r), EncodeRaws(rest));
  }

  lemma Regroup<T>(a: seq<T>, b: seq<T>, c: seq<T>)
    ensures (a + b) + c == a + (b + c)
  {
  }

  /** The tag of a field in front of its payload. */
  method PutTag(a: array<byte>, i: nat, ghost r: Raw, tag: byte, ghost was: seq<byte>, ghost end: nat, ghost rest: seq<Raw>)
    returns (j: nat)
    requires 0 < i && r.field < 16 && tag as int == r.field * 8 + WireTypeOf(r)
    requires i + |Payload(r) + EncodeRaws(rest)| == end <= a.Length
    requires Filled(a[..], was, i, Payload(r) + EncodeRaws(rest))
    modifies a
    ensures Wrote(a[..], was, j, end, [r] + rest)
  {
    RawInFront(r, rest);
    ghost var after := Payload(r) + EncodeRaws(rest);
    j := PutBefore(a, i, [tag]);
    FilledInFront(a[..], old(a[..]), was, j, [tag], after);
  }

  method PutNumber(a: array<byte>, i: nat, field: nat, v: int, ghost was: seq<byte>, ghost end: nat, ghost rest: seq<Raw>)
    returns (j: nat)
    requires field < 16 && Wrote(a[..], was, i, end, rest) && 1 + Sov(Unsigned(v)) <= i && end <= a.Length
    modifies a
    ensures Wrote(a[..], was, j, end, [RInt(field, v)] + rest)
  {
    ghost var before, bytes := a[..], Varint(Unsigned(v));
    SovIsLength(Unsigned(v));
    j := EncodeVarint(a, i, Unsigned(v));
    FilledInFront(a[..], before, was, j, bytes, EncodeRaws(rest));
    j := PutTag(a, j, RInt(field, v), (field * 8) as byte, was, end, rest);
  }

  method PutInt(a: array<byte>, i: nat, field: nat, v: int, ghost was: seq<byte>, ghost end: nat, ghost rest: seq<Raw>)
    returns (j: nat)
    requires field < 16 && Wrote(a[..], was, i, end, rest) && |EncodeRaws(AddInt(field, v, rest))| <= end <= a.Length
    modifies a
    ensures Wrote(a[..], was, j, end, AddInt(field, v, rest))
  {
    j := i;
    if v != 0 {
      j := PutNumber(a, i, field, v, was, end, rest);
    }
  }

  method PutFlag(a: array<byte>, i: nat, field: nat, b: bool, ghost was: seq<byte>, ghost end: nat, ghost rest: seq<Raw>)
    returns (j: nat)
    requires field < 16 && Wrote(a[..], was, i, end, rest) && |EncodeRaws(AddFlag(field, b, rest))| <= end <= a.Length
    modifies a
    ensures Wrote(a[..], was, j, end, AddFlag(field, b, rest))
  {
    j := i;
    if b {
      j := PutBefore(a, i, [1]);
      FilledInFront(a[..], old(a[..]), was, j, [1], EncodeRaws(rest));
      j := PutTag(a, j, RInt(field, 1), (field * 8) as byte, was, end, rest);
    }
  }

  /** Length and tag in front of the bytes of a text or nested message that stand from i on. */
  method PutHeader(a: array<byte>, i: nat, field: nat, ghost s: seq<byte>, size: nat, ghost was: seq<byte>, ghost end: nat,
                   ghost rest: seq<Raw>)
    returns (j: nat)
    requires field < 16 && size == |s| && 1 + Sov(size) <= i && i + |s + EncodeRaws(rest)| == end <= a.Length
    requires Filled(a[..], was, i, s + EncodeRaws(rest))
    modifies a
    ensures Wrote(a[..], was, j, end, [RBytes(field, s)] + rest)
  {
    SovIsLength(size);
    j := EncodeVarint(a, i, size);
    FilledInFront(a[..], old(a[..]), was, j, Varint(size), s + EncodeRaws(rest));
    assert Varint(size) + (s + EncodeRaws(rest)) == Payload(RBytes(field, s)) + EncodeRaws(rest);
    j := PutTag(a, j, RBytes(field, s), (field * 8 + 2) as byte, was, end, rest);
  }

  /** The same for bytes just written from j up to i, in front of the fields in `before`. */
  method Wrap(a: array<byte>, j: nat, i: nat, field: nat, ghost s: seq<byte>, ghost before: seq<byte>,
              ghost was: seq<byte>, ghost end: nat, ghost rest: seq<Raw>)
    returns (n: nat)
    requires field < 16 && j + |s| == i && BytesSize(|s|) <= i && end <= a.Length
    requires Filled(a[..], before, j, s) && Wrote(before, was, i, end, rest)
    modifies a
    ensures Wrote(a[..], was, n, end, [RBytes(field, s)] + rest)
  {
    FilledInFront(a[..], before, was, j, s, EncodeRaws(rest));
    n := PutHeader(a, j, field, s, i - j, was, end, rest);
  }

  /** A text, even an empty one. */
  method PutBytes(a: array<byte>, i: nat, field: nat, s: Text, ghost was: seq<byte>, ghost end: nat, ghost rest: seq<Raw>)
    returns (j: nat)
    requires field < 16 && Wrote(a[..], was, i, end, rest) && BytesSize(|s|) <= i && end <= a.Length
    modifies a
    ensures Wrote(a[..], was, j, end, [RBytes(field, s)] + rest)
  {
    ghost var before := a[..];
    j := PutBefore(a, i, s);
    j := Wrap(a, j, i, field, s, before, was, end, rest);
  }

  method PutText(a: array<byte>, i: nat, field: nat, s: Text, ghost was: seq<byte>, ghost end: nat, ghost rest: seq<Raw>)
    returns (j: nat)
    requires field < 16 && Wrote(a[..], was, i, end, rest) && |EncodeRaws(AddText(field, s, rest))| <= end <= a.Length
    modifies a
    ensures Wrote(a[..], was, j, end, AddText(field, s, rest))
  {
    j := i;
    if |s| > 0 {
      j := PutBytes(a, i, field, s, was, end, rest);
    }
  }

  method MarshalFrame(a: array<byte>, end: nat, f: Frame, ghost bytes: seq<byte>) returns (i: nat)
    requires bytes == EncodeFrame(f) && |bytes| <= end <= a.Length
    modifies a
    ensures i + |bytes| == end && Filled(a[..], old(a[..]), i, bytes)
  {
    ghost var was := a[..];
    ghost var p6 := AddInt(6, f.invalidCount, []);
    ghost var p5 := AddInt(5, f.validCount, p6);
    ghost var p4 := AddText(4, f.hash, p5);
    ghost var p3 := AddText(3, f.cid, p4);
    ghost var p2 := AddText(2, f.signature, p3);
    i := end;
    i := PutInt(a, i, 6, f.invalidCount, was, end, []);
    i := PutInt(a, i, 5, f.validCount, was, end, p6);
    i := PutText(a, i, 4, f.hash, was, end, p5);
    i := PutText(a, i, 3, f.cid, was, end, p4);
    i := PutText(a, i, 2, f.signature, was, end, p3);
    i := PutText(a, i, 1, f.filename, was, end, p2);
  }

  lemma {:induction false} AllSizeFrom(ss: seq<seq<byte>>, k: nat)
    requires k < |ss|
    ensures AllSize(ss[k..]) == BytesSize(|ss[k]|) + AllSize(ss[k + 1..]) && AllSize(ss[k..]) <= AllSize(ss)
  {
    assert ss[k..][1..] == ss[k + 1..];
    if k > 0 {
      assert ss[1..][k - 1..] == ss[k..];
      AllSizeFrom(ss[1..], k - 1);
    } else {
      assert ss[0..] == ss;
    }
  }

  /** The k-th element goes in front of the elements after it, and there is room for it. */
  lemma ElementInFront(field: nat, ss: seq<seq<byte>>, k: nat, rest: seq<Raw>)
    requires field < 16 && k < |ss|
    ensures AddAll(field, ss[k..], rest) == [RBytes(field, ss[k])] + AddAll(field, ss[k + 1..], rest)
    ensures BytesSize(|ss[k]|) + |EncodeRaws(AddAll(field, ss[k + 1..], rest))| <= |EncodeRaws(AddAll(field, ss, rest))|
  {
    AllSizeFrom(ss, k);
    assert ss[k..][1..] == ss[k + 1..];
  }

  method PutWorkers(a: array<byte>, i: nat, ws: seq<Text>, ghost was: seq<byte>, ghost end: nat, ghost rest: seq<Raw>)
    returns (j: nat)
    requires Wrote(a[..], was, i, end, rest) && |EncodeRaws(AddAll(7, ws, rest))| <= end <= a.Length
    modifies a
    ensures Wrote(a[..], was, j, end, AddAll(7, ws, rest))
  {
    j := i;
    var k := |ws|;
    while k > 0
      invariant 0 <= k <= |ws| && Wrote(a[..], was, j, end, AddAll(7, ws[k..], rest))
    {
      k := k - 1;
      ElementInFront(7, ws, k, rest);
      j := PutBytes(a, j, 7, ws[k], was, end, AddAll(7, ws[k + 1..], rest));
    }
    assert ws[0..] == ws;
  }

  method PutFrame(a: array<byte>, i: nat, f: Frame, ghost bytes: seq<byte>, ghost was: seq<byte>, ghost end: nat,
                  ghost rest: seq<Raw>)
    returns (j: nat)
    requires Wrote(a[..], was, i, end, rest) && bytes == EncodeFrame(f) && BytesSize(|bytes|) <= i && end <= a.Length
    modifies a
    ensures Wrote(a[..], was, j, end, [RBytes(2, bytes)] + rest)
  {
    ghost var before := a[..];
    j := MarshalFrame(a, i, f, bytes);
    j := Wrap(a, j, i, 2, bytes, before, was, end, rest);
  }

  method PutFrames(a: array<byte>, i: nat, fs: seq<Frame>, ghost was: seq<byte>, ghost end: nat, ghost rest: seq<Raw>)
    returns (j: nat)
    requires Wrote(a[..], was, i, end, rest) && |EncodeRaws(AddAll(2, EncodeFrames(fs), rest))| <= end <= a.Length
    modifies a
    ensures Wrote(a[..], was, j, end, AddAll(2, EncodeFrames(fs), rest))
  {
    j := i;
    var k := |fs|;
    ghost var ss := EncodeFrames(fs);
    while k > 0
      invariant 0 <= k <= |fs| && Wrote(a[..], was, j, end, AddAll(2, ss[k..], rest))
    {
      k := k - 1;
      ElementInFront(2, ss, k, rest);
      j := PutFrame(a, j, fs[k], ss[k], was, end, AddAll(2, ss[k + 1..], rest));
    }
    assert ss[0..] == ss;
  }

  method MarshalSolution(a: array<byte>, end: nat, s: Solution, ghost bytes: seq<byte>) returns (i: nat)
    requires bytes == EncodeSolution(s) && |bytes| <= end <= a.Length
    modifies a
    ensures i + |bytes| == end && Filled(a[..], old(a[..]), i, bytes)
  {
    ghost var was := a[..];
    ghost var p5 := AddFlag(5, s.accepted, []);
    ghost var p4 := AddText(4, s.dir, p5);
    ghost var p3 := AddText(3, s.publicKey, p4);
    ghost var p2 := AddAll(2, EncodeFrames(s.frames), p3);
    i := end;
    i := PutFlag(a, i, 5, s.accepted, was, end, []);
    i := PutText(a, i, 4, s.dir, was, end, p5);
    i := PutText(a, i, 3, s.publicKey, was, end, p4);
    i := PutFrames(a, i, s.frames, was, end, p3);
    i := PutText(a, i, 1, s.proposedBy, was, end, p2);
  }

  method MarshalValidation(a: array<byte>, end: nat, v: Validation, ghost bytes: seq<byte>) returns (i: nat)
    requires bytes == EncodeValidation(v) && |bytes| <= end <= a.Length
    modifies a
    ensures i + |bytes| == end && Filled(a[..], old(a[..]), i, bytes)
  {
    ghost var was := a[..];
    ghost var p4 := AddFlag(4, v.isReverse, []);
    ghost var p3 := AddText(3, v.publicKey, p4);
    ghost var p2 := AddAll(2, EncodeFrames(v.frames), p3);
    i := end;
    i := PutFlag(a, i, 4, v.isReverse, was, end, []);
    i := PutText(a, i, 3, v.publicKey, was, end, p4);
    i := PutFrames(a, i, v.frames, was, end, p3);
    i := PutText(a, i, 1, v.validator, was, end, p2);
  }

  method PutValidation(a: array<byte>, i: nat, v: Validation, ghost bytes: seq<byte>, ghost was: seq<byte>, ghost end: nat,
                       ghost rest: seq<Raw>)
    returns (j: nat)
    requires Wrote(a[..], was, i, end, rest) && bytes == EncodeValidation(v) && BytesSize(|bytes|) <= i && end <= a.Length
    modifies a
    ensures Wrote(a[..], was, j, end, [RBytes(9, bytes)] + rest)
  {
    ghost var before := a[..];
    j := MarshalValidation(a, i, v, bytes);
    j := Wrap(a, j, i, 9, bytes, before, was, end, rest);
  }

  method PutValidations(a: array<byte>, i: nat, vs: seq<Validation>, ghost was: seq<byte>, ghost end: nat,
                        ghost rest: seq<Raw>)
    returns (j: nat)
    requires Wrote(a[..], was, i, end, rest) && |EncodeRaws(AddAll(9, EncodeValidations(vs), rest))| <= end <= a.Length
    modifies a
    ensures Wrote(a[..], was, j, end, AddAll(9, EncodeValidations(vs), rest))
  {
    j := i;
    var k := |vs|;
    ghost var ss := EncodeValidations(vs);
    while k > 0
      invariant 0 <= k <= |vs| && Wrote(a[..], was, j, end, AddAll(9, ss[k..], rest))
    {
      k := k - 1;
      ElementInFront(9, ss, k, rest);
      j := PutValidation(a, j, vs[k], ss[k], was, end, AddAll(9, ss[k + 1..], rest));
    }
    assert ss[0..] == ss;
  }

  method PutSolution(a: array<byte>, i: nat, s: Solution, ghost bytes: seq<byte>, ghost was: seq<byte>, ghost end: nat,
                     ghost rest: seq<Raw>)
    returns (j: nat)
    requires Wrote(a[..], was, i, end, rest) && bytes == EncodeSolution(s) && BytesSize(|bytes|) <= i && end <= a.Length
    modifies a
    ensures Wrote(a[..], was, j, end, [RBytes(8, bytes)] + rest)
  {
    ghost var before := a[..];
    j := MarshalSolution(a, i, s, bytes);
    j := Wrap(a, j, i, 8, bytes, before, was, end, rest);
  }

  method PutStoredSolution(a: array<byte>, i: nat, s: Option<Solution>, ghost was: seq<byte>, ghost end: nat,
                           ghost rest: seq<Raw>)
    returns (j: nat)
    requires Wrote(a[..], was, i, end, rest) && |EncodeRaws(AddAll(8, EncodedSolution(s), rest))| <= end <= a.Length
    modifies a
    ensures Wrote(a[..], was, j, end, AddAll(8, EncodedSolution(s), rest))
  {
    j := i;
    if s.Some? {
      ghost var ss := EncodedSolution(s);
      ElementInFront(8, ss, 0, rest);
      assert ss[0..] == ss && ss[1..] == [];
      j := PutSolution(a, i, s.value, ss[0], was, end, rest);
    }
  }

  method MarshalThread(a: array<byte>, end: nat, t: Thread, ghost bytes: seq<byte>) returns (i: nat)
    requires bytes == Encode(OfThread(t)) && |bytes| <= end <= a.Length
    modifies a
    ensures i + |bytes| == end && Filled(a[..], old(a[..]), i, bytes)
  {
    ghost var was := a[..];
    ghost var p10 := AddInt(10, t.averageRenderSeconds, []);
    ghost var p9 := AddAll(9, EncodeValidations(t.validations), p10);
    ghost var p8 := AddAll(8, EncodedSolution(t.solution), p9);
    ghost var p7 := AddAll(7, t.workers, p8);
    ghost var p6 := AddFlag(6, t.completed, p7);
    ghost var p5 := AddInt(5, t.scale, p6);
    ghost var p4 := AddInt(4, t.endFrame, p5);
    ghost var p3 := AddInt(3, t.startFrame, p4);
    ghost var p2 := AddText(2, t.taskId, p3);
    i := end;
    i := PutInt(a, i, 10, t.averageRenderSeconds, was, end, []);
    i := PutValidations(a, i, t.validations, was, end, p10);
    i := PutStoredSolution(a, i, t.solution, was, end, p9);
    i := PutWorkers(a, i, t.workers, was, end, p8);
    i := PutFlag(a, i, 6, t.completed, was, end, p7);
    i := PutInt(a, i, 5, t.scale, was, end, p6);
    i := PutInt(a, i, 4, t.endFrame, was, end, p5);
    i := PutInt(a, i, 3, t.startFrame, was, end, p4);
    i := PutText(a, i, 2, t.taskId, was, end, p3);
    i := PutText(a, i, 1, t.threadId, was, end, p2);
  }

  method TextLength(n: nat, s: Text) returns (m: nat)
    ensures m == n + TextSize(s)
  {
    m := n;
    var l := |s|;
    if l > 0 {
      m := n + 1 + l + Sov(l);
    }
  }

  method IntLength(n: nat, v: int) returns (m: nat)
    ensures m == n + IntSize(v)
  {
    m := n;
    if v != 0 {
      m := n + 1 + Sov(Unsigned(v));
    }
  }

  method SizeFrame(f: Frame) returns (n: nat)
    ensures n == |EncodeFrame(f)|
  {
    n := TextLength(0, f.filename);
    n := TextLength(n, f.signature);
    n := TextLength(n, f.cid);
    n := TextLength(n, f.hash);
    n := IntLength(n, f.validCount);
    n := IntLength(n, f.invalidCount);
  }

  method SizeFrames(n: nat, fs: seq<Frame>) returns (m: nat)
    ensures m == n + AllSize(EncodeFrames(fs))
  {
    m := n;
    ghost var ss := EncodeFrames(fs);
    for k := 0 to |fs|
      invariant m + AllSize(ss[k..]) == n + AllSize(ss)
    {
      AllSizeFrom(ss, k);
      var l := SizeFrame(fs[k]);
      m := m + 1 + l + Sov(l);
    }
  }

  method SizeSolution(s: Solution) returns (n: nat)
    ensures n == |EncodeSolution(s)|
  {
    n := TextLength(0, s.proposedBy);
    n := SizeFrames(n, s.frames);
    n := TextLength(n, s.publicKey);
    n := TextLength(n, s.dir);
    if s.accepted {
      n := n + 2;
    }
  }

  method SizeValidation(v: Validation) returns (n: nat)
    ensures n == |EncodeValidation(v)|
  {
    n := TextLength(0, v.validator);
    n := SizeFrames(n, v.frames);
    n := TextLength(n, v.publicKey);
    if v.isReverse {
      n := n + 2;
    }
  }

  method SizeWorkers(n: nat, ws: seq<Text>) returns (m: nat)
    ensures m == n + AllSize(ws)
  {
    m := n;
    for k := 0 to |ws|
      invariant m + AllSize(ws[k..]) == n + AllSize(ws)
    {
      AllSizeFrom(ws, k);
      var l := |ws[k]|;
      m := m + 1 + l + Sov(l);
    }
  }

  method SizeValidations(n: nat, vs: seq<Validation>) returns (m: nat)
    ensures m == n + AllSize(EncodeValidations(vs))
  {
    m := n;
    ghost var ss := EncodeValidations(vs);
    for k := 0 to |vs|
      invariant m + AllSize(ss[k..]) == n + AllSize(ss)
    {
      AllSizeFrom(ss, k);
      var l := SizeValidation(vs[k]);
      m := m + 1 + l + Sov(l);
    }
  }

  method SizeStoredSolution(n: nat, s: Option<Solution>) returns (m: nat)
    ensures m == n + AllSize(EncodedSolution(s))
  {
    m := n;
    if s.Some? {
      var l := SizeSolution(s.value);
      m := n + 1 + l + Sov(l);
      assert EncodedSolution(s)[1..] == [];
    }
  }

  method SizeThread(t: Thread) returns (n: nat)
    ensures n == |Encode(OfThread(t))|
  {
    n := TextLength(0, t.threadId);
    n := TextLength(n, t.taskId);
    n := IntLength(n, t.startFrame);
    n := IntLength(n, t.endFrame);
    n := IntLength(n, t.scale);
    if t.completed {
      n := n + 2;
    }
    n := SizeWorkers(n, t.workers);
    n := SizeStoredSolution(n, t.solution);
    n := SizeValidations(n, t.validations);
    n := IntLength(n, t.averageRenderSeconds);
  }

  method Size(m: Message) returns (n: nat)
    ensures n == |Encode(m)|
  {
    match m {
      case OfThread(t) => n := SizeThread(t);
      case OfSolution(s) => n := SizeSolution(s);
      case OfValidation(v) => n := SizeValidation(v);
      case OfFrame(f) => n := SizeFrame(f);
    }
  }

  /** Fills a buffer of exactly the record's size. */
  method MarshalToSizedBuffer(a: array<byte>, m: Message)
    requires a.Length == |Encode(m)|
    modifies a
    ensures a[..] == Encode(m)
  {
    var i: nat;
    match m {
      case OfThread(t) => i := MarshalThread(a, a.Length, t, Encode(m));
      case OfSolution(s) => i := MarshalSolution(a, a.Length, s, Encode(m));
      case OfValidation(v) => i := MarshalValidation(a, a.Length, v, Encode(m));
      case OfFrame(f) => i := MarshalFrame(a, a.Length, f, Encode(m));
    }
    assert i == 0;
    assert a[..] == a[0..a.Length];
  }

  lemma MarshalledRecord(m: Message)
    ensures Fits(m) ==> Encode(m) == RecordBytes(m)
  {
    if Fits(m) {
      MarshalledBytes(m);
    }
  }

  /** Marshal: a buffer of Size() bytes, all of them written. */
  method Marshal(m: Message) returns (a: array<byte>)
    ensures fresh(a) && a[..] == Encode(m)
    ensures Fits(m) ==> a[..] == RecordBytes(m)
  {
    var size := Size(m);
    a := new byte[size];
    MarshalToSizedBuffer(a, m);
    MarshalledRecord(m);
  }

  /** A text or message payload of wire type 2. */
  method UnmarshalBytes(d: seq<byte>, j: nat, wireType: nat) returns (r: Read<seq<byte>>)
    requires j <= |d|
    ensures r == ReadBytes(d, j, wireType)
  {
    if wireType != 2 {
      return Bad(WrongWireType);
    }
    var v := DecodeVarint(d, j);
    if v.Bad? {
      return Bad(v.error);
    }
    var length := Signed(v.value);
    if length < 0 {
      return Bad(InvalidLength);
    }
    var post := v.next + length;
    if post >= TWO63 {
      return Bad(InvalidLength);
    }
    if post > |d| {
      return Bad(UnexpectedEof);
    }
    return Got(d[v.next..post], post);
  }

  method UnmarshalInt(d: seq<byte>, j: nat, wireType: nat) returns (r: Read<int>)
    requires j <= |d|
    ensures r == ReadInt(d, j, wireType)
  {
    if wireType != 0 {
      return Bad(WrongWireType);
    }
    var v := DecodeVarint(d, j);
    return if v.Bad? then Bad(v.error) else Got(Signed(v.value), v.next);
  }

  method UnmarshalSkip(d: seq<byte>, i: nat) returns (r: Read<()>)
    requires i <= |d|
    ensures r == SkipField(d, i)
  {
    var skippy := SkipTypes(d[i..]);
    if skippy.Bad? {
      return Bad(skippy.error);
    }
    if i + skippy.next >= TWO63 {
      return Bad(InvalidLength);
    }
    if i + skippy.next > |d| {
      return Bad(UnexpectedEof);
    }
    return Got((), i + skippy.next);
  }

  /** The switch on the field number. */
  method UnmarshalField(d: seq<byte>, i: nat, j: nat, num: int, wireType: nat, m: Message) returns (o: Decoded, n: nat)
    requires i < j <= |d| && num > 0
    ensures o.Done? ==> i < n <= |d| && TypeOf(o.message) == TypeOf(m)
    ensures Field(d, i, j, num, wireType, m) == if o.Done? then Decode(d, n, o.message) else o
    decreases |d|, 0
  {
    n := i;
    match KindOf(TypeOf(m), num) {
      case KInt =>
        var v := UnmarshalInt(d, j, wireType);
        if v.Bad? {
          return Failed(v.error), n;
        }
        return Done(SetInt(m, num, v.value)), v.next;
      case KText =>
        var s := UnmarshalBytes(d, j, wireType);
        if s.Bad? {
          return Failed(s.error), n;
        }
        return Done(SetText(m, num, s.value)), s.next;
      case KSub =>
        var s := UnmarshalBytes(d, j, wireType);
        if s.Bad? {
          return Failed(s.error), n;
        }
        var sub := Unmarshal(s.value, SubStart(m, num));
        if sub.Failed? {
          return sub, n;
        }
        return Done(SetSub(m, num, sub.message)), s.next;
      case KNone =>
        var skipped := UnmarshalSkip(d, i);
        if skipped.Bad? {
          return Failed(skipped.error), n;
        }
        return Done(m), skipped.next;
    }
  }

  /** Unmarshal into a record. It returns on any bytes, and looks at no byte outside them. */
  method Unmarshal(d: seq<byte>, start: Message) returns (r: Decoded)
    ensures r == Decode(d, 0, start)
    decreases |d|, 1
  {
    var i: nat, m := 0, start;
    while i < |d|
      invariant i <= |d| && TypeOf(m) == TypeOf(start)
      invariant Decode(d, 0, start) == Decode(d, i, m)
      decreases |d| - i
    {
      var wire := DecodeVarint(d, i);
      if wire.Bad? {
        return Failed(wire.error);
      }
      var num, wireType := Low32(wire.value / 8), wire.value % 8;
      if wireType == 4 {
        return Failed(EndGroupForNonGroup);
      }
      if num <= 0 {
        return Failed(IllegalTag);
      }
      var o, n := UnmarshalField(d, i, wire.next, num, wireType, m);
      if o.Failed? {
        return o;
      }
      i, m := n, o.message;
    }
    return Done(m);
  }
}
