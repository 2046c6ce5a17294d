/** The key=value and filename=cid:hash command-line formats (utils.go). */
module CliFormat {
  import opened Records

  const EQUALS: byte := 61
  const COLON: byte := 58

  /** strings.SplitN(s, sep, 2) when it yields two parts; None when sep does not occur. */
  function Cut(s: Text, sep: byte): (r: Option<(Text, Text)>)
    ensures r.None? <==> sep !in s
    ensures r.Some? ==> s == r.value.0 + [sep] + r.value.1 && sep !in r.value.0
  {
    if s == [] then None
    else if s[0] == sep then Some(([], s[1..]))
    else
      match Cut(s[1..], sep)
      case None => None
      case Some((a, b)) => Some(([s[0]] + a, b))
  }

  lemma CutUnique(a: Text, b: Text, sep: byte)
    requires sep !in a
    ensures Cut(a + [sep] + b, sep) == Some((a, b))
  {
    var s := a + [sep] + b;
    assert s[|a|] == sep;
    var (x, y) := Cut(s, sep).value;
    assert |x| == |a| by {
      assert s[|x|] == sep;
      assert forall i :: 0 <= i < |a| ==> s[i] == a[i];
      assert forall i :: 0 <= i < |x| ==> s[i] == x[i];
    }
    assert x == s[..|x|] && a == s[..|a|];
    assert y == s[|x| + 1..] && b == s[|a| + 1..];
  }

  /** strings.Split(s, sep) when it yields exactly two parts. */
  function SplitTwo(s: Text, sep: byte): Option<(Text, Text)> {
    match Cut(s, sep)
    case Some((a, b)) => if sep in b then None else Some((a, b))
    case None => None
  }

  lemma SplitTwoExact(a: Text, b: Text, sep: byte)
    ensures SplitTwo(a + [sep] + b, sep) == if sep in a || sep in b then None else Some((a, b))
  {
    var s := a + [sep] + b;
    if sep !in a {
      CutUnique(a, b, sep);
    } else {
      var (x, y) := Cut(s, sep).value;
      var i :| 0 <= i < |a| && a[i] == sep;
      assert |x| <= i by {
        assert s[i] == sep;
        assert forall j :: 0 <= j < |x| ==> s[j] == x[j];
      }
      assert s[|a|] == sep;
      assert y[|a| - |x| - 1] == s[|a|];
    }
  }

  // ---- key=value lines ----

  function Line(key: Text, value: Text): Text { key + [EQUALS] + value }

  /** MapToKeyValueFormat when Go's map iteration visits the keys in the given order. */
  function Lines(m: map<Text, Text>, order: seq<Text>): (lines: seq<Text>)
    requires forall k :: k in order ==> k in m
    ensures |lines| == |order| && forall i :: 0 <= i < |order| ==> lines[i] == Line(order[i], m[order[i]])
  {
    seq(|order|, i requires 0 <= i < |order| => Line(order[i], m[order[i]]))
  }

  /** TransformSliceToMap: None is the "invalid format" error; a later line overwrites an earlier one. */
  function Transform(lines: seq<Text>): Option<map<Text, Text>> {
    if lines == [] then Some(map[])
    else
      match (Transform(lines[..|lines| - 1]), Cut(lines[|lines| - 1], EQUALS))
      case (Some(m), Some((k, v))) => Some(m[k := v])
      case _ => None
  }

  method MapToKeyValueFormat(m: map<Text, Text>) returns (parts: seq<Text>)
    ensures exists order :: Ordering(order, m.Keys) && parts == Lines(m, order)
  {
    parts := [];
    ghost var order: seq<Text> := [];
    var left := m.Keys;
    while left != {}
      invariant Ordering(order, m.Keys - left) && left <= m.Keys
      invariant (forall k :: k in order ==> k in m) && parts == Lines(m, order)
      decreases |left|
    {
      var key :| key in left;
      OrderingGrows(order, m.Keys - left, key);
      assert m.Keys - left + {key} == m.Keys - (left - {key});
      assert Lines(m, order + [key]) == Lines(m, order) + [Line(key, m[key])];
      parts, order, left := parts + [Line(key, m[key])], order + [key], left - {key};
    }
    assert m.Keys - left == m.Keys;
  }

  method TransformSliceToMap(input: seq<Text>) returns (result: Option<map<Text, Text>>)
    ensures result == Transform(input)
  {
    var m: map<Text, Text> := map[];
    for i := 0 to |input|
      invariant Transform(input[..i]) == Some(m)
    {
      assert input[..i + 1][..i] == input[..i];
      match Cut(input[i], EQUALS) {
        case None =>
          TransformFails(input, i + 1);
          return None;
        case Some((key, value)) =>
          m := m[key := value];
      }
    }
    assert input[..|input|] == input;
    return Some(m);
  }

  lemma {:induction false} TransformFails(lines: seq<Text>, n: nat)
    requires n <= |lines| && Transform(lines[..n]).None?
    ensures Transform(lines).None?
    decreases |lines| - n
  {
    if n < |lines| {
      assert lines[..n + 1][..n] == lines[..n];
      TransformFails(lines, n + 1);
    } else {
      assert lines[..n] == lines;
    }
  }

  lemma {:induction false} TransformLines(m: map<Text, Text>, order: seq<Text>)
    requires forall k :: k in order ==> k in m && EQUALS !in k
    ensures Transform(Lines(m, order)) == Some(map k | k in order :: m[k])
  {
    if order == [] {
      assert Lines(m, order) == [];
    } else {
      var front := order[..|order| - 1];
      var last := order[|order| - 1];
      assert order == front + [last];
      assert Lines(m, order)[..|order| - 1] == Lines(m, front);
      var before := map k | k in front :: m[k];
      assert Transform(Lines(m, front)) == Some(before) by { TransformLines(m, front); }
      assert Cut(Line(last, m[last]), EQUALS) == Some((last, m[last])) by { CutUnique(last, m[last], EQUALS); }
      assert before[last := m[last]] == map k | k in order :: m[k];
    }
  }

  lemma {:induction false} TransformedKeys(lines: seq<Text>)
    requires Transform(lines).Some?
    ensures forall k :: k in Transform(lines).value ==> EQUALS !in k
  {
    if lines != [] {
      TransformedKeys(lines[..|lines| - 1]);
    }
  }

  /** TransformSliceToMap undoes MapToKeyValueFormat, for every map iteration order, exactly when no key
      contains "=". Values are free to contain it. */
  lemma KeyValueRoundTrip(m: map<Text, Text>, order: seq<Text>)
    requires Ordering(order, m.Keys)
    ensures Transform(Lines(m, order)) == Some(m) <==> forall k :: k in m ==> EQUALS !in k
  {
    if forall k :: k in m ==> EQUALS !in k {
      assert forall k :: k in order ==> k in m.Keys;
      TransformLines(m, order);
      assert m == map k | k in order :: m[k] by {
        assert forall k :: k in m.Keys ==> k in order;
      }
    } else if Transform(Lines(m, order)) == Some(m) {
      TransformedKeys(Lines(m, order));
      assert false;
    }
  }

  // ---- filename=cid:hash entries ----

  function Entry(filename: Text, f: Frame): Text {
    filename + [EQUALS] + (f.cid + [COLON] + f.hash)
  }

  function Revealed(filename: Text, cid: Text, hash: Text): Frame {
    Frame(filename, [], cid, hash, 0, 0)
  }

  /** FromFramesToCli when Go's map iteration visits the keys in the given order. */
  function Entries(m: map<Text, Frame>, order: seq<Text>): (entries: seq<Text>)
    requires forall k :: k in order ==> k in m
    ensures |entries| == |order| && forall i :: 0 <= i < |order| ==> entries[i] == Entry(order[i], m[order[i]])
  {
    seq(|order|, i requires 0 <= i < |order| => Entry(order[i], m[order[i]]))
  }

  /** One entry of FromCliToFrames; None is a skipped entry. */
  function ParseEntry(entry: Text): Option<Frame> {
    match SplitTwo(entry, EQUALS)
    case None => None
    case Some((filename, rest)) =>
      match SplitTwo(rest, COLON)
      case None => None
      case Some((cid, hash)) => Some(Revealed(filename, cid, hash))
  }

  function FramesOf(entries: seq<Text>): (m: map<Text, Frame>)
    ensures forall k :: k in m ==> m[k] == Revealed(k, m[k].cid, m[k].hash)
  {
    if entries == [] then map[]
    else
      var m := FramesOf(entries[..|entries| - 1]);
      match ParseEntry(entries[|entries| - 1])
      case None => m
      case Some(f) => m[f.filename := f]
  }

  method FromFramesToCli(m: map<Text, Frame>) returns (result: seq<Text>)
    ensures exists order :: Ordering(order, m.Keys) && result == Entries(m, order)
  {
    result := [];
    ghost var order: seq<Text> := [];
    var left := m.Keys;
    while left != {}
      invariant Ordering(order, m.Keys - left) && left <= m.Keys
      invariant (forall k :: k in order ==> k in m) && result == Entries(m, order)
      decreases |left|
    {
      var key :| key in left;
      OrderingGrows(order, m.Keys - left, key);
      assert m.Keys - left + {key} == m.Keys - (left - {key});
      assert Entries(m, order + [key]) == Entries(m, order) + [Entry(key, m[key])];
      result, order, left := result + [Entry(key, m[key])], order + [key], left - {key};
    }
    assert m.Keys - left == m.Keys;
  }

  method FromCliToFrames(entries: seq<Text>) returns (result: map<Text, Frame>)
    ensures result == FramesOf(entries)
  {
    result := map[];
    for i := 0 to |entries|
      invariant result == FramesOf(entries[..i])
    {
      assert entries[..i + 1][..i] == entries[..i];
      match SplitTwo(entries[i], EQUALS) {
        case None =>
        case Some((filename, rest)) =>
          match SplitTwo(rest, COLON) {
            case None =>
            case Some((cid, hash)) => result := result[filename := Revealed(filename, cid, hash)];
          }
      }
    }
    assert entries[..|entries|] == entries;
  }

  /** The entry's own separators are the only ones in it. */
  predicate CleanEntry(filename: Text, f: Frame) {
    EQUALS !in filename && EQUALS !in f.cid && EQUALS !in f.hash && COLON !in f.cid && COLON !in f.hash
  }

  lemma EntryParses(filename: Text, f: Frame)
    ensures ParseEntry(Entry(filename, f)) ==
            if CleanEntry(filename, f) then Some(Revealed(filename, f.cid, f.hash)) else None
  {
    var rest := f.cid + [COLON] + f.hash;
    SplitTwoExact(filename, rest, EQUALS);
    SplitTwoExact(f.cid, f.hash, COLON);
    assert EQUALS in rest <==> EQUALS in f.cid || EQUALS in f.hash;
  }

  function Survivors(m: map<Text, Frame>, order: seq<Text>): map<Text, Frame>
    requires forall k :: k in order ==> k in m
  {
    map k | k in order && CleanEntry(k, m[k]) :: Revealed(k, m[k].cid, m[k].hash)
  }

  lemma SurvivorsGrow(m: map<Text, Frame>, front: seq<Text>, last: Text)
    requires last in m && forall k :: k in front ==> k in m
    ensures Survivors(m, front + [last]) ==
            if CleanEntry(last, m[last]) then Survivors(m, front)[last := Revealed(last, m[last].cid, m[last].hash)]
            else Survivors(m, front)
  {
    assert forall k :: k in front + [last] <==> k in front || k == last;
  }

  /** What survives a trip through the command line, in any order: exactly the clean entries. */
  lemma {:induction false} FramesOfEntries(m: map<Text, Frame>, order: seq<Text>)
    requires forall k :: k in order ==> k in m
    ensures FramesOf(Entries(m, order)) == Survivors(m, order)
  {
    if order == [] {
      assert Entries(m, order) == [];
    } else {
      var front := order[..|order| - 1];
      var last := order[|order| - 1];
      assert order == front + [last];
      assert Entries(m, order)[..|order| - 1] == Entries(m, front);
      FramesOfEntries(m, front);
      EntryParses(last, m[last]);
      SurvivorsGrow(m, front, last);
    }
  }

  predicate SameReveal(f: Frame, g: Frame) {
    f.filename == g.filename && f.cid == g.cid && f.hash == g.hash
  }

  /** FromCliToFrames undoes FromFramesToCli on filename, CID and hash, for every map iteration order, exactly
      when each key is its frame's filename and no field holds a delimiter. */
  lemma FramesRoundTrip(m: map<Text, Frame>, order: seq<Text>)
    requires Ordering(order, m.Keys)
    ensures (var r := FramesOf(Entries(m, order));
             r.Keys == m.Keys && forall k :: k in m ==> SameReveal(r[k], m[k])) <==>
            forall k :: k in m ==> k == m[k].filename && CleanEntry(k, m[k])
  {
    assert forall k :: k in order <==> k in m.Keys;
    FramesOfEntries(m, order);
    var r := FramesOf(Entries(m, order));
    assert forall k :: k in m ==> (k in r <==> CleanEntry(k, m[k]));
    if r.Keys == m.Keys {
      assert forall k :: k in m ==> k in r;
    }
  }
}
