/** How a task's frames are divided among its threads (VideoUpscalerTask.go). */
module FrameSplit {
  import opened Records
  import opened Decimal

  /** Go's integer division truncates toward zero. */
  function Quo(a: int, b: int): int
    requires b > 0
  {
    if a >= 0 then a / b else -(-a / b)
  }

  function Rem(a: int, b: int): int
    requires b > 0
  {
    a - b * Quo(a, b)
  }

  datatype Range = Range(startFrame: int, endFrame: int) {
    predicate Holds(f: int) { startFrame <= f <= endFrame }
    function Length(): int { endFrame - startFrame + 1 }
  }

  /** First frame of thread i: every thread takes the quotient, the first `remainder` threads one frame more. */
  function StartAt(startFrame: int, endFrame: int, threads: int, i: nat): int
    requires threads > 0
  {
    var total := endFrame - startFrame + 1;
    var r := Rem(total, threads);
    startFrame + i * Quo(total, threads) + if r <= 0 then 0 else if i < r then i else r
  }

  function RangeAt(startFrame: int, endFrame: int, threads: int, i: nat): Range
    requires threads > 0
  {
    Range(StartAt(startFrame, endFrame, threads, i), StartAt(startFrame, endFrame, threads, i + 1) - 1)
  }

  /** None: the division or the allocation panics. */
  method SplitFrames(startFrame: int, endFrame: int, threads: int) returns (result: Option<seq<Range>>)
    ensures result.None? <==> threads <= 0
    ensures result.Some? ==>
      result.value == seq(threads, i requires 0 <= i < threads => RangeAt(startFrame, endFrame, threads, i))
  {
    if threads <= 0 {
      return None;
    }
    var totalFrames := endFrame - startFrame + 1;
    var framesPerThread := Quo(totalFrames, threads);
    var remainder := Rem(totalFrames, threads);
    var ranges: seq<Range> := [];
    var currentStart := startFrame;
    for i := 0 to threads
      invariant ranges == seq(i, j requires 0 <= j < i => RangeAt(startFrame, endFrame, threads, j))
      invariant currentStart == StartAt(startFrame, endFrame, threads, i)
      invariant var r := Rem(totalFrames, threads);
                remainder == if r <= 0 then r else if i < r then r - i else 0
    {
      var extra := 0;
      if remainder > 0 {
        extra, remainder := 1, remainder - 1;
      }
      assert (i + 1) * framesPerThread == i * framesPerThread + framesPerThread;
      var end := currentStart + framesPerThread + extra - 1;
      ranges := ranges + [Range(currentStart, end)];
      currentStart := end + 1;
    }
    return Some(ranges);
  }

  lemma RemRange(a: int, b: int)
    requires b > 0
    ensures a >= 0 ==> 0 <= Rem(a, b) < b && Quo(a, b) >= 0
    ensures a < 0 ==> -b < Rem(a, b) <= 0 && Quo(a, b) <= 0
    ensures a == b * Quo(a, b) + Rem(a, b)
  {
    if a < 0 {
      var n := -a;
      assert n == b * (n / b) + n % b;
      assert b * -(n / b) == -(b * (n / b));
    }
  }

  /** The ranges follow one another from the first frame to the last. A reversed request, which task creation accepts,
      gives ranges without a frame, and truncation leaves the remainder behind the last of them. */
  lemma StartStep(startFrame: int, endFrame: int, threads: int, i: nat)
    requires threads > 0
    ensures var total := endFrame - startFrame + 1;
            var length := StartAt(startFrame, endFrame, threads, i + 1) - StartAt(startFrame, endFrame, threads, i);
            && length == Quo(total, threads) + (if i < Rem(total, threads) then 1 else 0)
            && (total >= 0 ==> length >= 0)
            && (total < 0 ==> length <= 0)
    ensures StartAt(startFrame, endFrame, threads, 0) == startFrame
    ensures StartAt(startFrame, endFrame, threads, threads) ==
            endFrame + 1 - if endFrame >= startFrame - 1 then 0 else Rem(endFrame - startFrame + 1, threads)
  {
    var total := endFrame - startFrame + 1;
    RemRange(total, threads);
    assert (i + 1) * Quo(total, threads) == i * Quo(total, threads) + Quo(total, threads);
  }

  lemma {:induction false} StartMonotone(startFrame: int, endFrame: int, threads: int, i: nat, j: nat)
    requires threads > 0 && i <= j
    ensures endFrame >= startFrame - 1 ==>
      StartAt(startFrame, endFrame, threads, i) <= StartAt(startFrame, endFrame, threads, j)
    decreases j - i
  {
    if i < j {
      StartStep(startFrame, endFrame, threads, i);
      StartMonotone(startFrame, endFrame, threads, i + 1, j);
    }
  }

  lemma {:induction false} FindThread(startFrame: int, endFrame: int, threads: int, f: int, n: nat) returns (i: nat)
    requires threads > 0 && endFrame >= startFrame - 1
    requires startFrame <= f < StartAt(startFrame, endFrame, threads, n)
    ensures i < n && RangeAt(startFrame, endFrame, threads, i).Holds(f)
  {
    StartStep(startFrame, endFrame, threads, n);
    if StartAt(startFrame, endFrame, threads, n - 1) <= f {
      i := n - 1;
    } else {
      i := FindThread(startFrame, endFrame, threads, f, n - 1);
    }
  }

  /** The threads whose range holds frame f. */
  function Holders(startFrame: int, endFrame: int, threads: int, f: int): set<nat>
    requires threads > 0
  {
    set i: nat | i < threads && RangeAt(startFrame, endFrame, threads, i).Holds(f)
  }

  /** Every frame of the task, and no other, belongs to a thread, and to one thread only. A reversed request has no
      frames. */
  lemma FramePartition(startFrame: int, endFrame: int, threads: int, f: int)
    requires threads > 0
    ensures |Holders(startFrame, endFrame, threads, f)| == if startFrame <= f <= endFrame then 1 else 0
  {
    var holders := Holders(startFrame, endFrame, threads, f);
    forall i | i in holders
      ensures startFrame <= f <= endFrame
    {
      StartStep(startFrame, endFrame, threads, i);
      StartMonotone(startFrame, endFrame, threads, 0, i);
      StartMonotone(startFrame, endFrame, threads, i + 1, threads);
    }
    if startFrame <= f <= endFrame {
      StartStep(startFrame, endFrame, threads, threads);
      var i := FindThread(startFrame, endFrame, threads, f, threads);
      forall j | j in holders
        ensures j == i
      {
        if j < i {
          StartMonotone(startFrame, endFrame, threads, j + 1, i);
        } else if i < j {
          StartMonotone(startFrame, endFrame, threads, i + 1, j);
        }
      }
      assert holders == {i};
    } else {
      assert holders == {};
    }
  }

  /** Lengths differ by at most one, the longer ranges first; only a reversed request gives negative ones. */
  lemma BalancedLengths(startFrame: int, endFrame: int, threads: int, i: nat, j: nat)
    requires threads > 0 && i <= j < threads
    ensures var a, b := RangeAt(startFrame, endFrame, threads, i).Length(), RangeAt(startFrame, endFrame, threads, j).Length();
            && b <= a <= b + 1
            && (endFrame >= startFrame - 1 ==> b >= 0)
            && (endFrame < startFrame - 1 ==> a <= 0)
  {
    StartStep(startFrame, endFrame, threads, i);
    StartStep(startFrame, endFrame, threads, j);
    RemRange(endFrame - startFrame + 1, threads);
  }

  function ThreadName(taskId: Text, i: nat): Text { taskId + Itoa(i) }

  function NewThread(taskId: Text, i: nat, r: Range): Thread {
    Thread(ThreadName(taskId, i), taskId, r.startFrame, r.endFrame, 0, false, [], None, [], 0)
  }

  function NewThreads(taskId: Text, startFrame: int, endFrame: int, threads: int): (ts: seq<Thread>)
    requires threads > 0
    ensures |ts| == threads
    ensures forall i :: 0 <= i < threads ==>
      ts[i] == NewThread(taskId, i, RangeAt(startFrame, endFrame, threads, i))
  {
    seq(threads, i requires 0 <= i < threads => NewThread(taskId, i, RangeAt(startFrame, endFrame, threads, i)))
  }

  method GenerateThreads(taskId: Text, startFrame: int, endFrame: int, threadAmount: int)
    returns (result: Option<seq<Thread>>)
    ensures result.None? <==> threadAmount <= 0
    ensures result.Some? ==> result.value == NewThreads(taskId, startFrame, endFrame, threadAmount)
  {
    var frameRanges := SplitFrames(startFrame, endFrame, threadAmount);
    if frameRanges.None? {
      return None;
    }
    var res: seq<Thread> := [];
    for i := 0 to |frameRanges.value|
      invariant |res| == i
      invariant forall j :: 0 <= j < i ==>
        res[j] == NewThread(taskId, j, RangeAt(startFrame, endFrame, threadAmount, j))
    {
      res := res + [NewThread(taskId, i, frameRanges.value[i])];
    }
    assert res == NewThreads(taskId, startFrame, endFrame, threadAmount);
    return Some(res);
  }

  /** Thread ids are unique within a task. */
  lemma ThreadNamesUnique(taskId: Text, i: nat, j: nat)
    requires ThreadName(taskId, i) == ThreadName(taskId, j)
    ensures i == j
  {
    assert ThreadName(taskId, i)[|taskId|..] == Itoa(i);
    assert ThreadName(taskId, j)[|taskId|..] == Itoa(j);
    ItoaInjective(i, j);
  }

  /** The number whose decimal digits are those of m followed by those of i. */
  function Glued(m: nat, i: nat): nat {
    if i < 10 then 10 * m + i else 10 * Glued(m, i / 10) + i % 10
  }

  lemma ItoaAppend(n: nat, digit: nat)
    requires n > 0 && digit < 10
    ensures Itoa(10 * n + digit) == Itoa(n) + Itoa(digit)
  {
    assert (10 * n + digit) / 10 == n;
  }

  lemma {:induction false} NameIsGlued(m: nat, i: nat)
    requires m > 0
    ensures Glued(m, i) > 0 && ThreadName(Itoa(m), i) == Itoa(Glued(m, i))
    decreases i
  {
    if i < 10 {
      ItoaAppend(m, i);
    } else {
      NameIsGlued(m, i / 10);
      ItoaAppend(i / 10, i % 10);
      ItoaAppend(Glued(m, i / 10), i % 10);
      assert i == 10 * (i / 10) + i % 10;
      var front, digit := Itoa(i / 10), Itoa(i % 10);
      assert Itoa(m) + (front + digit) == (Itoa(m) + front) + digit;
    }
  }

  lemma {:induction false} FirstDigit(n: nat)
    ensures Itoa(n)[0] == 48 <==> n == 0
  {
    if n >= 10 {
      FirstDigit(n / 10);
    }
  }

  lemma {:induction false} GluedToZero(i: nat)
    ensures Glued(0, i) == i
  {
    if i >= 10 {
      GluedToZero(i / 10);
    }
  }

  /** Across tasks, two threads share a name, hence a row of a node's local database, exactly when the digits of task
      and index glued together are the same number. */
  lemma ThreadNamesCollide(m: nat, i: nat, n: nat, j: nat)
    ensures ThreadName(Itoa(m), i) == ThreadName(Itoa(n), j) <==> (m == 0 <==> n == 0) && Glued(m, i) == Glued(n, j)
  {
    FirstDigit(m);
    FirstDigit(n);
    if m > 0 && n > 0 {
      NameIsGlued(m, i);
      NameIsGlued(n, j);
      if Itoa(Glued(m, i)) == Itoa(Glued(n, j)) {
        ItoaInjective(Glued(m, i), Glued(n, j));
      }
    } else if m == 0 && n == 0 {
      GluedToZero(i);
      GluedToZero(j);
      if ThreadName(Itoa(0), i) == ThreadName(Itoa(0), j) {
        ThreadNamesUnique(Itoa(0), i, j);
      }
    } else {
      assert ThreadName(Itoa(m), i)[0] == Itoa(m)[0] && ThreadName(Itoa(n), j)[0] == Itoa(n)[0];
    }
  }

  /** Thread 11 of task 1 and thread 1 of task 11. */
  lemma ThreadNamesCollideAcrossTasks()
    ensures Itoa(1) != Itoa(11) && ThreadName(Itoa(1), 11) == ThreadName(Itoa(11), 1)
  {
    assert Itoa(1) == [49] && Itoa(11) == [49, 49];
  }
}
