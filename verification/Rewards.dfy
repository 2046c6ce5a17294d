/** Winner and validator payments (VideoUpscalerTask.go, VideoUpscalerThread.go). */
module Rewards {
  import opened Records

  /** GetWinnerReward and GetValidatorsReward: half the reward, divided evenly among the threads. */
  function HalfShare(reward: nat, threads: nat): nat
    requires threads > 0
  {
    reward / 2 / threads
  }

  /** Paying every winner and every validator pool once costs at most the reward, and rounding keeps back at most
      2n - 1 of it. */
  lemma PoolBounds(reward: nat, n: nat)
    requires n > 0
    ensures n * HalfShare(reward, n) + n * HalfShare(reward, n) <= reward
    ensures reward - (n * HalfShare(reward, n) + n * HalfShare(reward, n)) <= 2 * n - 1
  {
    var half := reward / 2;
    assert half == n * (half / n) + half % n;
  }

  function TotalFiles(vs: seq<Validation>): nat {
    if vs == [] then 0 else TotalFiles(vs[..|vs| - 1]) + |vs[|vs| - 1].frames|
  }

  /** Number of frames in the first validation of a worker; 0 when it has none. */
  function FilesOf(vs: seq<Validation>, worker: Text): nat {
    if vs == [] then 0
    else if vs[0].validator == worker then |vs[0].frames|
    else FilesOf(vs[1..], worker)
  }

  function Payment(files: nat, totalFiles: nat, pool: nat): nat {
    if totalFiles == 0 then 0 else pool * files / totalFiles
  }

  function ValidatorShare(vs: seq<Validation>, worker: Text, pool: nat): nat {
    Payment(FilesOf(vs, worker), TotalFiles(vs), pool)
  }

  method GetValidatorReward(vs: seq<Validation>, worker: Text, pool: nat) returns (amount: nat)
    ensures amount == ValidatorShare(vs, worker, pool)
  {
    var totalFiles := 0;
    for i := 0 to |vs|
      invariant totalFiles == TotalFiles(vs[..i])
    {
      assert vs[..i + 1][..i] == vs[..i];
      totalFiles := totalFiles + |vs[i].frames|;
    }
    assert vs[..|vs|] == vs;
    for i := 0 to |vs|
      invariant FilesOf(vs, worker) == FilesOf(vs[i..], worker)
    {
      if vs[i].validator == worker {
        return Payment(|vs[i].frames|, totalFiles, pool);
      }
      assert vs[i..][1..] == vs[i + 1..];
    }
    assert ValidatorShare(vs, worker, pool) == 0 by {
      assert FilesOf(vs, worker) == 0;
      assert TotalFiles(vs) != 0 ==> pool * 0 / TotalFiles(vs) == 0;
    }
    return 0;
  }

  lemma {:induction false} FilesOfFirst(vs: seq<Validation>, worker: Text, n: nat)
    requires n <= |vs| && (forall k :: 0 <= k < n ==> vs[k].validator != worker)
    requires n < |vs| ==> vs[n].validator == worker
    ensures FilesOf(vs, worker) == if n < |vs| then |vs[n].frames| else 0
  {
    if n > 0 {
      FilesOfFirst(vs[1..], worker, n - 1);
    }
  }

  lemma Quotient(a: nat, b: nat)
    requires b > 0
    ensures a / b * b <= a < (a / b + 1) * b
  {
    assert a == b * (a / b) + a % b;
  }

  /** A worker whose first validation is the n-th gets the part of the pool that its files are of all files, rounded
      down; a worker without a validation gets nothing. */
  lemma ShareOfFirst(vs: seq<Validation>, worker: Text, pool: nat, n: nat)
    requires n <= |vs| && (forall k :: 0 <= k < n ==> vs[k].validator != worker)
    requires n < |vs| ==> vs[n].validator == worker
    ensures var share, total := ValidatorShare(vs, worker, pool), TotalFiles(vs);
            if n == |vs| || total == 0 then share == 0
            else share * total <= pool * |vs[n].frames| < (share + 1) * total
  {
    FilesOfFirst(vs, worker, n);
    if TotalFiles(vs) > 0 {
      Quotient(pool * FilesOf(vs, worker), TotalFiles(vs));
    }
  }

  // ---- shares of a whole thread ----

  function FilesOfAll(vs: seq<Validation>, workers: seq<Text>): nat {
    if workers == [] then 0 else FilesOfAll(vs, workers[1..]) + FilesOf(vs, workers[0])
  }

  function SharesOfAll(vs: seq<Validation>, workers: seq<Text>, pool: nat): nat {
    if workers == [] then 0 else SharesOfAll(vs, workers[1..], pool) + ValidatorShare(vs, workers[0], pool)
  }

  /** How many of the workers validated at least one frame. */
  function PayingCount(vs: seq<Validation>, workers: seq<Text>): nat {
    if workers == [] then 0
    else PayingCount(vs, workers[1..]) + if FilesOf(vs, workers[0]) > 0 then 1 else 0
  }

  lemma TotalFilesFront(vs: seq<Validation>)
    requires vs != []
    ensures TotalFiles(vs) == |vs[0].frames| + TotalFiles(vs[1..])
  {
    var n := |vs| - 1;
    if n == 0 {
      assert vs[..n] == [] && vs[1..] == [];
    } else {
      TotalFilesFront(vs[..n]);
      assert vs[..n][1..] == vs[1..][..n - 1];
    }
  }

  /** Looking past the first validation changes the file count of its validator only. */
  lemma {:induction false} FilesOfAllFront(vs: seq<Validation>, workers: seq<Text>)
    requires vs != [] && Distinct(workers)
    ensures FilesOfAll(vs, workers) + (if vs[0].validator in workers then FilesOf(vs[1..], vs[0].validator) else 0)
            == FilesOfAll(vs[1..], workers) + if vs[0].validator in workers then |vs[0].frames| else 0
  {
    if workers != [] {
      FilesOfAllFront(vs, workers[1..]);
      assert vs[0].validator in workers <==> vs[0].validator == workers[0] || vs[0].validator in workers[1..];
    }
  }

  /** Distinct workers together never count a file twice. */
  lemma {:induction false} FilesOfAllAtMostTotal(vs: seq<Validation>, workers: seq<Text>)
    requires Distinct(workers)
    ensures FilesOfAll(vs, workers) <= TotalFiles(vs)
  {
    if vs == [] {
      NoValidations(vs, workers);
    } else {
      FilesOfAllAtMostTotal(vs[1..], workers);
      FilesOfAllFront(vs, workers);
      TotalFilesFront(vs);
    }
  }

  lemma NoValidations(vs: seq<Validation>, workers: seq<Text>)
    requires vs == []
    ensures FilesOfAll(vs, workers) == 0
  {
  }

  predicate DistinctValidators(vs: seq<Validation>) {
    forall i, j :: 0 <= i < j < |vs| ==> vs[i].validator != vs[j].validator
  }

  lemma {:induction false} AbsentHasNoFiles(vs: seq<Validation>, worker: Text)
    requires forall v :: v in vs ==> v.validator != worker
    ensures FilesOf(vs, worker) == 0
  {
    if vs != [] {
      AbsentHasNoFiles(vs[1..], worker);
    }
  }

  /** When no one validated twice and every validator is listed, every file is counted. */
  lemma {:induction false} FilesOfAllIsTotal(vs: seq<Validation>, workers: seq<Text>)
    requires Distinct(workers) && DistinctValidators(vs)
    requires forall v :: v in vs ==> v.validator in workers
    ensures FilesOfAll(vs, workers) == TotalFiles(vs)
  {
    if vs == [] {
      NoValidations(vs, workers);
    } else {
      FilesOfAllIsTotal(vs[1..], workers);
      FilesOfAllFront(vs, workers);
      TotalFilesFront(vs);
      AbsentHasNoFiles(vs[1..], vs[0].validator);
    }
  }

  lemma DivideStep(a: nat, b: nat, total: nat)
    requires total > 0
    ensures a / total + b / total <= (a + b) / total
    ensures b > 0 ==> (a + b) / total <= a / total + b / total + 1
  {
    var x, y, r, s := a / total, b / total, a % total, b % total;
    QuotientParts(a, total);
    QuotientParts(b, total);
    Distribute(total, x, y);
    if r + s < total {
      DivideUnique(a + b, total, x + y, r + s);
    } else {
      Distribute(total, x + y, 1);
      DivideUnique(a + b, total, x + y + 1, r + s - total);
    }
  }

  lemma QuotientParts(a: nat, total: nat)
    requires total > 0
    ensures a == total * (a / total) + a % total && 0 <= a % total < total
  {
  }

  lemma Distribute(total: nat, x: nat, y: nat)
    ensures total * (x + y) == total * x + total * y
  {
  }

  lemma DivideUnique(a: nat, total: nat, q: nat, r: nat)
    requires total > 0 && a == total * q + r && r < total
    ensures a / total == q
  {
    var gap: int := q - a / total;
    assert total * gap == a % total - r;
    assert gap > 0 ==> total * gap >= total;
    assert gap < 0 ==> total * gap + total <= 0;
  }

  lemma PaymentStep(pool: nat, rest: nat, mine: nat, total: nat)
    requires total > 0
    ensures pool * rest / total + pool * mine / total <= pool * (rest + mine) / total
    ensures mine == 0 ==> pool * (rest + mine) / total == pool * rest / total && pool * mine / total == 0
    ensures mine > 0 ==> pool * (rest + mine) / total <= pool * rest / total + pool * mine / total + 1
    ensures rest == 0 ==> pool * rest / total == 0 && pool * (rest + mine) / total == pool * mine / total
  {
    assert pool * (rest + mine) == pool * rest + pool * mine;
    assert mine == 0 ==> pool * mine == 0;
    assert rest == 0 ==> pool * rest == 0;
    assert 0 / total == 0;
    var a, b := pool * rest, pool * mine;
    DivideStep(a, b, total);
  }

  /** A sum of floors lies below the floor of the sum, by less than one per non-zero term. */
  lemma {:induction false} SharesAgainstFiles(vs: seq<Validation>, workers: seq<Text>, pool: nat)
    requires TotalFiles(vs) > 0
    ensures var all := Payment(FilesOfAll(vs, workers), TotalFiles(vs), pool);
            && SharesOfAll(vs, workers, pool) <= all
            && (PayingCount(vs, workers) > 0 ==> all <= SharesOfAll(vs, workers, pool) + PayingCount(vs, workers) - 1)
            && (PayingCount(vs, workers) == 0 ==> FilesOfAll(vs, workers) == 0)
  {
    if workers == [] {
      PaymentStep(pool, 0, 0, TotalFiles(vs));
    } else {
      SharesAgainstFiles(vs, workers[1..], pool);
      PaymentStep(pool, FilesOfAll(vs, workers[1..]), FilesOf(vs, workers[0]), TotalFiles(vs));
    }
  }

  lemma PaymentAtMostPool(files: nat, total: nat, pool: nat)
    requires 0 < total && files <= total
    ensures Payment(files, total, pool) <= pool && Payment(total, total, pool) == pool
  {
    assert total * pool == pool * total;
    DivideUnique(pool * total, total, pool, 0);
    PaymentStep(pool, files, total - files, total);
  }

  /** The shares of a thread's distinct workers never exceed the validator pool. They fall short of what the pool pays for
      their first validations together by less than one coin per paid worker. When no one validated twice and all
      validators are listed, those are all the files and the whole pool. */
  lemma ValidatorPoolBounds(vs: seq<Validation>, workers: seq<Text>, pool: nat)
    requires Distinct(workers)
    ensures SharesOfAll(vs, workers, pool) <= pool
    ensures PayingCount(vs, workers) > 0 ==>
              Payment(FilesOfAll(vs, workers), TotalFiles(vs), pool) - (PayingCount(vs, workers) - 1)
              <= SharesOfAll(vs, workers, pool)
    ensures DistinctValidators(vs) && (forall v :: v in vs ==> v.validator in workers) && TotalFiles(vs) > 0 ==>
              FilesOfAll(vs, workers) == TotalFiles(vs)
              && pool - (PayingCount(vs, workers) - 1) <= SharesOfAll(vs, workers, pool)
  {
    var total := TotalFiles(vs);
    FilesOfAllAtMostTotal(vs, workers);
    if total == 0 {
      NothingToShare(vs, workers, pool);
    } else {
      SharesAgainstFiles(vs, workers, pool);
      PaymentAtMostPool(FilesOfAll(vs, workers), total, pool);
      if DistinctValidators(vs) && forall v :: v in vs ==> v.validator in workers {
        FilesOfAllIsTotal(vs, workers);
      }
    }
  }

  lemma {:induction false} NothingToShare(vs: seq<Validation>, workers: seq<Text>, pool: nat)
    requires TotalFiles(vs) == 0
    ensures SharesOfAll(vs, workers, pool) == 0
  {
    if workers != [] {
      NothingToShare(vs, workers[1..], pool);
    }
  }
}
