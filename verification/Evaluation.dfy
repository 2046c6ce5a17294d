/** Evaluating a completed thread (module/module.go, EvaluateCompletedThread): release and reward of all its workers. */
module Evaluation {
  import opened Records
  import opened Rewards
  import opened Chain
  import opened Escrow

  function Rewarded(w: Worker, winning: nat): Worker {
    var r := w.reputation;
    Idle(w).(reputation := r.(points := r.points + 1, validations := r.validations + 1, winnings := r.winnings + winning))
  }

  /** The workers once the first n of the thread's have been rewarded from the pool. */
  function RewardedUpTo(workers: map<Text, Worker>, th: Thread, pool: nat, n: nat): (m: map<Text, Worker>)
    requires n <= |th.workers| && forall a :: a in th.workers ==> a in workers
    ensures m.Keys == workers.Keys
  {
    if n == 0 then workers
    else
      var before, a := RewardedUpTo(workers, th, pool, n - 1), th.workers[n - 1];
      before[a := Rewarded(before[a], ValidatorShare(th.validations, a, pool))]
  }

  /** Each worker of the thread is released and rewarded once, by its own share; no one else changes. */
  lemma {:induction false} RewardedOnce(workers: map<Text, Worker>, th: Thread, pool: nat, n: nat, a: Text)
    requires n <= |th.workers| && (forall b :: b in th.workers ==> b in workers) && Distinct(th.workers)
    requires a in workers
    ensures RewardedUpTo(workers, th, pool, n)[a] ==
            if a in th.workers[..n] then Rewarded(workers[a], ValidatorShare(th.validations, a, pool)) else workers[a]
  {
    if n > 0 {
      RewardedOnce(workers, th, pool, n - 1, a);
      assert th.workers[..n] == th.workers[..n - 1] + [th.workers[n - 1]];
    }
  }

  /** What a listed worker's record says afterwards: idle, one more point and validation, its share among its
      winnings. */
  lemma WorkerCredited(workers: map<Text, Worker>, th: Thread, pool: nat, a: Text)
    requires (forall b :: b in th.workers ==> b in workers) && Distinct(th.workers) && a in workers
    ensures var w', r := RewardedUpTo(workers, th, pool, |th.workers|)[a], workers[a].reputation;
            w' == if a !in th.workers then workers[a]
                  else workers[a].(currentTaskId := [], currentThreadIndex := 0,
                                   reputation := Reputation(r.staked, r.points + 1, r.validations + 1, r.solutions,
                                                            r.winnings + ValidatorShare(th.validations, a, pool),
                                                            r.renderDurations))
  {
    RewardedOnce(workers, th, pool, |th.workers|, a);
    assert th.workers[..|th.workers|] == th.workers;
  }

  function Winnings(workers: map<Text, Worker>): map<Text, int> {
    map a | a in workers :: workers[a].reputation.winnings
  }

  lemma WinningsPut(workers: map<Text, Worker>, a: Text, w: Worker)
    ensures Winnings(workers[a := w]) == Winnings(workers)[a := w.reputation.winnings]
  {
  }

  lemma WinningsOfOne(workers: map<Text, Worker>, a: Text, winning: nat)
    requires a in workers
    ensures Sum(Winnings(workers[a := Rewarded(workers[a], winning)])) == Sum(Winnings(workers)) + winning
  {
    var w := Rewarded(workers[a], winning);
    WinningsPut(workers, a, w);
    SumPut(Winnings(workers), a, w.reputation.winnings);
  }

  lemma {:induction false} SharesAppend(vs: seq<Validation>, ws: seq<Text>, a: Text, pool: nat)
    ensures SharesOfAll(vs, ws + [a], pool) == SharesOfAll(vs, ws, pool) + ValidatorShare(vs, a, pool)
  {
    if ws == [] {
      assert ([] + [a])[1..] == [];
    } else {
      assert (ws + [a])[1..] == ws[1..] + [a];
      SharesAppend(vs, ws[1..], a, pool);
    }
  }

  lemma SharesNext(vs: seq<Validation>, ws: seq<Text>, n: nat, pool: nat)
    requires n < |ws|
    ensures SharesOfAll(vs, ws[..n + 1], pool) == SharesOfAll(vs, ws[..n], pool) + ValidatorShare(vs, ws[n], pool)
  {
    assert ws[..n + 1] == ws[..n] + [ws[n]];
    SharesAppend(vs, ws[..n], ws[n], pool);
  }

  lemma RewardedNext(workers: map<Text, Worker>, th: Thread, pool: nat, n: nat)
    requires n < |th.workers| && forall a :: a in th.workers ==> a in workers
    ensures Sum(Winnings(RewardedUpTo(workers, th, pool, n + 1))) ==
            Sum(Winnings(RewardedUpTo(workers, th, pool, n))) + ValidatorShare(th.validations, th.workers[n], pool)
  {
    var a := th.workers[n];
    WinningsOfOne(RewardedUpTo(workers, th, pool, n), a, ValidatorShare(th.validations, a, pool));
  }

  lemma GrowNext(workers: map<Text, Worker>, th: Thread, pool: nat, n: nat)
    requires n < |th.workers| && forall a :: a in th.workers ==> a in workers
    ensures Sum(Winnings(RewardedUpTo(workers, th, pool, n + 1))) - SharesOfAll(th.validations, th.workers[..n + 1], pool)
            == Sum(Winnings(RewardedUpTo(workers, th, pool, n))) - SharesOfAll(th.validations, th.workers[..n], pool)
  {
    RewardedNext(workers, th, pool, n);
    SharesNext(th.validations, th.workers, n, pool);
  }

  lemma GrowNone(workers: map<Text, Worker>, th: Thread, pool: nat)
    requires forall a :: a in th.workers ==> a in workers
    ensures Sum(Winnings(RewardedUpTo(workers, th, pool, 0))) == Sum(Winnings(workers))
    ensures SharesOfAll(th.validations, th.workers[..0], pool) == 0
  {
    assert th.workers[..0] == [];
  }

  /** All winnings together grow by exactly the shares of the workers rewarded. */
  lemma WinningsGrow(workers: map<Text, Worker>, th: Thread, pool: nat, n: nat)
    requires n <= |th.workers| && forall a :: a in th.workers ==> a in workers
    ensures Sum(Winnings(RewardedUpTo(workers, th, pool, n))) ==
            Sum(Winnings(workers)) + SharesOfAll(th.validations, th.workers[..n], pool)
  {
    GrowNone(workers, th, pool);
    for k := 0 to n
      invariant Sum(Winnings(RewardedUpTo(workers, th, pool, k))) - SharesOfAll(th.validations, th.workers[..k], pool)
                == Sum(Winnings(workers))
    {
      GrowNext(workers, th, pool, k);
    }
  }

  /** Main result: evaluating a thread adds at most its validator pool to all winnings together. */
  lemma EvaluationWithinPool(workers: map<Text, Worker>, th: Thread, pool: nat)
    requires (forall a :: a in th.workers ==> a in workers) && Distinct(th.workers)
    ensures var before, after := Sum(Winnings(workers)), Sum(Winnings(RewardedUpTo(workers, th, pool, |th.workers|)));
            before <= after <= before + pool
  {
    WinningsGrow(workers, th, pool, |th.workers|);
    assert th.workers[..|th.workers|] == th.workers;
    ValidatorPoolBounds(th.validations, th.workers, pool);
  }
}
