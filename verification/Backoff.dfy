/**
 Capped exponential backoff, shared by the outbox (platform/database/outbox.py) and the
 tool executor (agent_runtime/tools/executor.py). Products are kept out of the definitions:
 `Uncapped` doubles, and `UncappedIsScaled` says that this is base * 2 ** (attempt - 1).
 */
module Backoff {

  /** 2 ** k for every integer exponent. */
  function TwoTo(k: int): (r: real)
    ensures r > 0.0
    decreases if k < 0 then -k else k
  {
    if k == 0 then 1.0 else if k > 0 then 2.0 * TwoTo(k - 1) else TwoTo(k + 1) / 2.0
  }

  /** The delay after an attempt before the cap is applied; attempt counters may be any integer. */
  function Uncapped(base: real, attempt: int): real
    decreases if attempt < 1 then 1 - attempt else attempt - 1
  {
    if attempt == 1 then base
    else if attempt > 1 then 2.0 * Uncapped(base, attempt - 1)
    else Uncapped(base, attempt + 1) / 2.0
  }

  function Delay(base: real, cap: real, attempt: int): real {
    var uncapped := Uncapped(base, attempt);
    if uncapped <= cap then uncapped else cap
  }

  /** Sum of the delays slept after the given attempts. */
  function Total(base: real, cap: real, attempts: seq<int>): real {
    if attempts == [] then 0.0
    else Total(base, cap, attempts[..|attempts| - 1]) + Delay(base, cap, attempts[|attempts| - 1])
  }

  predicate Increasing(attempts: seq<int>) {
    forall i, j :: 0 <= i < j < |attempts| ==> attempts[i] < attempts[j]
  }

  lemma {:induction false} UncappedIsScaled(base: real, attempt: int)
    ensures Uncapped(base, attempt) == base * TwoTo(attempt - 1)
    decreases if attempt < 1 then 1 - attempt else attempt - 1
  {
    if attempt > 1 {
      UncappedIsScaled(base, attempt - 1);
      var t := TwoTo(attempt - 2);
      assert base * (2.0 * t) == 2.0 * (base * t);
    } else if attempt < 1 {
      UncappedIsScaled(base, attempt + 1);
      var t := TwoTo(attempt);
      assert base * (t / 2.0) == (base * t) / 2.0;
    }
  }

  lemma {:induction false} UncappedMonotone(base: real, i: int, j: int)
    requires base > 0.0 && 1 <= i <= j
    ensures 0.0 < Uncapped(base, i) <= Uncapped(base, j)
    decreases j
  {
    if i < j {
      UncappedMonotone(base, i, j - 1);
    } else if i > 1 {
      UncappedMonotone(base, i - 1, i - 1);
    }
  }

  /** The delay is base * 2 ** (attempt - 1) or the cap, whichever is smaller. */
  lemma DelayIsCappedPower(base: real, cap: real, attempt: int)
    ensures Delay(base, cap, attempt) <= cap && Delay(base, cap, attempt) <= base * TwoTo(attempt - 1)
    ensures Delay(base, cap, attempt) == cap || Delay(base, cap, attempt) == base * TwoTo(attempt - 1)
  {
    UncappedIsScaled(base, attempt);
  }

  /** Delays never decrease from one attempt to a later one. */
  lemma DelayMonotone(base: real, cap: real, i: int, j: int)
    requires base > 0.0 && 1 <= i <= j
    ensures Delay(base, cap, i) <= Delay(base, cap, j)
  {
    UncappedMonotone(base, i, j);
  }

  /** An increasing sequence of positive attempts no greater than `last` has at most `last` members. */
  lemma {:induction false} IncreasingIsShort(attempts: seq<int>, last: nat)
    requires Increasing(attempts)
    requires forall i :: 0 <= i < |attempts| ==> 1 <= attempts[i] <= last
    ensures |attempts| <= last
  {
    if attempts != [] {
      IncreasingIsShort(attempts[..|attempts| - 1], attempts[|attempts| - 1] - 1);
    }
  }

  /** base + 2*base + .. + 2^(n-1)*base */
  function Exponential(base: real, n: nat): real {
    if n == 0 then 0.0 else Exponential(base, n - 1) + Uncapped(base, n)
  }

  lemma {:induction false} ExponentialClosedForm(base: real, n: nat)
    ensures Exponential(base, n) == base * (TwoTo(n) - 1.0)
  {
    if n > 0 {
      ExponentialClosedForm(base, n - 1);
      UncappedIsScaled(base, n);
      var t := TwoTo(n - 1);
      assert base * (2.0 * t - 1.0) == base * (t - 1.0) + base * t;
    }
  }

  lemma {:induction false} ExponentialMonotone(base: real, i: nat, j: nat)
    requires base > 0.0 && i <= j
    ensures Exponential(base, i) <= Exponential(base, j)
    decreases j
  {
    if i < j {
      ExponentialMonotone(base, i, j - 1);
      UncappedMonotone(base, j, j);
    }
  }

  lemma {:induction false} TotalBelowExponential(base: real, cap: real, attempts: seq<int>, last: nat)
    requires base > 0.0
    requires Increasing(attempts)
    requires forall i :: 0 <= i < |attempts| ==> 1 <= attempts[i] <= last
    ensures Total(base, cap, attempts) <= Exponential(base, last)
  {
    if attempts == [] {
      ExponentialMonotone(base, 0, last);
    } else {
      var n := |attempts| - 1;
      var final := attempts[n];
      TotalBelowExponential(base, cap, attempts[..n], final - 1);
      ExponentialMonotone(base, final, last);
    }
  }

  /** cap + .. + cap, n times */
  function Repeated(cap: real, n: nat): real {
    if n == 0 then 0.0 else Repeated(cap, n - 1) + cap
  }

  lemma {:induction false} RepeatedClosedForm(cap: real, n: nat)
    ensures Repeated(cap, n) == n as real * cap
  {
    if n > 0 {
      RepeatedClosedForm(cap, n - 1);
      assert n as real == (n - 1) as real + 1.0;
      assert ((n - 1) as real + 1.0) * cap == (n - 1) as real * cap + cap;
    }
  }

  lemma {:induction false} RepeatedMonotone(cap: real, i: nat, j: nat)
    requires cap >= 0.0 && i <= j
    ensures Repeated(cap, i) <= Repeated(cap, j)
    decreases j
  {
    if i < j { RepeatedMonotone(cap, i, j - 1); }
  }

  lemma {:induction false} TotalBelowCaps(base: real, cap: real, attempts: seq<int>, last: nat)
    requires cap >= 0.0
    requires Increasing(attempts)
    requires forall i :: 0 <= i < |attempts| ==> 1 <= attempts[i] <= last
    ensures Total(base, cap, attempts) <= Repeated(cap, last)
  {
    if attempts == [] {
      RepeatedMonotone(cap, 0, last);
    } else {
      var n := |attempts| - 1;
      var final := attempts[n];
      TotalBelowCaps(base, cap, attempts[..n], final - 1);
      RepeatedMonotone(cap, final, last);
    }
  }

  /** No longer than the pure exponential sum, and no longer than one capped delay for each retry. */
  predicate WithinBudget(base: real, cap: real, attempts: seq<int>, retries: nat) {
    && Total(base, cap, attempts) <= base * (TwoTo(retries) - 1.0)
    && Total(base, cap, attempts) <= retries as real * cap
  }

  /**
   The whole-run budget. Retrying after any increasing sequence of attempts, each at most `last`,
   stays within the budget of `last` retries.
   */
  lemma TotalIsBounded(base: real, cap: real, attempts: seq<int>, last: nat)
    requires base > 0.0 && cap >= base
    requires Increasing(attempts)
    requires forall i :: 0 <= i < |attempts| ==> 1 <= attempts[i] <= last
    ensures WithinBudget(base, cap, attempts, last)
  {
    TotalBelowExponential(base, cap, attempts, last);
    TotalBelowCaps(base, cap, attempts, last);
    ExponentialClosedForm(base, last);
    RepeatedClosedForm(cap, last);
  }

  /** 1, 2, .., n: the attempts after which a run of n retries sleeps. */
  function UpTo(n: nat): (s: seq<int>)
    ensures |s| == n && forall i :: 0 <= i < n ==> s[i] == i + 1
  {
    seq(n, i => i + 1)
  }

  lemma {:induction false} ExactSum(base: real, cap: real, n: nat)
    requires base > 0.0
    ensures Total(base, cap, UpTo(n)) == Exponential(base, n) <==> n == 0 || Uncapped(base, n) <= cap
  {
    if n > 0 {
      assert UpTo(n)[..n - 1] == UpTo(n - 1);
      TotalBelowExponential(base, cap, UpTo(n - 1), n - 1);
      ExactSum(base, cap, n - 1);
      UncappedMonotone(base, if n == 1 then 1 else n - 1, n);
    }
  }

  /** Retrying n times in a row waits exactly the exponential sum just when the cap is never exceeded. */
  lemma ExactTotal(base: real, cap: real, n: nat)
    requires base > 0.0
    ensures Total(base, cap, UpTo(n)) == base * (TwoTo(n) - 1.0)
        <==> n == 0 || base * TwoTo(n - 1) <= cap
  {
    ExactSum(base, cap, n);
    ExponentialClosedForm(base, n);
    UncappedIsScaled(base, n);
  }
}
