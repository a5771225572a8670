/**
  `retry`: call an operation until it succeeds, at most `max_attempts + 1`
  times, sleeping 2^k seconds after the k-th failed call. The operation is
  given by its replies: call number k + 1 returns `f(k)`.
 */
module Backoff {
  import opened Common

  function Pow2(k: nat): (p: nat)
    ensures p >= 1
  {
    if k == 0 then 1 else 2 * Pow2(k - 1)
  }

  /** 2^k grows with k. */
  lemma {:induction false} Pow2Grows(j: nat, k: nat)
    requires j <= k
    ensures Pow2(j) <= Pow2(k)
    decreases k
  {
    if j < k {
      Pow2Grows(j, k - 1);
    }
  }

  /** 2^(j + k) == 2^j * 2^k. */
  lemma {:induction false} Pow2Add(j: nat, k: nat)
    ensures Pow2(j + k) == Pow2(j) * Pow2(k)
    decreases k
  {
    if k > 0 {
      Pow2Add(j, k - 1);
      assert Pow2(j + k) == 2 * Pow2(j + k - 1);
    }
  }

  /** 2^31, the largest power of two a `u32` holds. */
  lemma Pow2Of31()
    ensures Pow2(31) == 0x8000_0000
  {
    Pow2Add(1, 1);
    Pow2Add(2, 2);
    Pow2Add(4, 4);
    assert Pow2(8) == 0x100;
    Pow2Add(8, 8);
    assert Pow2(16) == 0x1_0000;
    Pow2Add(16, 8);
    Pow2Add(24, 4);
    assert Pow2(28) == 0x1000_0000;
    Pow2Add(28, 2);
    Pow2Add(30, 1);
  }

  /** `2u32.pow(k)` does not overflow for k up to 31. */
  lemma Pow2Fits(k: nat)
    requires k <= 31
    ensures Pow2(k) < 0x1_0000_0000
  {
    Pow2Grows(k, 31);
    Pow2Of31();
  }

  /**
    How many calls `retry` makes once calls 1 to `from` have failed: it stops at
    the first success, or after call `maxAttempts + 1` whatever it returned.
   */
  function RetryCalls<T>(f: nat -> Result<T>, maxAttempts: nat, from: nat): (n: nat)
    requires from <= maxAttempts
    ensures from < n <= maxAttempts + 1
    ensures f(n - 1).Ok? || n == maxAttempts + 1
    ensures forall k :: from <= k < n - 1 ==> f(k).Err?
    decreases maxAttempts - from
  {
    if f(from).Ok? || from == maxAttempts then from + 1 else RetryCalls(f, maxAttempts, from + 1)
  }

  /**
    What `retry(f, maxAttempts)` returns: the reply of its last call, which is
    the first success, or the failure of call `maxAttempts + 1`.
   */
  function RetryResult<T>(f: nat -> Result<T>, maxAttempts: nat): (r: Result<T>)
    ensures exists k: nat ::
      && k <= maxAttempts && r == f(k) && (r.Ok? || k == maxAttempts)
      && forall j :: 0 <= j < k ==> f(j).Err?
  {
    var n := RetryCalls(f, maxAttempts, 0);
    f(n - 1)
  }

  /** `retry` fails exactly when every one of its `maxAttempts + 1` calls fails. */
  lemma RetryFailsIffAllFail<T>(f: nat -> Result<T>, maxAttempts: nat)
    ensures RetryResult(f, maxAttempts).Err? <==> forall k :: 0 <= k <= maxAttempts ==> f(k).Err?
  {
    var n := RetryCalls(f, maxAttempts, 0);
    if RetryResult(f, maxAttempts).Err? {
      assert n == maxAttempts + 1;
      forall k | 0 <= k <= maxAttempts ensures f(k).Err? {
        if k < n - 1 {
        } else {
          assert k == n - 1;
        }
      }
    }
  }

  /**
    `retry(f, max_attempts)`. Returns the result, the number of calls made and,
    as a ghost record of `thread::sleep`, the seconds slept between them.
   */
  method Retry<T>(f: nat -> Result<T>, maxAttempts: u32) returns (r: Result<T>, calls: nat, ghost sleeps: seq<nat>)
    ensures 1 <= calls <= maxAttempts + 1
    ensures forall k :: 0 <= k < calls - 1 ==> f(k).Err?
    ensures r == f(calls - 1)
    ensures r.Err? ==> calls == maxAttempts + 1
    ensures |sleeps| == calls - 1
    ensures forall k :: 0 <= k < |sleeps| ==> sleeps[k] == Pow2(k + 1)
    ensures calls == RetryCalls(f, maxAttempts, 0)
  {
    var attempt: nat := 1;
    sleeps := [];
    while true
      invariant 1 <= attempt <= maxAttempts + 1
      invariant forall k :: 0 <= k < attempt - 1 ==> f(k).Err?
      invariant |sleeps| == attempt - 1
      invariant forall k :: 0 <= k < |sleeps| ==> sleeps[k] == Pow2(k + 1)
      invariant RetryCalls(f, maxAttempts, attempt - 1) == RetryCalls(f, maxAttempts, 0)
      decreases maxAttempts + 1 - attempt
    {
      r := f(attempt - 1);
      if r.Ok? {
        calls := attempt;
        return;
      }
      if attempt > maxAttempts {
        calls := attempt;
        return;
      }
      sleeps := sleeps + [Pow2(attempt)];
      attempt := attempt + 1;
    }
  }
}
