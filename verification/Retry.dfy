/**
 * The bounded retry loop around a SERIALIZABLE transaction. An attempt that
 * throws has been rolled back; other writers may change the store between
 * attempts. Waits are jittered: a random fraction of a capped exponential.
 */
module Retry {
  import opened Wrappers

  datatype Attempt<+S, +T, +E> =
    | Returned(store: S, value: T)
    | Conflict(error: E) // write conflict or deadlock: worth another try
    | Failed(error: E)   // anything else: rethrown at once

  function Pow2(n: nat): nat {
    if n == 0 then 1 else 2 * Pow2(n - 1)
  }

  function Min(x: int, y: int): int {
    if x < y then x else y
  }

  /** The longest wait after a failed attempt, in milliseconds. */
  function Base(attempt: nat): nat {
    Min(8 * Pow2(attempt), 150)
  }

  /** The longest total wait of a loop that makes the given number of attempts. */
  function Budget(attempts: nat): nat {
    if attempts < 2 then 0 else Budget(attempts - 1) + Base(attempts - 2)
  }

  /** The waits after so many failed attempts: each its random fraction of eight milliseconds doubled, 150 at most. */
  function Waits(jitter: nat -> real, failures: nat): real {
    if failures == 0 then 0.0
    else
      var k := failures - 1;
      Waits(jitter, k) + jitter(k) * (if 8 * Pow2(k) < 150 then 8 * Pow2(k) else 150) as real
  }

  /** The store before an attempt, had the operation never run: what others left. */
  function Others<S>(store: S, writers: (nat, S) -> S, n: nat): S {
    if n == 0 then store else writers(n - 1, Others(store, writers, n - 1))
  }

  /** How a given attempt comes out, when every earlier one left no trace. */
  function Tried<S, T, E>(store: S, operation: (nat, S) -> Attempt<S, T, E>, writers: (nat, S) -> S, k: nat)
    : Attempt<S, T, E>
  {
    operation(k, Others(store, writers, k + 1))
  }

  /**
   * Stops within maxAttempts. On success the store is what the one successful
   * attempt made of what others had left; on a rethrow it is what others left,
   * untouched. Every earlier attempt was a conflict. The error is absent only
   * when no attempt was allowed at all.
   */
  method WithSerializableRetry<S, T, E>(
      store: S, operation: (nat, S) -> Attempt<S, T, E>, writers: (nat, S) -> S,
      jitter: nat -> real, maxAttempts: nat)
    returns (after: S, result: Result<T, Option<E>>, attempts: nat, waited: real)
    requires forall k :: 0.0 <= jitter(k) < 1.0
    ensures attempts <= maxAttempts && (maxAttempts > 0 ==> attempts > 0)
    ensures forall k | 0 <= k < attempts - 1 :: Tried(store, operation, writers, k).Conflict?
    ensures result.Ok? ==>
              attempts > 0 && Tried(store, operation, writers, attempts - 1) == Returned(after, result.value)
    ensures result.Err? ==> after == Others(store, writers, attempts)
    ensures result.Err? && attempts == 0 ==> result.error == None
    ensures result.Err? && attempts > 0 ==>
              (var last := Tried(store, operation, writers, attempts - 1);
               && !last.Returned?
               && result.error == Some(last.error)
               && (last.Conflict? ==> attempts == maxAttempts))
    ensures waited == Waits(jitter, if attempts == 0 then 0 else attempts - 1)
    ensures 0.0 <= waited <= Budget(attempts) as real
  {
    after, attempts, waited := store, 0, 0.0;
    var lastError: Option<E> := None;
    while attempts < maxAttempts
      invariant attempts <= maxAttempts
      invariant after == Others(store, writers, attempts)
      invariant forall k | 0 <= k < attempts :: Tried(store, operation, writers, k).Conflict?
      invariant if attempts == 0 then lastError == None
                else lastError == Some(Tried(store, operation, writers, attempts - 1).error)
      invariant waited == Waits(jitter, if 0 < attempts == maxAttempts then attempts - 1 else attempts)
      invariant 0.0 <= waited <= Budget(if attempts < maxAttempts then attempts + 1 else attempts) as real
    {
      var before := writers(attempts, after);
      var outcome := operation(attempts, before);
      attempts := attempts + 1;
      assert outcome == Tried(store, operation, writers, attempts - 1);
      if outcome.Returned? {
        return outcome.store, Ok(outcome.value), attempts, waited;
      }
      after := before;
      if outcome.Failed? {
        return after, Err(Some(outcome.error)), attempts, waited;
      }
      lastError := Some(outcome.error);
      if attempts < maxAttempts {
        waited := Sleep(jitter, attempts - 1, waited);
      }
    }
    result := Err(lastError);
  }

  /** The wait after a failed attempt, added to those before it. */
  method Sleep(jitter: nat -> real, attempt: nat, before: real) returns (waited: real)
    requires forall k :: 0.0 <= jitter(k) < 1.0
    requires before == Waits(jitter, attempt)
    ensures waited == Waits(jitter, attempt + 1)
    ensures before <= waited <= before + Base(attempt) as real
  {
    var base := Min(8 * Pow2(attempt), 150);
    FractionBounds(jitter(attempt), base);
    waited := before + jitter(attempt) * base as real;
  }

  lemma FractionBounds(f: real, n: nat)
    requires 0.0 <= f < 1.0
    ensures 0.0 <= f * n as real <= n as real
  {
    var limit := n as real;
    ProductNonNegative(f, limit);
    ProductNonNegative(1.0 - f, limit);
    assert (1.0 - f) * limit == limit - f * limit;
  }

  lemma ProductNonNegative(x: real, y: real)
    requires x >= 0.0 && y >= 0.0
    ensures x * y >= 0.0
  {
  }

  /** However many attempts: bounded by the exponential and by the cap. */
  lemma {:induction false} BudgetBounds(attempts: nat)
    requires attempts >= 1
    ensures Budget(attempts) <= 8 * (Pow2(attempts - 1) - 1)
    ensures Budget(attempts) <= 150 * (attempts - 1)
  {
    if attempts > 1 {
      BudgetBounds(attempts - 1);
    }
  }

  /** The eight attempts of a card authorization wait 548 ms at the very most. */
  lemma BudgetOfEight()
    ensures Budget(8) == 548
  {
    assert Pow2(3) == 8 && Pow2(6) == 64;
    assert Budget(5) == 120;
  }
}
