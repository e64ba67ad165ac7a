/**
 * The exponential-backoff retry loop of the data-access layer
 * (`execute_with_retry`) and the way database commands feed it.
 * The operation is modelled by what its k-th call returns; the sleeps are
 * returned as the list of delays, in milliseconds, that the loop waited.
 */
module Retry {
  import opened Text

  datatype RetryConfig = RetryConfig(maxAttempts: nat, baseDelayMs: nat, maxDelayMs: nat)

  /** `RetryConfig::default()`. */
  const DEFAULT_CONFIG: RetryConfig := RetryConfig(5, 100, 5000)

  const MAX_RETRIES_EXCEEDED: string := "Max retries exceeded"

  /** What one call of the operation produced. */
  datatype Outcome<T> = Success(value: T) | Failure(message: string)

  /** Lock contention, recognised by a substring of the lower-cased message. */
  predicate IsRetryable(message: string) {
    var m := Lower(message);
    Contains(m, "database is locked") || Contains(m, "sqlite_busy")
  }

  predicate IsContention<T>(o: Outcome<T>) {
    o.Failure? && IsRetryable(o.message)
  }

  function Pow2(k: nat): (r: nat)
    ensures r >= 1
  {
    if k == 0 then 1 else 2 * Pow2(k - 1)
  }

  /** The sleep after 0-based attempt `k`: `min(base * 2^k, max)`. */
  function Delay(config: RetryConfig, k: nat): nat {
    Min(config.baseDelayMs * Pow2(k), config.maxDelayMs)
  }

  /**
   * Calls `op` at most `config.maxAttempts` times. A success or an error that is
   * not lock contention ends the loop at once; contention sleeps `Delay(k)` and
   * tries again while attempts remain.
   */
  method ExecuteWithRetry<T>(config: RetryConfig, op: nat -> Outcome<T>)
    returns (r: Outcome<T>, calls: nat, sleeps: seq<nat>)
    ensures calls <= config.maxAttempts
    ensures calls == 0 <==> config.maxAttempts == 0
    ensures calls == 0 ==> r == Failure(MAX_RETRIES_EXCEEDED) && sleeps == []
    ensures calls > 0 ==> r == op(calls - 1) && |sleeps| == calls - 1
    ensures forall k :: 0 <= k < |sleeps| ==> sleeps[k] == Delay(config, k)
    ensures forall k :: 0 <= k < calls - 1 ==> IsContention(op(k))
    ensures 0 < calls < config.maxAttempts ==> !IsContention(op(calls - 1))
  {
    calls, sleeps := 0, [];
    var lastError: string := MAX_RETRIES_EXCEEDED;
    var attempt: nat := 0;
    while attempt < config.maxAttempts
      invariant attempt <= config.maxAttempts
      invariant calls == attempt
      invariant |sleeps| == if attempt == config.maxAttempts && attempt > 0 then attempt - 1 else attempt
      invariant forall k :: 0 <= k < |sleeps| ==> sleeps[k] == Delay(config, k)
      invariant forall k :: 0 <= k < attempt ==> IsContention(op(k))
      invariant attempt == 0 ==> lastError == MAX_RETRIES_EXCEEDED
      invariant attempt > 0 ==> lastError == op(attempt - 1).message
    {
      var outcome := op(attempt);
      calls := calls + 1;
      if outcome.Success? {
        return outcome, calls, sleeps;
      }
      if !IsRetryable(outcome.message) {
        return outcome, calls, sleeps;
      }
      lastError := outcome.message;
      if attempt < config.maxAttempts - 1 {
        sleeps := sleeps + [Delay(config, attempt)];
      }
      attempt := attempt + 1;
    }
    r := Failure(lastError);
  }

  /** The delays grow with the attempt number and never exceed the cap. */
  lemma {:induction false} DelayMonotone(config: RetryConfig, j: nat, k: nat)
    requires j <= k
    ensures Delay(config, j) <= Delay(config, k) <= config.maxDelayMs
  {
    Pow2Monotone(j, k);
    assert config.baseDelayMs * Pow2(j) <= config.baseDelayMs * Pow2(k) by {
      MulMonotone(config.baseDelayMs, Pow2(j), Pow2(k));
    }
  }

  lemma {:induction false} Pow2Monotone(j: nat, k: nat)
    requires j <= k
    ensures Pow2(j) <= Pow2(k)
    decreases k
  {
    if j < k {
      Pow2Monotone(j, k - 1);
    }
  }

  lemma MulMonotone(a: nat, x: nat, y: nat)
    requires x <= y
    ensures a * x <= a * y
  {
  }

  /** With the default configuration the four possible sleeps are 100, 200, 400 and 800 ms. */
  lemma DefaultDelays()
    ensures [Delay(DEFAULT_CONFIG, 0), Delay(DEFAULT_CONFIG, 1), Delay(DEFAULT_CONFIG, 2), Delay(DEFAULT_CONFIG, 3)]
            == [100, 200, 400, 800]
    ensures DEFAULT_CONFIG.maxAttempts - 1 == 4
  {
    assert Pow2(1) == 2 && Pow2(2) == 4 && Pow2(3) == 8;
  }

  lemma LockedMessageRetryable()
    ensures IsRetryable("database is locked")
  {
    var m := Lower("database is locked");
    assert m == "database is locked";
    assert StartsAt(m, 0, "database is locked");
  }

  lemma BusyMessageRetryable()
    ensures IsRetryable("Error: SQLITE_BUSY")
  {
    var m := Lower("Error: SQLITE_BUSY");
    assert m == "error: sqlite_busy";
    assert m[7..18] == "sqlite_busy";
    assert StartsAt(m, 7, "sqlite_busy");
  }

  lemma IoErrorNotRetryable()
    ensures !IsRetryable("disk I/O error")
  {
    var m := Lower("disk I/O error");
    assert m == "disk i/o error";
    assert m[0] == 'd' && m[1] == 'i' && m[2] == 's' && m[3] == 'k';
  }

  /**
   * One attempt of a database command (`db_command_with_retry`): a connection
   * is obtained inside the retried closure, so its error is an outcome of the
   * attempt like the command's own.
   */
  function Attempt<C, T>(connect: nat -> Outcome<C>, work: (nat, C) -> Outcome<T>, k: nat): (o: Outcome<T>)
    ensures connect(k).Failure? ==> o == Failure(connect(k).message)
    ensures connect(k).Success? ==> o == work(k, connect(k).value)
  {
    match connect(k)
    case Failure(m) => Failure(m)
    case Success(c) => work(k, c)
  }

  /** `db_command_with_retry`: the default configuration around `Attempt`. */
  method DbCommandWithRetry<C, T>(connect: nat -> Outcome<C>, work: (nat, C) -> Outcome<T>)
    returns (r: Outcome<T>, calls: nat, sleeps: seq<nat>)
    ensures 1 <= calls <= 5 && |sleeps| == calls - 1
    ensures forall k :: 0 <= k < calls - 1 ==>
      (connect(k).Failure? && IsRetryable(connect(k).message))
      || (connect(k).Success? && IsContention(work(k, connect(k).value)))
    ensures r == Attempt(connect, work, calls - 1)
    ensures connect(calls - 1).Failure? ==> r == Failure(connect(calls - 1).message)
    ensures connect(calls - 1).Success? ==> r == work(calls - 1, connect(calls - 1).value)
    ensures forall k :: 0 <= k < |sleeps| ==> sleeps[k] == Delay(DEFAULT_CONFIG, k)
    ensures calls < 5 ==> !IsContention(Attempt(connect, work, calls - 1))
    ensures calls < 5 && connect(calls - 1).Failure? ==> !IsRetryable(connect(calls - 1).message)
  {
    var op := (k: nat) => Attempt(connect, work, k);
    r, calls, sleeps := ExecuteWithRetry(DEFAULT_CONFIG, op);
    forall k | 0 <= k < calls - 1
      ensures (connect(k).Failure? && IsRetryable(connect(k).message))
              || (connect(k).Success? && IsContention(work(k, connect(k).value)))
    {
      assert IsContention(op(k));
    }
    assert r == op(calls - 1);
  }
}
