/** When a failed job runs again: `calculate_retry_delay_ms` and `next_failure_state`. */
module RetryPolicy {
  import opened Options

  const I32_MAX := 0x7FFF_FFFF
  const BASE_DELAY_MS := 5_000
  const MAX_DELAY_MS := 60_000

  function Pow2(n: nat): (p: int)
    ensures p >= 1
  {
    if n == 0 then 1 else 2 * Pow2(n - 1)
  }

  /** The delay, or `None` where the 32-bit arithmetic overflows. */
  function RetryDelayMs(attempt: int): Option<int> {
    var normalized := if attempt < 1 then 1 else attempt;
    var power := Pow2(normalized - 1);
    if power > I32_MAX || BASE_DELAY_MS * power > I32_MAX then None
    else Some(if BASE_DELAY_MS * power < MAX_DELAY_MS then BASE_DELAY_MS * power else MAX_DELAY_MS)
  }

  datatype FailureState = Retry(delayMs: Option<int>) | Poison

  function NextFailureState(attempt: int, maxAttempts: int): FailureState {
    if attempt >= maxAttempts then Poison else Retry(RetryDelayMs(attempt))
  }

  lemma {:induction false} Pow2Grows(a: nat, b: nat)
    requires a <= b
    ensures Pow2(a) <= Pow2(b) && (a < b ==> 2 * Pow2(a) <= Pow2(b))
    decreases b
  {
    if a < b {
      Pow2Grows(a, b - 1);
    }
  }

  lemma Pow2Of18()
    ensures Pow2(18) == 262_144
  {
    assert Pow2(6) == 64;
    assert Pow2(12) == 4_096;
  }

  /** The delay overflows 32 bits exactly from the twentieth attempt on. */
  lemma DelayOverflowsIff(attempt: int)
    ensures RetryDelayMs(attempt).None? <==> attempt >= 20
  {
    Pow2Of18();
    var n := if attempt < 1 then 0 else attempt - 1;
    if n <= 18 {
      Pow2Grows(n, 18);
    } else {
      Pow2Grows(18, n);
    }
  }

  /** Where it does not overflow, the delay is between the two limits and never decreases. */
  lemma DelayIsMonotone(a: int, b: int)
    requires a <= b && RetryDelayMs(b).Some?
    ensures RetryDelayMs(a).Some?
    ensures BASE_DELAY_MS <= RetryDelayMs(a).value <= RetryDelayMs(b).value <= MAX_DELAY_MS
  {
    Pow2Grows(if a < 1 then 0 else a - 1, if b < 1 then 0 else b - 1);
  }

  /** The first delay is five seconds, and each one twice the one before, up to a minute. */
  lemma DelayDoubles(attempt: int)
    requires 1 <= attempt < 19
    ensures RetryDelayMs(1) == Some(5_000)
    ensures RetryDelayMs(attempt).Some? && RetryDelayMs(attempt + 1).Some?
    ensures var d, next := RetryDelayMs(attempt).value, RetryDelayMs(attempt + 1).value;
            next == if 2 * d < 60_000 then 2 * d else 60_000
  {
    assert Pow2(0) == 1 && Pow2(attempt) == 2 * Pow2(attempt - 1);
    DelayOverflowsIff(attempt);
    DelayOverflowsIff(attempt + 1);
  }

  /** A failure never overflows exactly when no attempt number from 20 on is below the limit;
      so never, whatever the attempt number, for a limit of at most 20. */
  lemma FailureOverflowsIff(attempt: int, maxAttempts: int)
    ensures NextFailureState(attempt, maxAttempts) == Retry(None) <==> 20 <= attempt < maxAttempts
    ensures maxAttempts <= 20 ==> NextFailureState(attempt, maxAttempts) != Retry(None)
  {
    DelayOverflowsIff(attempt);
  }
}
