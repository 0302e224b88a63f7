/** The reconnect policy of one device connection: delay validation and
    exponential backoff. Every `TimeSpan` is a whole number of milliseconds. */
module Reconnect {
  import opened Common

  /** The delay used when neither the requested nor the initial delay is positive (10 s). */
  const FallbackDelayMs: int := 10_000

  datatype ReconnectSettings = ReconnectSettings(initialDelay: int, maxDelay: int, useExponentialBackoff: bool)
  {
    /** A delay the policy may hand out: positive, and within `maxDelay` when a cap is set. */
    predicate IsValidDelay(d: int) {
      d > 0 && (maxDelay > 0 ==> d <= maxDelay)
    }

    /** The delay a non-positive request is replaced by. */
    function Replacement(): (d: int)
      ensures d > 0
      ensures initialDelay > 0 ==> d == initialDelay
      ensures initialDelay <= 0 ==> d == FallbackDelayMs
    {
      if initialDelay <= 0 then FallbackDelayMs else initialDelay
    }

    /** `EnsureValidDelay(current)`: a missing delay starts from `initialDelay`, a non-positive one is
        replaced, and the candidate is then capped at `maxDelay` when that is positive. */
    function EnsureValidDelay(current: Option<int>): (r: int)
      ensures IsValidDelay(r)
      ensures var d := current.GetOr(initialDelay);
              var candidate := if d > 0 then d else Replacement();
              (IsValidDelay(candidate) ==> r == candidate) && (!IsValidDelay(candidate) ==> r == maxDelay)
    {
      var delay := current.GetOr(initialDelay);
      var delay := if delay <= 0 then Replacement() else delay;
      if maxDelay > 0 && delay > maxDelay then maxDelay else delay
    }

    /** `NextDelay(previous)`: without backoff the previous delay is only validated; with backoff it
        is doubled (or restarted from `initialDelay` when not positive) and then validated. */
    function NextDelay(previous: int): (r: int)
      ensures IsValidDelay(r)
      ensures !useExponentialBackoff ==> r == EnsureValidDelay(Some(previous))
      ensures useExponentialBackoff && previous <= 0 ==> r == EnsureValidDelay(Some(initialDelay))
      ensures useExponentialBackoff && previous > 0 ==> r == EnsureValidDelay(Some(2 * previous))
    {
      if !useExponentialBackoff then EnsureValidDelay(Some(previous))
      else
        var next := if previous <= 0 then initialDelay else previous * 2;
        EnsureValidDelay(Some(next))
    }
  }

  /** With no current delay the policy starts from its initial delay. */
  lemma MissingDelayStartsFromInitial(s: ReconnectSettings)
    ensures s.EnsureValidDelay(None) == s.EnsureValidDelay(Some(s.initialDelay))
  {
  }

  /** A delay the policy already accepts is returned unchanged, so validation is idempotent. */
  lemma EnsureValidDelayIdempotent(s: ReconnectSettings, current: Option<int>)
    ensures s.IsValidDelay(s.EnsureValidDelay(current))
    ensures s.EnsureValidDelay(Some(s.EnsureValidDelay(current))) == s.EnsureValidDelay(current)
  {
  }

  /** With backoff, the next delay never falls below a valid previous one. */
  lemma NextDelayNeverDecreases(s: ReconnectSettings, previous: int)
    requires s.useExponentialBackoff && s.IsValidDelay(previous)
    ensures s.NextDelay(previous) >= previous
  {
  }

  /** With backoff and a cap, the cap is a fixed point of `NextDelay`. */
  lemma MaxDelayIsFixedPoint(s: ReconnectSettings)
    requires s.useExponentialBackoff && s.maxDelay > 0
    ensures s.NextDelay(s.maxDelay) == s.maxDelay
  {
  }

  function Pow2(k: nat): (p: nat)
    ensures p >= 1
  {
    if k == 0 then 1 else 2 * Pow2(k - 1)
  }

  /** The delay after `k` backoff steps from `d`. */
  function Backoff(s: ReconnectSettings, d: int, k: nat): int {
    if k == 0 then d else s.NextDelay(Backoff(s, d, k - 1))
  }

  function Min(a: int, b: int): int {
    if a <= b then a else b
  }

  /** With backoff and a cap, `k` steps from a valid delay `d` give `min(maxDelay, d * 2^k)`:
      delays double until they reach the cap and then stay there. */
  lemma {:induction false} BackoffDoublesUpToCap(s: ReconnectSettings, d: int, k: nat)
    requires s.useExponentialBackoff && s.maxDelay > 0 && s.IsValidDelay(d)
    ensures Backoff(s, d, k) == Min(s.maxDelay, d * Pow2(k))
  {
    if k > 0 {
      BackoffDoublesUpToCap(s, d, k - 1);
      var prev := Backoff(s, d, k - 1);
      assert d * Pow2(k) == 2 * (d * Pow2(k - 1));
      assert prev > 0;
    }
  }
}
