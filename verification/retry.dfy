/** The counted retry loop that appears three times in the extension:
    `callOpenAI` in scripts/sidepanel.js and scripts/background.js, and
    `sendMessageWithRetry` in scripts/content.js. One loop, parameterised by
    the backoff policy; attempts are an input, sleeps are returned. */
module Retry {
  import opened Wrappers
  import opened JsText

  /** What one attempt produced: a value, or an error with its `message`. */
  datatype Attempt<T> = Ok(value: T) | Err(message: string)

  /** When the loop sleeps after a failed attempt that is not the last one. */
  datatype Backoff =
    | OnRateLimit(unit: nat)  // `unit × (i + 1)` ms, only when the message contains "rate limit"
    | Always(unit: nat)       // `unit × (i + 1)` ms after every failure

  /** scripts/sidepanel.js and scripts/background.js: 2000 ms steps on rate limiting. */
  const ApiBackoff: Backoff := OnRateLimit(2000)

  /** scripts/content.js: 1000 ms steps after every failure. */
  const MessagingBackoff: Backoff := Always(1000)

  const RateLimitMarker: string := "rate limit"

  /** The sleep after failed attempt `i` (counted from 0) with `message`. */
  function WaitAfter(policy: Backoff, i: nat, message: string): (w: Option<nat>)
    ensures w.Some? ==> w.value == policy.unit * (i + 1)
    ensures policy.Always? ==> w.Some?
    ensures policy.OnRateLimit? ==> (w.Some? <==> Contains(message, RateLimitMarker))
  {
    match policy
    case Always(unit) => Some(unit * (i + 1))
    case OnRateLimit(unit) => if Contains(message, RateLimitMarker) then Some(unit * (i + 1)) else None
  }

  /** How the loop ended: a `return`, a rethrown error, or falling off the end
      of the loop, which an `async` function reports as `undefined`. */
  datatype Outcome<T> = Returned(value: T) | Threw(message: string) | FellThrough

  /** The loop's outcome, how many attempts it made, and the sleeps in order. */
  datatype Run<T> = Run(outcome: Outcome<T>, attempts: nat, waits: seq<nat>)

  /** The sleeps owed for the failed attempts `lo .. hi - 1`, in order. */
  ghost function Waits<T>(attempt: nat -> Attempt<T>, policy: Backoff, lo: nat, hi: nat): seq<nat>
    decreases hi - lo
  {
    if hi <= lo then []
    else
      (match attempt(lo)
       case Ok(_) => []
       case Err(m) => match WaitAfter(policy, lo, m) case Some(w) => [w] case None => [])
      + Waits(attempt, policy, lo + 1, hi)
  }

  lemma {:induction false} WaitsSnoc<T>(attempt: nat -> Attempt<T>, policy: Backoff, lo: nat, hi: nat)
    requires lo <= hi
    ensures Waits(attempt, policy, lo, hi + 1)
         == Waits(attempt, policy, lo, hi)
            + (match attempt(hi)
               case Ok(_) => []
               case Err(m) => match WaitAfter(policy, hi, m) case Some(w) => [w] case None => [])
    decreases hi - lo
  {
    if lo < hi {
      WaitsSnoc(attempt, policy, lo + 1, hi);
    }
  }

  /** The loop from attempt `i` on, for `retries` attempts in all:
      `for (let i = 0; i < retries; i++) { try { return await … } catch (error)
      { if (i === retries - 1) throw error; …sleep… } }`.
      It stops at the first success, rethrows the last attempt's error
      unchanged, and sleeps only between attempts, never after the last one. */
  function RetryFrom<T>(attempt: nat -> Attempt<T>, retries: int, policy: Backoff, i: nat): (r: Run<T>)
    ensures i >= retries ==> r == Run(FellThrough, 0, [])
    ensures i < retries ==> 1 <= r.attempts <= retries - i
    ensures i < retries ==> forall j :: i <= j < i + r.attempts - 1 ==> attempt(j).Err?
    ensures i < retries ==> r.waits == Waits(attempt, policy, i, i + r.attempts - 1)
    ensures r.outcome.Returned? ==> attempt(i + r.attempts - 1) == Ok(r.outcome.value)
    ensures r.outcome.Threw? ==> r.attempts == retries - i && attempt(retries - 1) == Err(r.outcome.message)
    ensures i < retries ==> !r.outcome.FellThrough?
    decreases retries - i
  {
    if i >= retries then Run(FellThrough, 0, [])
    else
      match attempt(i)
      case Ok(v) => Run(Returned(v), 1, [])
      case Err(m) =>
        if i == retries - 1 then Run(Threw(m), 1, [])
        else
          var rest := RetryFrom(attempt, retries, policy, i + 1);
          var w := WaitAfter(policy, i, m);
          Run(rest.outcome, rest.attempts + 1, (if w.Some? then [w.value] else []) + rest.waits)
  }

  /** The whole loop, from attempt 0. */
  function Loop<T>(attempt: nat -> Attempt<T>, retries: int, policy: Backoff): Run<T> {
    RetryFrom(attempt, retries, policy, 0)
  }

  /** The loop as the source writes it, with a counter and early exits; it
      computes exactly what `Loop` describes. */
  method RunRetry<T>(attempt: nat -> Attempt<T>, retries: int, policy: Backoff)
    returns (outcome: Outcome<T>, attempts: nat, waits: seq<nat>)
    ensures Run(outcome, attempts, waits) == Loop(attempt, retries, policy)
  {
    waits := [];
    var i: nat := 0;
    while i < retries
      invariant 0 < i ==> i < retries
      invariant forall j :: 0 <= j < i ==> attempt(j).Err?
      invariant waits == Waits(attempt, policy, 0, i)
      decreases retries - i
    {
      match attempt(i)
      case Ok(v) =>
        outcome, attempts := Returned(v), i + 1;
        SameRun(attempt, retries, policy, outcome, attempts, waits);
        return;
      case Err(m) =>
        if i == retries - 1 {
          outcome, attempts := Threw(m), i + 1;
          SameRun(attempt, retries, policy, outcome, attempts, waits);
          return;
        }
        var w := WaitAfter(policy, i, m);
        WaitsSnoc(attempt, policy, 0, i);
        if w.Some? {
          waits := waits + [w.value];
        }
        i := i + 1;
    }
    outcome, attempts, waits := FellThrough, 0, [];
  }

  /** A run that ends the way the loop does, after failures only, is the loop's run. */
  lemma SameRun<T>(attempt: nat -> Attempt<T>, retries: int, policy: Backoff, outcome: Outcome<T>, attempts: nat, waits: seq<nat>)
    requires 1 <= attempts <= retries
    requires forall j :: 0 <= j < attempts - 1 ==> attempt(j).Err?
    requires waits == Waits(attempt, policy, 0, attempts - 1)
    requires outcome.Returned? ==> attempt(attempts - 1) == Ok(outcome.value)
    requires outcome.Threw? ==> attempts == retries && attempt(attempts - 1) == Err(outcome.message)
    requires !outcome.FellThrough?
    ensures Run(outcome, attempts, waits) == Loop(attempt, retries, policy)
  {
  }

  /** The loop returns exactly when some attempt succeeds before every earlier
      one failed, and then it returns that attempt's value. */
  lemma RetryReturnsFirstSuccess<T>(attempt: nat -> Attempt<T>, retries: int, policy: Backoff, k: nat)
    requires k < retries
    requires attempt(k).Ok? && forall j :: 0 <= j < k ==> attempt(j).Err?
    ensures Loop(attempt, retries, policy).outcome == Returned(attempt(k).value)
    ensures Loop(attempt, retries, policy).attempts == k + 1
  {
  }

  /** When every one of the `retries` attempts fails, the last error is
      rethrown unchanged; with no attempts allowed the loop falls through. */
  lemma RetryRethrowsLastError<T>(attempt: nat -> Attempt<T>, retries: int, policy: Backoff)
    requires forall j :: 0 <= j < retries ==> attempt(j).Err?
    ensures retries >= 1 ==> Loop(attempt, retries, policy) == Run(Threw(attempt(retries - 1).message), retries, Waits(attempt, policy, 0, retries - 1))
    ensures retries <= 0 ==> Loop(attempt, retries, policy) == Run(FellThrough, 0, [])
  {
  }

  /** Under the messaging policy the sleeps are 1×, 2×, … the unit, one per
      failed attempt before the last. */
  lemma {:induction false} AlwaysWaitsAreLinear<T>(attempt: nat -> Attempt<T>, unit: nat, lo: nat, hi: nat)
    requires lo <= hi
    requires forall j :: lo <= j < hi ==> attempt(j).Err?
    ensures Waits(attempt, Always(unit), lo, hi) == seq(hi - lo, k requires 0 <= k < hi - lo => unit * (lo + k + 1))
    decreases hi - lo
  {
    if lo < hi {
      AlwaysWaitsAreLinear(attempt, unit, lo + 1, hi);
      var tail := seq(hi - (lo + 1), k requires 0 <= k < hi - (lo + 1) => unit * (lo + 1 + k + 1));
      var whole := seq(hi - lo, k requires 0 <= k < hi - lo => unit * (lo + k + 1));
      assert whole == [unit * (lo + 1)] + tail;
    }
  }

  /** Under the API policy, failures whose message does not mention rate
      limiting are retried at once. */
  lemma {:induction false} NoRateLimitNoWaits<T>(attempt: nat -> Attempt<T>, unit: nat, lo: nat, hi: nat)
    requires forall j :: lo <= j < hi ==> attempt(j).Err? && !Contains(attempt(j).message, RateLimitMarker)
    ensures Waits(attempt, OnRateLimit(unit), lo, hi) == []
    decreases hi - lo
  {
    if lo < hi {
      NoRateLimitNoWaits(attempt, unit, lo + 1, hi);
    }
  }

  /** Two rate-limit failures and then a success: the answer comes back after
      sleeps of 2000 ms and 4000 ms. */
  lemma ApiRateLimitExample()
    ensures var attempt := (j: nat) => if j < 2 then Err("rate limit exceeded") else Ok("answer");
            Loop(attempt, 3, ApiBackoff) == Run(Returned("answer"), 3, [2000, 4000])
  {
    var attempt := (j: nat) => if j < 2 then Err("rate limit exceeded") else Ok("answer");
    assert OccursAt("rate limit exceeded", 0, RateLimitMarker);
    RetryReturnsFirstSuccess(attempt, 3, ApiBackoff, 2);
  }

  /** Three failed deliveries: sleeps of 1000 ms and 2000 ms, none after the
      third, and the third error is rethrown. */
  lemma MessagingExample()
    ensures var attempt: nat -> Attempt<string> := (j: nat) => if j < 2 then Err("port closed") else Err("no receiver");
            Loop(attempt, 3, MessagingBackoff) == Run(Threw("no receiver"), 3, [1000, 2000])
  {
  }
}
