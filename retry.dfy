/**
 * The Polly policy both the service and the script build:
 * `Policy.Handle<FlurlHttpException>().WaitAndRetryAsync(3, n => 3^n seconds)`,
 * and the status test `IsTransientError` that the script declares.
 */
module Retry {
  import opened Wrappers

  /** What an attempt can throw: a `FlurlHttpException` (with its HTTP status, if any) or anything else. */
  datatype Fault = FlurlHttp(status: Option<int>) | OtherException

  /** The outcome of one call: the value it returned or the exception it threw. */
  datatype Call<+T> = Returned(value: T) | Threw(fault: Fault)

  /** The policy handles exactly `FlurlHttpException`. */
  predicate Handled<T>(c: Call<T>)
  {
    c.Threw? && c.fault.FlurlHttp?
  }

  const RetryCount: nat := 3
  const BackoffBase: nat := 3

  function Pow(b: nat, n: nat): nat
  {
    if n == 0 then 1 else b * Pow(b, n - 1)
  }

  /** Seconds waited before retry number `retryAttempt` (1-based): `Math.Pow(3, retryAttempt)`. */
  function Delay(retryAttempt: nat): nat
  {
    Pow(BackoffBase, retryAttempt)
  }

  /** The three waits are 3, 9 and 27 seconds, each three times the one before. */
  lemma {:induction false} DelaySchedule(n: nat)
    requires 1 <= n < RetryCount
    ensures Delay(1) == 3 && Delay(2) == 9 && Delay(3) == 27
    ensures Delay(n + 1) == 3 * Delay(n)
  {
  }

  /** `IsTransientError`: the status is known and is 408, 502, 503 or 504. */
  predicate IsTransientError(status: Option<int>)
  {
    var worthRetrying := [408, 502, 503, 504];
    status.Some? && status.value in worthRetrying
  }

  lemma TransientStatuses(status: Option<int>)
    ensures IsTransientError(status) <==>
      status == Some(408) || status == Some(502) || status == Some(503) || status == Some(504)
  {
  }

  /** What running an action under the policy produced, and the waits taken between attempts. */
  datatype Run<+T> = Run(outcome: Call<T>, waits: seq<nat>)

  /**
   * Attempt `n` of the action and, while it throws a `FlurlHttpException`
   * and retries remain, wait and try again. `get(url, k)` is what the
   * remote end answers to attempt `k` (counted from 0) of one policy run.
   */
  function Attempts<T>(get: (string, nat) -> Call<T>, url: string, n: nat): Run<T>
    requires n <= RetryCount
    decreases RetryCount - n
  {
    var attempt := get(url, n);
    if Handled(attempt) && n < RetryCount then
      var rest := Attempts(get, url, n + 1);
      Run(rest.outcome, [Delay(n + 1)] + rest.waits)
    else
      Run(attempt, [])
  }

  /**
   * The attempt that stops the run is attempt `n + |waits|`: its result is
   * passed on unchanged, every earlier attempt threw a handled exception,
   * a handled exception ends the run only once the retries are spent, and
   * the waits are the policy's delays in order.
   */
  lemma {:induction false} AttemptsSpec<T>(get: (string, nat) -> Call<T>, url: string, n: nat)
    requires n <= RetryCount
    ensures n + |Attempts(get, url, n).waits| <= RetryCount
    ensures Attempts(get, url, n).outcome == get(url, n + |Attempts(get, url, n).waits|)
    ensures forall j :: n <= j < n + |Attempts(get, url, n).waits| ==> Handled(get(url, j))
    ensures Handled(Attempts(get, url, n).outcome) ==> n + |Attempts(get, url, n).waits| == RetryCount
    ensures forall i :: 0 <= i < |Attempts(get, url, n).waits| ==> Attempts(get, url, n).waits[i] == Delay(n + i + 1)
    decreases RetryCount - n
  {
    if Handled(get(url, n)) && n < RetryCount {
      AttemptsSpec(get, url, n + 1);
    }
  }

  /** A fresh policy run: attempts are counted from 0 on every call, nothing is shared between calls. */
  function Policy<T>(get: (string, nat) -> Call<T>, url: string): Run<T>
  {
    Attempts(get, url, 0)
  }

  /** `ExecuteAsync` of a fresh policy: at most 1 + 3 attempts, with the waits 3, 9, 27 seconds between them. */
  method Execute<T>(get: (string, nat) -> Call<T>, url: string) returns (outcome: Call<T>, waits: seq<nat>)
    ensures Run(outcome, waits) == Policy(get, url)
  {
    var n := 0;
    waits := [];
    outcome := get(url, n);
    while Handled(outcome) && n < RetryCount
      invariant n <= RetryCount && outcome == get(url, n)
      invariant Policy(get, url).outcome == Attempts(get, url, n).outcome
      invariant Policy(get, url).waits == waits + Attempts(get, url, n).waits
      decreases RetryCount - n
    {
      ghost var rest := Attempts(get, url, n + 1);
      assert Attempts(get, url, n) == Run(rest.outcome, [Delay(n + 1)] + rest.waits);
      assert (waits + [Delay(n + 1)]) + rest.waits == waits + ([Delay(n + 1)] + rest.waits);
      n := n + 1;
      waits := waits + [Delay(n)];
      outcome := get(url, n);
    }
    assert Attempts(get, url, n) == Run(outcome, []);
    assert waits + [] == waits;
  }

  /** The value returned is that of the first attempt that did not throw. */
  lemma PolicyFirstSuccess<T>(get: (string, nat) -> Call<T>, url: string, k: nat)
    requires k <= RetryCount && get(url, k).Returned?
    requires forall j :: 0 <= j < k ==> Handled(get(url, j))
    ensures Policy(get, url).outcome == get(url, k)
  {
    AttemptsSpec(get, url, 0);
    var r := Policy(get, url);
    var w: nat := |r.waits|;
    assert w < k ==> Handled(get(url, w));
    assert w > k ==> Handled(get(url, k));
    assert w == k;
  }

  /** A status code that `IsTransientError` rejects is retried all the same. */
  lemma RetryIgnoresTransience()
    ensures !IsTransientError(Some(404))
    ensures var get := (url: string, k: nat) => if k == 0 then Threw(FlurlHttp(Some(404))) else Returned(k);
      Policy(get, "u") == Run(Returned(1), [3])
  {
  }

  /** Any other exception ends the run at once, with no wait. */
  lemma OtherExceptionNotRetried<T>(get: (string, nat) -> Call<T>, url: string)
    requires get(url, 0) == Threw(OtherException)
    ensures Policy(get, url) == Run(Threw(OtherException), [])
  {
  }
}
