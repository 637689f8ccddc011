/** The retry loop and the upstream call built on it. `attempts(i)` is what the
    i-th call of the wrapped function does. */
module RetryPolicy {
  import opened Strings

  /** A thrown value: not an Error, or an Error with name, code and message. */
  datatype Failure = NotAnError | Error(name: string, code: string, message: string)

  datatype Outcome<T> = Resolved(result: T) | Rejected(err: Failure)

  const RETRYABLE_CODES := {
    "ECONNREFUSED", "ECONNRESET", "ETIMEDOUT", "EPIPE", "ENOTFOUND",
    "UND_ERR_CONNECT_TIMEOUT", "UND_ERR_HEADERS_TIMEOUT", "UND_ERR_BODY_TIMEOUT", "UND_ERR_SOCKET"}

  const EXHAUSTED := Error("Error", "", "executeWithRetry: exhausted without result")

  predicate IsRetryableError(err: Failure) {
    err.Error? && (err.name == "TimeoutError" || err.name == "AbortError" || err.code in RETRYABLE_CODES)
  }

  predicate IsRetryableStatus(status: int) { status >= 500 }

  /** A thrown value is tried again for two names and nine codes, no others. */
  lemma RetryableErrors(err: Failure)
    ensures IsRetryableError(err) <==>
      && err.Error?
      && (|| err.name == "TimeoutError" || err.name == "AbortError"
          || err.code == "ECONNREFUSED" || err.code == "ECONNRESET" || err.code == "ETIMEDOUT"
          || err.code == "EPIPE" || err.code == "ENOTFOUND"
          || err.code == "UND_ERR_CONNECT_TIMEOUT" || err.code == "UND_ERR_HEADERS_TIMEOUT"
          || err.code == "UND_ERR_BODY_TIMEOUT" || err.code == "UND_ERR_SOCKET")
  {
  }

  predicate TriesAgain<T>(o: Outcome<T>, again: T -> bool) {
    match o
    case Resolved(result) => again(result)
    case Rejected(err) => IsRetryableError(err)
  }

  /** The error handed to onRetry: null after a retryable result. */
  function Cause<T>(o: Outcome<T>): Option<Failure> {
    if o.Rejected? then Some(o.err) else None
  }

  datatype Retry = Retry(attempt: nat, err: Option<Failure>)

  /** Attempt `k` decides: all before it are retryable and it is the first that
      is not, or the last in the budget. */
  ghost predicate Decides<T>(attempts: nat -> Outcome<T>, again: T -> bool, maxRetries: nat, k: nat) {
    && k <= maxRetries
    && (forall i: nat :: i < k ==> TriesAgain(attempts(i), again))
    && (k == maxRetries || !TriesAgain(attempts(k), again))
  }

  /** At most one attempt decides, so the contract below leaves no choice. */
  lemma DecisionIsUnique<T>(attempts: nat -> Outcome<T>, again: T -> bool, maxRetries: nat, j: nat, k: nat)
    requires Decides(attempts, again, maxRetries, j) && Decides(attempts, again, maxRetries, k)
    ensures j == k
  {
  }

  /** `executeWithRetry`: the deciding outcome after exactly that many calls,
      with onRetry told each retry in order and its cause. The trailing throw
      is reached exactly when the budget is negative. */
  method ExecuteWithRetry<T>(attempts: nat -> Outcome<T>, again: T -> bool, maxRetries: int)
    returns (out: Outcome<T>, calls: nat, retries: seq<Retry>)
    ensures maxRetries < 0 ==> calls == 0 && out == Rejected(EXHAUSTED) && retries == []
    ensures maxRetries >= 0 ==>
              && calls >= 1 && Decides(attempts, again, maxRetries, calls - 1)
              && out == attempts(calls - 1)
    ensures maxRetries >= 0 ==>
              && |retries| == calls - 1
              && forall i :: 0 <= i < |retries| ==> retries[i] == Retry(i + 1, Cause(attempts(i)))
    ensures forall i :: 0 <= i < |retries| ==>
              && retries[i].attempt == i + 1
              && (attempts(i).Resolved? ==> retries[i].err == None)
              && (attempts(i).Rejected? ==> retries[i].err == Some(attempts(i).err))
  {
    calls, retries := 0, [];
    var attempt := 0;
    while attempt <= maxRetries
      invariant calls == attempt && (maxRetries >= 0 ==> attempt <= maxRetries) && (maxRetries < 0 ==> attempt == 0)
      invariant forall i: nat :: i < attempt ==> TriesAgain(attempts(i), again)
      invariant |retries| == attempt
      invariant forall i :: 0 <= i < |retries| ==> retries[i] == Retry(i + 1, Cause(attempts(i)))
      decreases maxRetries - attempt
    {
      var o := attempts(attempt);
      calls := calls + 1;
      if !TriesAgain(o, again) || attempt == maxRetries {
        return o, calls, retries;
      }
      retries := retries + [Retry(attempt + 1, Cause(o))];
      attempt := attempt + 1;
    }
    out := Rejected(EXHAUSTED);
  }

  /** One proxied attempt and the time it took. */
  datatype Attempt = Attempt(outcome: Outcome<int>, ms: nat)

  function Outcomes(attempts: nat -> Attempt): nat -> Outcome<int> {
    (i: nat) => attempts(i).outcome
  }

  function TimeOf(attempts: nat -> Attempt, n: nat): nat {
    if n == 0 then 0 else TimeOf(attempts, n - 1) + attempts(n - 1).ms
  }

  lemma {:induction false} TimeBound(attempts: nat -> Attempt, n: nat, limit: nat)
    requires forall i: nat :: attempts(i).ms <= limit
    ensures TimeOf(attempts, n) <= n * limit
    ensures (forall i: nat :: attempts(i).ms == limit) ==> TimeOf(attempts, n) == n * limit
  {
    if n > 0 {
      TimeBound(attempts, n - 1, limit);
      assert n * limit == (n - 1) * limit + limit;
    }
  }

  /** `upstreamRequest`, resolving to a status code. With every attempt cut off at
      its own deadline the whole takes at most (retries + 1) deadlines; it
      rejects exactly when its last attempt threw, and a 5xx comes back, as a
      resolved result, only when the budget is spent. */
  method UpstreamRequest(retries: int, requestTimeoutMs: nat, attempts: nat -> Attempt)
    returns (out: Outcome<int>, calls: nat, elapsedMs: nat)
    ensures retries >= 0 ==>
              && 1 <= calls <= retries + 1
              && out == attempts(calls - 1).outcome
              && Decides(Outcomes(attempts), IsRetryableStatus, retries, calls - 1)
    ensures elapsedMs == TimeOf(attempts, calls)
    ensures retries >= 0 && (forall i: nat :: attempts(i).ms <= requestTimeoutMs) ==>
              elapsedMs <= (retries + 1) * requestTimeoutMs
    ensures retries >= 0 ==> (out.Rejected? <==> attempts(calls - 1).outcome.Rejected?)
    ensures retries >= 0 && out.Resolved? && out.result >= 500 ==> calls == retries + 1
    ensures forall i: nat :: i + 1 < calls && attempts(i).outcome.Resolved? ==> attempts(i).outcome.result >= 500
    ensures forall i: nat :: i + 1 < calls && attempts(i).outcome.Rejected? ==>
              IsRetryableError(attempts(i).outcome.err)
    ensures retries >= 0 && attempts(0).outcome.Resolved? && attempts(0).outcome.result < 500 ==>
              calls == 1 && out == attempts(0).outcome
    ensures retries >= 0 && attempts(0).outcome.Rejected? && !IsRetryableError(attempts(0).outcome.err) ==>
              calls == 1 && out == attempts(0).outcome
    ensures retries >= 0 && calls <= retries && out.Rejected? ==> !IsRetryableError(out.err)
    ensures calls == 1 ==> elapsedMs == attempts(0).ms
    ensures retries < 0 ==> calls == 0 && out == Rejected(EXHAUSTED)
  {
    var told;
    out, calls, told := ExecuteWithRetry(Outcomes(attempts), IsRetryableStatus, retries);
    elapsedMs := TimeOf(attempts, calls);
    assert forall i: nat :: Outcomes(attempts)(i) == attempts(i).outcome;
    if retries >= 0 {
      if forall i: nat :: attempts(i).ms <= requestTimeoutMs {
        TimeBound(attempts, calls, requestTimeoutMs);
        assert calls * requestTimeoutMs <= (retries + 1) * requestTimeoutMs;
      }
    }
  }

  /** An upstream that answers 5xx to every attempt makes the wrapped call
      resolve: the breaker, which counts rejections, is told of a success. */
  lemma ExhaustedServerErrorResolves(attempts: nat -> Attempt, retries: nat, calls: nat)
    requires forall i: nat :: attempts(i).outcome.Resolved? && attempts(i).outcome.result >= 500
    requires calls >= 1 && Decides(Outcomes(attempts), IsRetryableStatus, retries, calls - 1)
    ensures calls == retries + 1 && attempts(calls - 1).outcome.Resolved?
  {
    assert Outcomes(attempts)(calls - 1) == attempts(calls - 1).outcome;
  }

  /** The methods the documentation says are retried. */
  predicate Idempotent(verb: string) {
    verb == "GET" || verb == "HEAD" || verb == "PUT" || verb == "DELETE"
  }

  /** Only those are: however the upstream answers, a request with another
      method is attempted once. */
  ghost predicate OnlyIdempotentRetried(verb: string, retries: nat) {
    forall attempts: nat -> Outcome<int>, k: nat :: Decides(attempts, IsRetryableStatus, retries, k) && k > 0 ==>
      verb == "GET" || verb == "HEAD" || verb == "PUT" || verb == "DELETE"
  }

  /** The loop never looks at the method: the documented rule holds for a request
      exactly if its method is idempotent or its route allows no retry. */
  lemma MethodIsIgnored(verb: string, retries: nat)
    ensures OnlyIdempotentRetried(verb, retries) <==> Idempotent(verb) || retries == 0
  {
    if !Idempotent(verb) && retries > 0 {
      var failing: nat -> Outcome<int> := i => Resolved(503);
      assert Decides(failing, IsRetryableStatus, retries, retries);
    }
  }

  /** A request is attempted again exactly if its route allows a retry and its
      first attempt is retryable, a POST like any other. */
  lemma RetriedWhen<T>(attempts: nat -> Outcome<T>, again: T -> bool, maxRetries: nat, k: nat)
    requires Decides(attempts, again, maxRetries, k)
    ensures k > 0 <==> maxRetries > 0 && TriesAgain(attempts(0), again)
  {
  }
}
