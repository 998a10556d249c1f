/** HTTPCarrier.Post: retries with exponential backoff over a stream of attempts. */
module RetryLoop {
  import opened Domain

  datatype HTTPCarrierConfig = HTTPCarrierConfig(maxRetries: int, retryDelay: int, timeout: int)

  const DEFAULT_MAX_RETRIES := 3
  const DEFAULT_RETRY_DELAY := 100 * NANOS_PER_MILLI
  const DEFAULT_TIMEOUT := 5_000 * NANOS_PER_MILLI

  /** Copies the configuration and fills every field that is not positive. */
  method WithDefaults(c: HTTPCarrierConfig) returns (out: HTTPCarrierConfig)
    ensures out.maxRetries > 0 && out.retryDelay > 0 && out.timeout > 0
    ensures out.maxRetries == if c.maxRetries > 0 then c.maxRetries else 3
    ensures out.retryDelay == if c.retryDelay > 0 then c.retryDelay else 100 * 1_000_000
    ensures out.timeout == if c.timeout > 0 then c.timeout else 5 * 1_000_000_000
  {
    out := c;
    if out.maxRetries <= 0 {
      out := out.(maxRetries := DEFAULT_MAX_RETRIES);
    }
    if out.retryDelay <= 0 {
      out := out.(retryDelay := DEFAULT_RETRY_DELAY);
    }
    if out.timeout <= 0 {
      out := out.(timeout := DEFAULT_TIMEOUT);
    }
  }

  /** What the network does with one attempt. */
  datatype Wire =
    | BuildFailed
    | NetworkError
    | Response(status: int, bodyDecodes: bool)

  /** doOnce returns a status code, zero when there was no response, and perhaps an error. */
  datatype Attempt = Attempt(status: int, failed: bool)

  function DoOnce(w: Wire): Attempt {
    match w
    case BuildFailed => Attempt(0, true)
    case NetworkError => Attempt(0, true)
    case Response(status, bodyDecodes) =>
      if status >= 400 then Attempt(status, true) else Attempt(status, !bodyDecodes)
  }

  predicate Succeeded(w: Wire) { !DoOnce(w).failed }

  predicate Refused(w: Wire) { DoOnce(w).failed && 400 <= DoOnce(w).status < 500 }

  /** An attempt is decisive when the loop stops at it. */
  predicate Decisive(w: Wire) { Succeeded(w) || Refused(w) }

  /** Success is any response below 400 with a decodable body and refusal is any
      4xx; every other outcome, an unreadable 2xx body included, is retried. */
  lemma {:induction false} DecisiveMeans(w: Wire)
    ensures Succeeded(w) <==> w.Response? && w.status < 400 && w.bodyDecodes
    ensures Refused(w) <==> w.Response? && 400 <= w.status < 500
    ensures !Decisive(w) <==>
            !w.Response? || w.status >= 500 || (w.status < 400 && !w.bodyDecodes)
  {
  }

  datatype Outcome =
    | MarshalFailed
    | Success
    | NonRetryable(status: int)
    | Cancelled(beforeRetry: nat)
    | Exhausted(attempts: nat)

  /** The outside world during one Post: what each attempt meets, and whether the wait
      before retry k ends by cancellation (retries count from 1). */
  datatype World = World(wire: nat -> Wire, cancelledBefore: nat -> bool)

  function Pow2(n: nat): (p: nat)
    ensures p > 0
  {
    if n == 0 then 1 else 2 * Pow2(n - 1)
  }

  function Total(sleeps: seq<int>): int {
    if sleeps == [] then 0 else Total(sleeps[..|sleeps| - 1]) + sleeps[|sleeps| - 1]
  }

  /** The delay variable after k doublings. */
  function Delay(base: int, k: nat): int {
    if k == 0 then base else Delay(base, k - 1) * 2
  }

  /** The timers of the first n retries. */
  function Backoffs(base: int, n: nat): seq<int> {
    if n == 0 then [] else Backoffs(base, n - 1) + [Delay(base, n - 1)]
  }

  /** Attempt k is reached: no earlier attempt was decisive and no wait up to k was cut. */
  ghost predicate Reaches(w: World, k: nat) {
    && (forall i: nat :: i < k ==> !Decisive(w.wire(i)))
    && (forall i: nat :: 1 <= i <= k ==> !w.cancelledBefore(i))
  }

  /** The specification: the first decisive event in the stream settles the call. */
  ghost predicate Settles(c: HTTPCarrierConfig, w: World, attempts: nat, outcome: Outcome)
    requires c.maxRetries >= 0
  {
    match outcome
    case MarshalFailed => false
    case Success => 1 <= attempts <= c.maxRetries + 1 && Reaches(w, attempts - 1) && Succeeded(w.wire(attempts - 1))
    case NonRetryable(status) =>
      && 1 <= attempts <= c.maxRetries + 1 && Reaches(w, attempts - 1) && Refused(w.wire(attempts - 1))
      && w.wire(attempts - 1).Response? && status == w.wire(attempts - 1).status
    case Cancelled(k) =>
      && attempts == k && 1 <= k <= c.maxRetries && Reaches(w, k - 1) && !Decisive(w.wire(k - 1))
      && w.cancelledBefore(k)
    case Exhausted(n) =>
      attempts == n == c.maxRetries + 1 && Reaches(w, c.maxRetries) && !Decisive(w.wire(c.maxRetries))
  }

  /** No attempt the configuration allows is decisive, and no wait is cut. */
  ghost predicate NothingDecides(c: HTTPCarrierConfig, w: World) {
    && (forall i: nat :: i <= c.maxRetries ==> !Decisive(w.wire(i)))
    && (forall i: nat :: 1 <= i <= c.maxRetries ==> !w.cancelledBefore(i))
  }

  /** The retry loop. sleeps lists the timers that ran out; a cut wait is not in it. */
  method Post(c: HTTPCarrierConfig, w: World, marshals: bool)
    returns (outcome: Outcome, attempts: nat, sleeps: seq<int>)
    requires c.maxRetries >= 0
    ensures !marshals ==> outcome == MarshalFailed && attempts == 0 && sleeps == []
    ensures marshals ==> Settles(c, w, attempts, outcome)
    ensures attempts <= c.maxRetries + 1
    ensures marshals ==> attempts >= 1 && sleeps == Backoffs(c.retryDelay, attempts - 1)
    ensures outcome.Exhausted? <==> marshals && NothingDecides(c, w)
  {
    attempts, sleeps := 0, [];
    if !marshals {
      return MarshalFailed, 0, [];
    }
    var delay := c.retryDelay;
    var attempt: nat := 0;
    while attempt <= c.maxRetries
      invariant attempt <= c.maxRetries + 1
      invariant attempts == attempt
      invariant delay == Delay(c.retryDelay, if attempt == 0 then 0 else attempt - 1)
      invariant sleeps == Backoffs(c.retryDelay, if attempt == 0 then 0 else attempt - 1)
      invariant forall i: nat :: i < attempt ==> !Decisive(w.wire(i))
      invariant forall i: nat :: 1 <= i < attempt ==> !w.cancelledBefore(i)
    {
      if attempt > 0 {
        if w.cancelledBefore(attempt) {
          return Cancelled(attempt), attempts, sleeps;
        }
        sleeps := sleeps + [delay];
        delay := delay * 2;
      }
      var once := DoOnce(w.wire(attempt));
      attempts := attempts + 1;
      if !once.failed {
        return Success, attempts, sleeps;
      }
      if once.status >= 400 && once.status < 500 {
        return NonRetryable(once.status), attempts, sleeps;
      }
      attempt := attempt + 1;
    }
    return Exhausted(c.maxRetries + 1), attempts, sleeps;
  }

  /** Before retry k the call sleeps RetryDelay times two to the k-1, and k retries
      sleep RetryDelay times two to the k, minus one, in all. */
  lemma {:induction false} BackoffIsExponential(base: int, n: nat)
    ensures |Backoffs(base, n)| == n
    ensures Delay(base, n) == base * Pow2(n)
    ensures forall k :: 0 <= k < n ==> Backoffs(base, n)[k] == base * Pow2(k)
    ensures Total(Backoffs(base, n)) == base * (Pow2(n) - 1)
  {
    if n > 0 {
      BackoffIsExponential(base, n - 1);
      assert Backoffs(base, n)[..n - 1] == Backoffs(base, n - 1);
      DoublingSum(base, Pow2(n - 1));
    }
  }

  lemma {:induction false} DoublingSum(base: int, p: int)
    ensures base * (p - 1) + base * p == base * (2 * p - 1)
    ensures base * p * 2 == base * (2 * p)
  {
  }

  /** The stream settles on one outcome after one number of attempts: Post has no
      freedom left. */
  lemma {:induction false} SettlesOnce(c: HTTPCarrierConfig, w: World, m: nat, one: Outcome, n: nat, other: Outcome)
    requires c.maxRetries >= 0
    requires Settles(c, w, m, one) && Settles(c, w, n, other)
    ensures m == n && one == other
  {
  }

  /** Whatever outcome settles the call, it is exhaustion exactly when nothing decides and
      nothing cancels; and then every attempt is used. */
  lemma {:induction false} ExhaustedWhenNothingDecides(c: HTTPCarrierConfig, w: World, n: nat, outcome: Outcome)
    requires c.maxRetries >= 0 && Settles(c, w, n, outcome)
    ensures outcome.Exhausted? <==> NothingDecides(c, w)
    ensures outcome.Exhausted? ==> n == c.maxRetries + 1
    ensures Settles(c, w, (c.maxRetries + 1) as nat, Exhausted((c.maxRetries + 1) as nat)) <==> NothingDecides(c, w)
  {
  }
}
