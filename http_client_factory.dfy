/** The HTTP client settings of the external application client and its retry policy: a request is
    sent up to `RetryCount + 1` times, retrying on server errors, time-outs and transport failures,
    and waiting a fixed delay between attempts. `SendAsync` is abstracted as the outcome of each
    numbered attempt. */
module HttpRetry {
  import opened Common

  /** `ExternalAppHttpConfigDto`: the time-out, the number of retries and the delay between them. */
  datatype HttpConfig = HttpConfig(timeoutSeconds: int, retryCount: int, retryDelaySeconds: int)

  /** The configuration's defaults. */
  function DefaultHttpConfig(): HttpConfig {
    HttpConfig(10, 3, 2)
  }

  /** The largest `HttpClient.Timeout` the setter accepts: `int.MaxValue` milliseconds. */
  const MaxTimeoutMilliseconds: int := 0x7FFF_FFFF

  /** The seconds `Create` asks for: the configured value when positive, else 10. */
  function TimeoutSeconds(config: HttpConfig): (seconds: int)
    ensures seconds > 0
    ensures config.timeoutSeconds > 0 ==> seconds == config.timeoutSeconds
    ensures config.timeoutSeconds <= 0 ==> seconds == 10
  {
    if config.timeoutSeconds <= 0 then 10 else config.timeoutSeconds
  }

  /** `Create`: a client whose time-out, in ticks, is those seconds; the `Timeout` setter throws
      `ArgumentOutOfRangeException` when they exceed `int.MaxValue` milliseconds. */
  function Create(config: HttpConfig): (r: Result<int>)
    ensures r.Success? <==> TimeoutSeconds(config) * 1000 <= MaxTimeoutMilliseconds
    ensures r.Success? ==> r.value > 0 && r.value == TimeoutSeconds(config) * TicksPerSecond
    ensures r.Success? ==> (config.timeoutSeconds > 0 ==> r.value == config.timeoutSeconds * TicksPerSecond)
    ensures r.Success? ==> (config.timeoutSeconds <= 0 ==> r.value == 10 * TicksPerSecond)
  {
    var timeoutSeconds := if config.timeoutSeconds <= 0 then 10 else config.timeoutSeconds;
    if timeoutSeconds * 1000 > MaxTimeoutMilliseconds then Failure("Timeout")
    else Success(timeoutSeconds * TicksPerSecond)
  }

  /** The default configuration and any time-out up to 2,147,483 s give a client; 2,147,484 s or more
      make the setter throw. */
  lemma CreateRange(config: HttpConfig)
    ensures config.timeoutSeconds <= 2_147_483 ==> Create(config).Success?
    ensures config.timeoutSeconds >= 2_147_484 ==> Create(config).Failure?
    ensures Create(DefaultHttpConfig()) == Success(10 * TicksPerSecond)
  {
  }

  /** `Math.Max(0, RetryCount)`. */
  function Retries(config: HttpConfig): (n: nat)
    ensures n >= config.retryCount
    ensures config.retryCount >= 0 ==> n == config.retryCount
    ensures config.retryCount < 0 ==> n == 0
  {
    if config.retryCount < 0 then 0 else config.retryCount
  }

  /** The delay between attempts in seconds: the configured value when positive, else 2. */
  function RetryDelay(config: HttpConfig): (d: int)
    ensures d > 0
    ensures config.retryDelaySeconds > 0 ==> d == config.retryDelaySeconds
    ensures config.retryDelaySeconds <= 0 ==> d == 2
  {
    if config.retryDelaySeconds <= 0 then 2 else config.retryDelaySeconds
  }

  /** `ShouldRetry`: a server error. */
  predicate ShouldRetry(statusCode: int) {
    statusCode >= 500
  }

  /** What one `SendAsync` produced: a response with its status code, a time-out (a cancellation the
      caller did not ask for), a transport failure, or the caller's own cancellation. */
  datatype SendOutcome = Response(statusCode: int) | Timeout | HttpError(message: string) | CallerCancelled

  /** How `SendWithRetryAsync` ends: returning a response, or throwing `HttpRequestException("Request
      timed out")`, the transport failure's `HttpRequestException`, or the caller's cancellation. */
  datatype Sent = Returned(statusCode: int) | TimedOut | RequestFailed(message: string) | Cancelled

  /** An outcome after which another attempt is made, if any remain. */
  predicate Transient(o: SendOutcome) {
    (o.Response? && ShouldRetry(o.statusCode)) || o.Timeout? || o.HttpError?
  }

  /** The result when `o` is the outcome of the last attempt made. */
  function Settle(o: SendOutcome): Sent {
    match o
    case Response(code) => Returned(code)
    case Timeout => TimedOut
    case HttpError(m) => RequestFailed(m)
    case CallerCancelled => Cancelled
  }

  /** The last attempt made when attempts are numbered from `from`: the first with an outcome that is
      not transient, or attempt `retries` when all before it are. */
  function FinalAttempt(outcome: nat -> SendOutcome, retries: nat, from: nat): (k: nat)
    requires from <= retries
    ensures from <= k <= retries
    decreases retries - from
  {
    if from == retries || !Transient(outcome(from)) then from else FinalAttempt(outcome, retries, from + 1)
  }

  /** Every attempt before the final one was transient, and the final one is either not transient or
      the last allowed. */
  lemma {:induction false} FinalAttemptIsFirstSettled(outcome: nat -> SendOutcome, retries: nat, from: nat)
    requires from <= retries
    ensures var k := FinalAttempt(outcome, retries, from);
            && (forall j :: from <= j < k ==> Transient(outcome(j)))
            && (k < retries ==> !Transient(outcome(k)))
    decreases retries - from
  {
    if from < retries && Transient(outcome(from)) {
      FinalAttemptIsFirstSettled(outcome, retries, from + 1);
    }
  }

  /** Those two facts determine the final attempt. */
  lemma FinalAttemptUnique(outcome: nat -> SendOutcome, retries: nat, k: nat)
    requires k <= retries
    requires forall j :: 0 <= j < k ==> Transient(outcome(j))
    requires k < retries ==> !Transient(outcome(k))
    ensures FinalAttempt(outcome, retries, 0) == k
  {
    FinalAttemptIsFirstSettled(outcome, retries, 0);
  }

  /** `SendWithRetryAsync` over the outcomes of the successive attempts: the number of requests built,
      the delays waited between them, and how the call ends. */
  method SendWithRetry(outcome: nat -> SendOutcome, config: HttpConfig)
    returns (r: Sent, attempts: nat, delays: seq<int>)
    ensures attempts == FinalAttempt(outcome, Retries(config), 0) + 1
    ensures r == Settle(outcome(attempts - 1))
    ensures delays == seq(attempts - 1, _ => RetryDelay(config))
  {
    var retries := Retries(config);
    var delay := RetryDelay(config);
    delays := [];

    var attempt := 0;
    while attempt <= retries
      invariant attempt <= retries
      invariant FinalAttempt(outcome, retries, attempt) == FinalAttempt(outcome, retries, 0)
      invariant delays == seq(attempt, _ => delay)
    {
      attempts := attempt + 1;
      match outcome(attempt) {
        case Response(code) =>
          if attempt == retries || !ShouldRetry(code) {
            return Returned(code), attempts, delays;
          }
        case Timeout =>
          if attempt == retries {
            return TimedOut, attempts, delays;
          }
        case HttpError(m) =>
          if !(attempt < retries) {
            return RequestFailed(m), attempts, delays;
          }
        case CallerCancelled =>
          return Cancelled, attempts, delays;
      }
      delays := delays + [delay];
      attempt := attempt + 1;
    }
    // "Retry loop exited unexpectedly": every attempt up to `retries` returns or throws.
    assert false;
  }

  /** At least one and at most `retries + 1` attempts are made. */
  lemma AttemptsBounded(outcome: nat -> SendOutcome, config: HttpConfig)
    ensures 1 <= FinalAttempt(outcome, Retries(config), 0) + 1 <= Retries(config) + 1
  {
  }

  /** The first response below 500 is returned at once, whatever follows it. */
  lemma FirstGoodResponseReturned(outcome: nat -> SendOutcome, config: HttpConfig, k: nat, code: int)
    requires k <= Retries(config) && outcome(k) == Response(code) && !ShouldRetry(code)
    requires forall j :: 0 <= j < k ==> Transient(outcome(j))
    ensures FinalAttempt(outcome, Retries(config), 0) == k
    ensures Settle(outcome(FinalAttempt(outcome, Retries(config), 0))) == Returned(code)
  {
    FinalAttemptUnique(outcome, Retries(config), k);
  }

  /** When every earlier attempt was transient, the last allowed attempt's outcome is final: a server
      error is returned, a time-out becomes "Request timed out", a transport failure propagates. */
  lemma LastAttemptIsFinal(outcome: nat -> SendOutcome, config: HttpConfig)
    requires forall j :: 0 <= j < Retries(config) ==> Transient(outcome(j))
    ensures FinalAttempt(outcome, Retries(config), 0) == Retries(config)
    ensures var last := outcome(Retries(config));
            var r := Settle(outcome(FinalAttempt(outcome, Retries(config), 0)));
            && (last.Response? ==> r == Returned(last.statusCode))
            && (last.Timeout? ==> r == TimedOut)
            && (last.HttpError? ==> r == RequestFailed(last.message))
  {
    FinalAttemptUnique(outcome, Retries(config), Retries(config));
  }

  /** A transient outcome is retried while attempts remain: it is never the final attempt before the
      last allowed one. */
  lemma TransientRetriedWhileAttemptsRemain(outcome: nat -> SendOutcome, config: HttpConfig)
    ensures var k := FinalAttempt(outcome, Retries(config), 0);
            Transient(outcome(k)) ==> k == Retries(config)
  {
    FinalAttemptIsFirstSettled(outcome, Retries(config), 0);
  }

  /** The caller's cancellation ends the call at once. */
  lemma CancellationStops(outcome: nat -> SendOutcome, config: HttpConfig, k: nat)
    requires k <= Retries(config) && outcome(k) == CallerCancelled
    requires forall j :: 0 <= j < k ==> Transient(outcome(j))
    ensures Settle(outcome(FinalAttempt(outcome, Retries(config), 0))) == Cancelled
  {
    FinalAttemptUnique(outcome, Retries(config), k);
  }
}
