/**
 Bounded tool execution (agent_runtime/tools/executor.py). What the tool does in each attempt is arbitrary
 and given by `behave`; the recorder and the sleeper are the out-parameters `trace` and `slept`.
 */
module ToolExecutor {
  import opened Common
  import Backoff

  datatype Spec = Spec(maxAttempts: int, base: real, cap: real, idempotent: bool) {
    predicate Valid() { maxAttempts >= 1 && base > 0.0 && cap >= base }
  }

  // The constructor of ToolSpec refuses anything else.
  type ToolSpec = s: Spec | s.Valid() witness Spec(1, 1.0, 1.0, false)

  datatype ErrorCode =
    InvalidInput | PermissionDenied | NotFound | Conflict | Timeout | Unavailable | ExecutionFailed

  datatype ToolError = ToolError(code: ErrorCode, retryable: bool)

  // Exactly one value or one error.
  datatype Response = Value(value: nat) | Error(error: ToolError)

  /** What one invocation does: it runs out of time, raises, or answers (perhaps with a value of the wrong type). */
  datatype Behaviour = TimesOut | Raises | Answers(response: Response, valueFits: bool)

  datatype Event =
    | Started(attempt: int)
    | Succeeded(attempt: int)
    | Failed(attempt: int, code: ErrorCode)
    | TimedOut(attempt: int, code: ErrorCode)
    | Retrying(attempt: int, code: ErrorCode, delay: real)

  /** `_invoke_attempt`: the response and the event that reports it. */
  function Invoke(behaviour: Behaviour, attempt: int): (Response, Event) {
    match behaviour
    case TimesOut => (Error(ToolError(Timeout, true)), TimedOut(attempt, Timeout))
    case Raises => (Error(ToolError(ExecutionFailed, false)), Failed(attempt, ExecutionFailed))
    case Answers(Value(v), fits) =>
      if !fits then (Error(ToolError(ExecutionFailed, false)), Failed(attempt, ExecutionFailed))
      else (Value(v), Succeeded(attempt))
    case Answers(Error(e), _) => (Error(e), Failed(attempt, e.code))
  }

  predicate ShouldRetry(spec: ToolSpec, error: ToolError, attempt: int) {
    spec.idempotent && error.retryable && attempt < spec.maxAttempts
  }

  function ResponseOf(behave: int -> Behaviour, k: int): Response {
    Invoke(behave(k), k).0
  }

  /** Attempt k failed in a way that is tried again. */
  predicate Retries(spec: ToolSpec, behave: int -> Behaviour, k: int) {
    ResponseOf(behave, k).Error? && ShouldRetry(spec, ResponseOf(behave, k).error, k)
  }

  /** The three events of attempt k when it is retried. */
  predicate RetriedAttempt(spec: ToolSpec, behave: int -> Behaviour, trace: seq<Event>, k: int)
    requires 1 <= k && 3 * k <= |trace|
  {
    && trace[3 * k - 3] == Started(k)
    && trace[3 * k - 2] == Invoke(behave(k), k).1
    && !trace[3 * k - 2].Succeeded?
    && ResponseOf(behave, k).Error? && ResponseOf(behave, k).error.retryable
    && trace[3 * k - 1] == Retrying(k, ResponseOf(behave, k).error.code, Backoff.Delay(spec.base, spec.cap, k))
  }

  /** STARTED n and one final event that tells the same as the response. */
  predicate FinalAttempt(behave: int -> Behaviour, trace: seq<Event>, n: int, response: Response)
    requires 1 <= n && |trace| == 3 * n - 1
  {
    && trace[3 * n - 3] == Started(n)
    && trace[3 * n - 2] == Invoke(behave(n), n).1
    && response == ResponseOf(behave, n)
    && (trace[3 * n - 2].Succeeded? <==> response.Value?)
    && (response.Error? ==> trace[3 * n - 2] in {Failed(n, response.error.code), TimedOut(n, response.error.code)})
  }

  /** The response that a behaviour stands for. */
  ghost predicate Tells(behaviour: Behaviour, response: Response) {
    match behaviour
    case TimesOut => response == Error(ToolError(Timeout, true))
    case Raises => response == Error(ToolError(ExecutionFailed, false))
    case Answers(own, fits) =>
      if own.Value? && !fits then response == Error(ToolError(ExecutionFailed, false)) else response == own
  }

  /** It runs out of time, or answers with an error that may be retried. */
  ghost predicate FailsForNow(behaviour: Behaviour) {
    behaviour.TimesOut? || (behaviour.Answers? && behaviour.response.Error? && behaviour.response.error.retryable)
  }

  /** The event that a behaviour is reported by. */
  lemma EventsTellTheBehaviour(behaviour: Behaviour, attempt: int)
    ensures var (response, event) := Invoke(behaviour, attempt);
      && Tells(behaviour, response)
      && event.attempt == attempt
      && (event.TimedOut? <==> behaviour.TimesOut?)
      && (event.Succeeded? <==> behaviour.Answers? && behaviour.response.Value? && behaviour.valueFits)
      && !event.Started? && !event.Retrying?
      && (response.Error? ==> event.code == response.error.code)
  {
  }

  lemma KeepRetried(spec: ToolSpec, behave: int -> Behaviour, before: seq<Event>, trace: seq<Event>, attempt: int)
    requires before <= trace && attempt >= 1 && |before| == 3 * (attempt - 1)
    requires forall k :: 1 <= k < attempt ==> RetriedAttempt(spec, behave, before, k)
    ensures forall k :: 1 <= k < attempt ==> RetriedAttempt(spec, behave, trace, k)
  {
    forall k | 1 <= k < attempt ensures RetriedAttempt(spec, behave, trace, k) {
      assert RetriedAttempt(spec, behave, before, k);
    }
  }

  datatype Outcome = Returned(response: Response) | Exhausted

  /**
   `execute`. After n attempts it returns the response of the last one; the trace is n - 1 retried attempts
   followed by the final one; attempt n is the first that is not retried; it slept after each retried attempt
   for that attempt's backoff. The error after the loop is never reached.
   */
  method Execute(spec: ToolSpec, inputFits: bool, behave: int -> Behaviour)
    returns (outcome: Outcome, n: int, trace: seq<Event>, slept: seq<real>)
    ensures outcome.Returned?
    ensures !inputFits ==>
      outcome.response == Error(ToolError(InvalidInput, false)) && n == 0 && trace == [] && slept == []
    ensures inputFits ==>
      && 1 <= n <= spec.maxAttempts
      && (!spec.idempotent ==> n == 1)
      && (forall k :: 1 <= k < n ==> Retries(spec, behave, k))
      && !Retries(spec, behave, n)
      && |trace| == 3 * n - 1
      && (forall k :: 1 <= k < n ==> RetriedAttempt(spec, behave, trace, k))
      && FinalAttempt(behave, trace, n, outcome.response)
      && |slept| == n - 1
      && (forall k :: 1 <= k < n ==> slept[k - 1] == Backoff.Delay(spec.base, spec.cap, k))
    ensures inputFits && outcome.response.Error? ==>
      n == spec.maxAttempts || !spec.idempotent || !outcome.response.error.retryable
    ensures inputFits ==> Tells(behave(n), outcome.response)
    ensures inputFits ==> forall k :: 1 <= k < n ==> spec.idempotent && FailsForNow(behave(k))
  {
    trace, slept, n := [], [], 0;
    if !inputFits {
      outcome := Returned(Error(ToolError(InvalidInput, false)));
      return;
    }
    var attempt := 1;
    while attempt <= spec.maxAttempts
      invariant 1 <= attempt <= spec.maxAttempts
      invariant !spec.idempotent ==> attempt == 1
      invariant |trace| == 3 * (attempt - 1) && |slept| == attempt - 1
      invariant forall k :: 1 <= k < attempt ==> Retries(spec, behave, k)
      invariant forall k :: 1 <= k < attempt ==> spec.idempotent && FailsForNow(behave(k))
      invariant forall k :: 1 <= k < attempt ==> RetriedAttempt(spec, behave, trace, k)
      invariant forall k :: 1 <= k < attempt ==> slept[k - 1] == Backoff.Delay(spec.base, spec.cap, k)
      decreases spec.maxAttempts - attempt
    {
      n := attempt;
      ghost var before := trace;
      trace := trace + [Started(attempt)];
      var (response, event) := Invoke(behave(attempt), attempt);
      trace := trace + [event];
      KeepRetried(spec, behave, before, trace, attempt);
      if response.Value? {
        return Returned(response), n, trace, slept;
      }
      var error := response.error;
      if !ShouldRetry(spec, error, attempt) {
        return Returned(response), n, trace, slept;
      }
      var delay := Backoff.Delay(spec.base, spec.cap, attempt);
      trace := trace + [Retrying(attempt, error.code, delay)];
      KeepRetried(spec, behave, before, trace, attempt);
      slept := slept + [delay];
      attempt := attempt + 1;
    }
    outcome := Exhausted;
  }

  function Sum(delays: seq<real>): real {
    if delays == [] then 0.0 else Sum(delays[..|delays| - 1]) + delays[|delays| - 1]
  }

  lemma {:induction false} SumIsTotal(spec: ToolSpec, slept: seq<real>)
    requires forall k :: 1 <= k <= |slept| ==> slept[k - 1] == Backoff.Delay(spec.base, spec.cap, k)
    ensures Sum(slept) == Backoff.Total(spec.base, spec.cap, Backoff.UpTo(|slept|))
  {
    if slept != [] {
      var n := |slept|;
      SumIsTotal(spec, slept[..n - 1]);
      assert Backoff.UpTo(n)[..n - 1] == Backoff.UpTo(n - 1);
    }
  }

  /**
   The time one execution spends sleeping, for the delays `Execute` reports: no delay is shorter than an
   earlier one, and together they are within both budgets of the policy.
   */
  lemma SleepIsBounded(spec: ToolSpec, slept: seq<real>, retries: nat)
    requires forall k :: 1 <= k <= |slept| ==> slept[k - 1] == Backoff.Delay(spec.base, spec.cap, k)
    requires |slept| <= retries
    ensures forall i, j :: 0 <= i < j < |slept| ==> slept[i] <= slept[j]
    ensures Sum(slept) == Backoff.Total(spec.base, spec.cap, Backoff.UpTo(|slept|))
    ensures Backoff.WithinBudget(spec.base, spec.cap, Backoff.UpTo(|slept|), retries)
  {
    SumIsTotal(spec, slept);
    Backoff.TotalIsBounded(spec.base, spec.cap, Backoff.UpTo(|slept|), retries);
    forall i, j | 0 <= i < j < |slept| ensures slept[i] <= slept[j] {
      Backoff.DelayMonotone(spec.base, spec.cap, i + 1, j + 1);
    }
  }

  /** n retries sleep the full exponential sum exactly when the last delay was not capped. */
  lemma UncappedSleepIsExponential(spec: ToolSpec, slept: seq<real>, n: nat)
    requires |slept| == n && forall k :: 1 <= k <= n ==> slept[k - 1] == Backoff.Delay(spec.base, spec.cap, k)
    ensures Sum(slept) == spec.base * (Backoff.TwoTo(n) - 1.0)
       <==> n == 0 || spec.base * Backoff.TwoTo(n - 1) <= spec.cap
  {
    SumIsTotal(spec, slept);
    Backoff.ExactTotal(spec.base, spec.cap, n);
  }
}
