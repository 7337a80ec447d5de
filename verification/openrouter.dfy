/**
 * `generateRandomNumber` of `src/lib/openrouter.ts`: one completion request
 * per attempt, up to three attempts, with the answer text read by
 * `NumberText`. The upstream service is a script of attempt outcomes indexed
 * by attempt number; the one-second wait between attempts is not modelled.
 */
module OpenRouter {
  import opened Wrappers
  import opened Decimal
  import opened NumberText
  import Histogram

  /** What one request to the completion service came back with. */
  datatype Attempt =
    | Threw(message: string)                 // `fetch` or `response.json()` raised
    | NotOk(status: int, text: string)       // `response.ok` was false; `text` is the body
    | Completion(content: Option<string>)    // `choices[0].message.content`, when present

  /** What one attempt amounts to: a value, or a failure that may be retried. */
  datatype Step = Value(value: int) | Retryable(message: string)

  /** What a call of `generateRandomNumber` returns or throws. */
  datatype Outcome = Number(value: int) | Raised(message: string)

  /**
   * The outcome of a call and the index one past the last request it made;
   * for a call starting at attempt 0 that is the number of requests sent.
   */
  datatype Call = Call(outcome: Outcome, requests: nat)

  const MaxRetries: nat := 2
  const MaxAttempts: nat := MaxRetries + 1

  const MissingKeyMessage := "OPENROUTER_API_KEY environment variable is not set"
  const EmptyMessage := "Empty response from OpenRouter API"

  function ApiErrorMessage(status: int, text: string): string {
    "OpenRouter API error (" + IntStr(status) + "): " + text
  }

  function ExhaustedMessage(cause: string): string {
    "Failed to generate random number after " + IntStr(MaxAttempts) + " attempts: " + cause
  }

  /** `!apiKey`: the key is unset or the empty string. */
  predicate KeyMissing(key: Option<string>) {
    key.None? || key.value == ""
  }

  /**
   * One pass through the `try` block. A failed request, an error status or
   * an empty answer is a retryable failure; any non-empty answer gives a
   * value in 1..100, falling back to `sample + 1` when it holds no usable
   * number.
   */
  function Once(a: Attempt, sample: Sample): (s: Step)
    ensures s.Value? ==> Histogram.InRange(s.value)
    ensures s.Value? <==> a.Completion? && a.content.Some? && !AllSpace(a.content.value)
    ensures s.Value? ==> s.value == ValueOf(a.content.value, sample)
    ensures a.Threw? ==> s == Retryable(a.message)
    ensures a.NotOk? ==> s == Retryable(ApiErrorMessage(a.status, a.text))
    ensures a.Completion? && (a.content.None? || AllSpace(a.content.value)) ==> s == Retryable(EmptyMessage)
  {
    match a
    case Threw(m) => Retryable(m)
    case NotOk(status, text) => Retryable(ApiErrorMessage(status, text))
    case Completion(None) => Retryable(EmptyMessage)
    case Completion(Some(c)) =>
      var t := Trim(c);
      if t == "" then Retryable(EmptyMessage)
      else
        ValueOfIgnoresTrim(c, sample);
        Value(ValueOf(t, sample))
  }

  /** What each attempt amounts to, attempt `k` read against the call's one fallback sample. */
  function Steps(upstream: nat -> Attempt, sample: Sample): nat -> Step {
    (k: nat) => Once(upstream(k), sample)
  }

  /**
   * The retry recursion of `generateRandomNumber(retryCount)` past the key
   * check: attempt `retryCount` is made, and a retryable failure either
   * leads to the next attempt or, after the third, to the final error. A
   * value is the one the last attempt made gave.
   */
  function Retry(steps: nat -> Step, retryCount: nat): (r: Call)
    requires retryCount <= MaxRetries
    ensures retryCount < r.requests <= MaxAttempts
    ensures r.outcome.Number? ==> steps(r.requests - 1) == Value(r.outcome.value)
    decreases MaxRetries - retryCount
  {
    var s := steps(retryCount);
    if s.Value? then Call(Number(s.value), retryCount + 1)
    else if retryCount < MaxRetries then Retry(steps, retryCount + 1)
    else Call(Raised(ExhaustedMessage(s.message)), retryCount + 1)
  }

  /** Attempts `from` up to (not including) `to` all failed. */
  predicate Failed(steps: nat -> Step, from: nat, to: nat)
    decreases to - from
  {
    from >= to || (steps(from).Retryable? && Failed(steps, from + 1, to))
  }

  /** A value comes after retryable failures only. */
  lemma {:induction false} RetryValue(steps: nat -> Step, retryCount: nat)
    requires retryCount <= MaxRetries
    ensures var r := Retry(steps, retryCount);
      r.outcome.Number? ==> Failed(steps, retryCount, r.requests - 1)
    decreases MaxRetries - retryCount
  {
    if steps(retryCount).Retryable? && retryCount < MaxRetries {
      RetryValue(steps, retryCount + 1);
    }
  }

  /** An error comes after three retryable failures and carries the third one's message. */
  lemma {:induction false} RetryRaised(steps: nat -> Step, retryCount: nat)
    requires retryCount <= MaxRetries
    ensures var r := Retry(steps, retryCount);
      r.outcome.Raised? ==>
        r.requests == MaxAttempts && Failed(steps, retryCount, MaxAttempts) &&
        steps(MaxRetries).Retryable? && r.outcome.message == ExhaustedMessage(steps(MaxRetries).message)
    decreases MaxRetries - retryCount
  {
    if steps(retryCount).Retryable? && retryCount < MaxRetries {
      RetryRaised(steps, retryCount + 1);
    }
  }

  /**
   * `generateRandomNumber(retryCount)`: the key check comes before the
   * `try`, so a missing key raises at once and sends nothing; otherwise the
   * retry recursion runs from attempt `retryCount`.
   */
  function Generate(key: Option<string>, upstream: nat -> Attempt, sample: Sample, retryCount: nat): (r: Call)
    requires retryCount <= MaxRetries
    ensures KeyMissing(key) ==> r == Call(Raised(MissingKeyMessage), 0)
    ensures !KeyMissing(key) ==> retryCount < r.requests <= MaxAttempts
    ensures r.outcome.Number? ==> Histogram.InRange(r.outcome.value)
  {
    if KeyMissing(key) then Call(Raised(MissingKeyMessage), 0)
    else
      RetryInRange(upstream, sample, retryCount);
      Retry(Steps(upstream, sample), retryCount)
  }

  /** A number the retry recursion returns is one an attempt gave, so it is in 1..100. */
  lemma RetryInRange(upstream: nat -> Attempt, sample: Sample, retryCount: nat)
    requires retryCount <= MaxRetries
    ensures var r := Retry(Steps(upstream, sample), retryCount);
      r.outcome.Number? ==> Histogram.InRange(r.outcome.value)
  {
    var r := Retry(Steps(upstream, sample), retryCount);
    if r.outcome.Number? {
      assert Steps(upstream, sample)(r.requests - 1) == Value(r.outcome.value);
      assert Once(upstream(r.requests - 1), sample) == Value(r.outcome.value);
    }
  }

  /** A call as the route makes it: `generateRandomNumber()`, starting at attempt 0. */
  function Fetch(key: Option<string>, upstream: nat -> Attempt, sample: Sample): Call {
    Generate(key, upstream, sample, 0)
  }

  /**
   * The outcome of a call is decided by the first attempt that is not a
   * retryable failure, if one of the first three is.
   */
  lemma FetchDecidedByFirstValue(key: Option<string>, upstream: nat -> Attempt, sample: Sample, k: nat)
    requires !KeyMissing(key)
    requires k < MaxAttempts && Failed(Steps(upstream, sample), 0, k)
    requires Once(upstream(k), sample).Value?
    ensures Fetch(key, upstream, sample) == Call(Number(Once(upstream(k), sample).value), k + 1)
  {
    var steps := Steps(upstream, sample);
    assert steps(k) == Once(upstream(k), sample);
    RetryValue(steps, 0);
    RetryRaised(steps, 0);
    FailedBefore(steps, 0, k);
  }

  /** Within a run of failures, no attempt gave a value. */
  lemma {:induction false} FailedBefore(steps: nat -> Step, from: nat, to: nat)
    requires Failed(steps, from, to)
    ensures forall j :: from <= j < to ==> steps(j).Retryable?
    decreases if from < to then to - from else 0
  {
    if from < to {
      FailedBefore(steps, from + 1, to);
    }
  }

  /** Three retryable failures end the call with the third failure's message. */
  lemma FetchExhausted(key: Option<string>, upstream: nat -> Attempt, sample: Sample)
    requires !KeyMissing(key)
    requires Failed(Steps(upstream, sample), 0, MaxAttempts)
    ensures Once(upstream(MaxRetries), sample).Retryable?
    ensures Fetch(key, upstream, sample) ==
      Call(Raised(ExhaustedMessage(Once(upstream(MaxRetries), sample).message)), MaxAttempts)
  {
    var steps := Steps(upstream, sample);
    assert steps(MaxRetries) == Once(upstream(MaxRetries), sample);
    RetryValue(steps, 0);
    RetryRaised(steps, 0);
    FailedBefore(steps, 0, MaxAttempts);
  }

  /**
   * The retry recursion written as the bounded loop it amounts to: at most
   * three attempts, stopping at the first value.
   */
  method FetchLoop(key: Option<string>, upstream: nat -> Attempt, sample: Sample) returns (outcome: Outcome, requests: nat)
    ensures Call(outcome, requests) == Fetch(key, upstream, sample)
    ensures requests <= MaxAttempts
    ensures outcome.Number? ==> Histogram.InRange(outcome.value)
  {
    if KeyMissing(key) {
      return Raised(MissingKeyMessage), 0;
    }
    ghost var steps := Steps(upstream, sample);
    var attempt: nat := 0;
    while true
      invariant attempt <= MaxRetries
      invariant Fetch(key, upstream, sample) == Retry(steps, attempt)
      decreases MaxRetries - attempt
    {
      var s := Once(upstream(attempt), sample);
      assert s == steps(attempt);
      match s
      case Value(v) =>
        return Number(v), attempt + 1;
      case Retryable(m) =>
        if attempt == MaxRetries {
          return Raised(ExhaustedMessage(m)), attempt + 1;
        }
        attempt := attempt + 1;
    }
  }

  /**
   * A first answer that states an in-range number between a space and a
   * newline gives that number after one request.
   */
  lemma FetchStatedAnswer(key: Option<string>, upstream: nat -> Attempt, sample: Sample, n: nat)
    requires !KeyMissing(key) && Histogram.InRange(n)
    requires upstream(0) == Completion(Some(" " + NatStr(n) + "\n"))
    ensures Fetch(key, upstream, sample) == Call(Number(n), 1)
  {
    var c := " " + NatStr(n) + "\n";
    assert !IsSpace(c[1]);
    ValueOfIgnoresTrim(c, sample);
    ValueOfStatedNumber(" ", n, "\n", sample);
    FetchDecidedByFirstValue(key, upstream, sample, 0);
  }

  /** An answer "42" on the first attempt gives 42 after one request. */
  lemma FetchFirstAnswer(key: Option<string>, upstream: nat -> Attempt, sample: Sample)
    requires !KeyMissing(key)
    requires upstream(0) == Completion(Some(" 42\n"))
    ensures Fetch(key, upstream, sample) == Call(Number(42), 1)
  {
    assert " " + NatStr(42) + "\n" == " 42\n";
    FetchStatedAnswer(key, upstream, sample, 42);
  }

  /** Two error statuses and then an empty answer exhaust the call with the empty-answer message. */
  lemma FetchEmptyAfterErrors(key: Option<string>, upstream: nat -> Attempt, sample: Sample)
    requires !KeyMissing(key)
    requires upstream(0) == NotOk(500, "busy") && upstream(1) == NotOk(429, "slow down")
    requires upstream(2) == Completion(Some("  "))
    ensures Fetch(key, upstream, sample) == Call(Raised(ExhaustedMessage(EmptyMessage)), 3)
  {
    assert AllSpace("  ");
    var steps := Steps(upstream, sample);
    assert steps(0).Retryable? && steps(1).Retryable? && steps(2) == Retryable(EmptyMessage);
    assert Failed(steps, 3, 3);
    FetchExhausted(key, upstream, sample);
  }

  /**
   * When every attempt throws, the call throws the exhaustion message
   * wrapping what the third attempt threw.
   */
  lemma FetchAfterThrows(key: Option<string>, upstream: nat -> Attempt, sample: Sample)
    requires !KeyMissing(key)
    requires upstream(0).Threw? && upstream(1).Threw? && upstream(2).Threw?
    ensures Fetch(key, upstream, sample) == Call(Raised(ExhaustedMessage(upstream(2).message)), 3)
  {
    var steps := Steps(upstream, sample);
    assert steps(0).Retryable? && steps(1).Retryable? && steps(2) == Retryable(upstream(2).message);
    assert Failed(steps, 3, 3);
    FetchExhausted(key, upstream, sample);
  }
}
