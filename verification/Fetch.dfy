/** One HTTP fetch with retries and exponential backoff, over any stream of outcomes. */
module Fetch {
  import opened Wrappers

  /** What one GET can come back with. */
  datatype Outcome = Response(status: int) | TransportError(reason: string) | OtherException(reason: string)

  datatype FetchResult =
    | Fetched(status: int)
    | ClientError(status: int)
    | GaveUp(attempts: int, last: Option<Outcome>)
    | Escaped(reason: string)

  const RETRYABLE_STATUS: set<int> := {422, 429}

  predicate Is2xx(status: int) {
    200 <= status < 300
  }

  predicate Is4xx(status: int) {
    400 <= status < 500
  }

  function Pow2(n: nat): nat {
    if n == 0 then 1 else 2 * Pow2(n - 1)
  }

  /** The sleeps between `requests` requests, added up one by one. */
  function TotalSleep(base: real, requests: nat): real {
    if requests <= 1 then 0.0 else TotalSleep(base, requests - 1) + base * Pow2(requests - 2) as real
  }

  /** The sleeps form a geometric series. */
  lemma {:induction false} TotalSleepClosedForm(base: real, requests: nat)
    requires requests >= 1
    ensures TotalSleep(base, requests) == base * (Pow2(requests - 1) - 1) as real
  {
    if requests > 1 {
      TotalSleepClosedForm(base, requests - 1);
      var p := Pow2(requests - 2) as real;
      assert (Pow2(requests - 1) - 1) as real == 2.0 * p - 1.0;
      assert base * (p - 1.0) + base * p == base * (2.0 * p - 1.0);
    }
  }

  lemma {:induction false} TotalSleepGrows(base: real, fewer: nat, more: nat)
    requires base >= 0.0 && fewer <= more
    ensures 0.0 <= TotalSleep(base, fewer) <= TotalSleep(base, more)
    decreases more
  {
    if more > 1 {
      assert base * Pow2(more - 2) as real >= 0.0;
      TotalSleepGrows(base, if fewer < more then fewer else more - 1, more - 1);
    }
  }

  /** The two ways the scraper calls it: three requests sleeping 3 s in all, four sleeping 14 s. */
  lemma ConfiguredBackoff()
    ensures TotalSleep(1.0, 3) == 3.0 && TotalSleep(2.0, 4) == 14.0
  {
    TotalSleepClosedForm(1.0, 3);
    TotalSleepClosedForm(2.0, 4);
    assert Pow2(3) == 8 && Pow2(2) == 4;
  }

  /** The request was answered, or refused for good, in a way no retry would change: neither 422, 429
      nor 5xx, and no transport error. */
  ghost predicate Final(o: Outcome, result: FetchResult) {
    match o
    case Response(status) =>
      if 200 <= status < 300 then result == Fetched(status)
      else 400 <= status < 500 && status != 422 && status != 429 && result == ClientError(status)
    case TransportError(_) => false
    case OtherException(reason) => result == Escaped(reason)
  }

  /** The request failed in a way that clears up: a transport error, 422, 429, 5xx or any other answer
      that is neither 2xx nor 4xx. */
  ghost predicate Retried(o: Outcome) {
    match o
    case Response(status) => status == 422 || status == 429 || status < 200 || 300 <= status < 400 || 500 <= status
    case TransportError(_) => true
    case OtherException(_) => false
  }

  /** The first outcome that is final among the first `maxAttempts` decides; without one the fetch gives
      up after exactly that many requests, reporting the last failure. */
  method FetchWithRetries(outcomes: nat -> Outcome, maxAttempts: int, backoffBase: real)
    returns (result: FetchResult, requests: nat, slept: real)
    ensures requests <= if maxAttempts > 0 then maxAttempts else 0
    ensures forall i :: 0 <= i < requests - 1 ==> Retried(outcomes(i))
    ensures 0 < requests < maxAttempts ==> Final(outcomes(requests - 1), result)
    ensures 0 < requests == maxAttempts ==>
      if Retried(outcomes(requests - 1)) then result == GaveUp(maxAttempts, Some(outcomes(requests - 1)))
      else Final(outcomes(requests - 1), result)
    ensures requests == 0 ==> maxAttempts <= 0 && result == GaveUp(maxAttempts, None)
    ensures slept == TotalSleep(backoffBase, requests)
  {
    requests, slept := 0, 0.0;
    var lastErr: Option<Outcome> := None;
    var attempt := 1;
    while attempt < maxAttempts + 1
      invariant requests == attempt - 1 && attempt <= if maxAttempts > 0 then maxAttempts + 1 else 1
      invariant forall i :: 0 <= i < requests ==> Retried(outcomes(i))
      invariant lastErr == if requests == 0 then None else Some(outcomes(requests - 1))
      invariant slept == TotalSleep(backoffBase, if requests < maxAttempts then requests + 1 else requests)
    {
      var o := outcomes(requests);
      requests := requests + 1;
      match o {
        case OtherException(reason) =>
          return Escaped(reason), requests, slept;
        case TransportError(_) =>
        case Response(status) =>
          if !(500 <= status < 600 || status in RETRYABLE_STATUS) && Is2xx(status) {
            return Fetched(status), requests, slept;
          }
          if Is4xx(status) && status !in RETRYABLE_STATUS {
            return ClientError(status), requests, slept;
          }
      }
      lastErr := Some(o);
      if attempt < maxAttempts {
        slept := slept + backoffBase * Pow2(attempt - 1) as real;
      }
      attempt := attempt + 1;
    }
    result := GaveUp(maxAttempts, lastErr);
  }
}
