/**
 * The backoff loop around one model call (generation.py, `_generate_with_retry`).
 *
 * The model is a script: `model(i)` is what attempt `i` of the run
 * produces, either a reply (possibly with empty text) or an exception. The
 * waits the source sleeps are returned as a list of delays in seconds.
 */
module Retry {

  /** What one `generate_content` call produces. */
  datatype Outcome = Reply(text: string) | Raise

  /** How the retry loop ends: a reply with text, the exception of the last attempt
      raised again, or the generic "Failed to generate response after all retries"
      exception when the last attempt came back empty. */
  datatype RetryEnd = Generated(text: string) | Reraised | Exhausted

  /** The end of the loop, the number of model calls made, and the waits in between. */
  datatype RetryRun = RetryRun(end: RetryEnd, calls: nat, delays: seq<nat>)

  /** The defaults of `max_retries` and `base_delay`. */
  const DefaultMaxRetries: nat := 3
  const DefaultBaseDelay: nat := 1

  function Pow2(n: nat): (p: nat)
    ensures p >= 1
  {
    if n == 0 then 1 else 2 * Pow2(n - 1)
  }

  /** The wait after a failed attempt `n`, `base_delay * 2**n`, computed by doubling. */
  function Backoff(baseDelay: nat, n: nat): nat {
    if n == 0 then baseDelay else 2 * Backoff(baseDelay, n - 1)
  }

  /** The doubling agrees with the source's formula. */
  lemma {:induction false} BackoffIsPower(baseDelay: nat, n: nat)
    ensures Backoff(baseDelay, n) == baseDelay * Pow2(n)
  {
    if n > 0 {
      BackoffIsPower(baseDelay, n - 1);
      Distribute(baseDelay, Pow2(n - 1), Pow2(n - 1));
    }
  }

  /** The loop from attempt `attempt` on. */
  function RetryFrom(model: nat -> Outcome, attempt: nat, maxRetries: nat, baseDelay: nat): (r: RetryRun)
    decreases maxRetries - attempt
  {
    if attempt >= maxRetries then RetryRun(Exhausted, attempt, [])
    else
      var outcome := model(attempt);
      if outcome.Reply? && outcome.text != [] then RetryRun(Generated(outcome.text), attempt + 1, [])
      else if outcome.Reply? then RetryFrom(model, attempt + 1, maxRetries, baseDelay)
      else if attempt == maxRetries - 1 then RetryRun(Reraised, attempt + 1, [])
      else
        var rest := RetryFrom(model, attempt + 1, maxRetries, baseDelay);
        RetryRun(rest.end, rest.calls, [Backoff(baseDelay, attempt)] + rest.delays)
  }

  /** `_generate_with_retry(model, prompt, max_retries, base_delay)`. */
  function RetryRunOf(model: nat -> Outcome, maxRetries: nat, baseDelay: nat): RetryRun {
    RetryFrom(model, 0, maxRetries, baseDelay)
  }

  /** The attempt loop: stops at the first reply with text, re-raises an exception on the
      last attempt, waits `base_delay * 2**attempt` after an exception on any other
      attempt, and goes straight on after an empty reply. */
  method GenerateWithRetry(model: nat -> Outcome, maxRetries: nat, baseDelay: nat) returns (r: RetryRun)
    ensures r == RetryRunOf(model, maxRetries, baseDelay)
  {
    ghost var total := RetryRunOf(model, maxRetries, baseDelay);
    var delays: seq<nat> := [];
    var attempt := 0;
    while attempt < maxRetries
      invariant attempt <= maxRetries
      invariant Continues(total, delays, RetryFrom(model, attempt, maxRetries, baseDelay))
      decreases maxRetries - attempt
    {
      var outcome := model(attempt);
      if outcome.Reply? && outcome.text != [] {
        RetryEnds(total, delays, model, attempt, maxRetries, baseDelay);
        return RetryRun(Generated(outcome.text), attempt + 1, delays);
      }
      if outcome.Raise? && attempt == maxRetries - 1 {
        RetryEnds(total, delays, model, attempt, maxRetries, baseDelay);
        return RetryRun(Reraised, attempt + 1, delays);
      }
      RetryContinues(total, delays, model, attempt, maxRetries, baseDelay);
      if outcome.Raise? {
        var delay := Backoff(baseDelay, attempt);
        delays := delays + [delay];
      }
      attempt := attempt + 1;
    }
    assert delays + [] == delays;
    return RetryRun(Exhausted, maxRetries, delays);
  }

  /** `total` is the run whose waits so far are `delays` and whose remainder is `rest`. */
  ghost predicate Continues(total: RetryRun, delays: seq<nat>, rest: RetryRun) {
    total == RetryRun(rest.end, rest.calls, delays + rest.delays)
  }

  /** An attempt that replies with text, or raises as the last one, ends the run there. */
  lemma RetryEnds(total: RetryRun, delays: seq<nat>, model: nat -> Outcome, attempt: nat, maxRetries: nat, baseDelay: nat)
    requires attempt < maxRetries
    requires Continues(total, delays, RetryFrom(model, attempt, maxRetries, baseDelay))
    ensures model(attempt).Reply? && model(attempt).text != [] ==>
              total == RetryRun(Generated(model(attempt).text), attempt + 1, delays)
    ensures model(attempt).Raise? && attempt == maxRetries - 1 ==> total == RetryRun(Reraised, attempt + 1, delays)
  {
    assert delays + [] == delays;
  }

  /** An empty reply moves on to the next attempt without a wait; an exception on an
      attempt that is not the last moves on after waiting `base_delay * 2**attempt`. */
  lemma RetryContinues(total: RetryRun, delays: seq<nat>, model: nat -> Outcome, attempt: nat, maxRetries: nat, baseDelay: nat)
    requires attempt < maxRetries
    requires !(model(attempt).Reply? && model(attempt).text != [])
    requires !(model(attempt).Raise? && attempt == maxRetries - 1)
    requires Continues(total, delays, RetryFrom(model, attempt, maxRetries, baseDelay))
    ensures model(attempt).Reply? ==> Continues(total, delays, RetryFrom(model, attempt + 1, maxRetries, baseDelay))
    ensures model(attempt).Raise? ==>
              Continues(total, delays + [Backoff(baseDelay, attempt)], RetryFrom(model, attempt + 1, maxRetries, baseDelay))
  {
    var rest := RetryFrom(model, attempt + 1, maxRetries, baseDelay);
    var delay := Backoff(baseDelay, attempt);
    assert delays + ([delay] + rest.delays) == (delays + [delay]) + rest.delays;
  }

  /** The waits owed to the attempts `from .. upto - 1` that raised: `base * 2**i` for
      attempt `i`. */
  function Waits(model: nat -> Outcome, from: nat, upto: nat, baseDelay: nat): seq<nat>
    decreases upto - from
  {
    if from >= upto then []
    else if model(from).Raise? then [Backoff(baseDelay, from)] + Waits(model, from + 1, upto, baseDelay)
    else Waits(model, from + 1, upto, baseDelay)
  }

  function Sum(xs: seq<nat>): nat {
    if xs == [] then 0 else xs[0] + Sum(xs[1..])
  }

  /** The run from attempt `attempt`: how many calls it makes, what ends it, and which
      waits it owes. */
  lemma {:induction false} RetryFromSpec(model: nat -> Outcome, attempt: nat, maxRetries: nat, baseDelay: nat)
    requires attempt <= maxRetries
    ensures var r := RetryFrom(model, attempt, maxRetries, baseDelay);
      && attempt <= r.calls <= maxRetries
      && (attempt < maxRetries ==> attempt < r.calls)
      && (forall i :: attempt <= i < r.calls - 1 ==> model(i) == Reply([]) || model(i) == Raise)
      && (r.end.Generated? ==> attempt < r.calls && model(r.calls - 1) == Reply(r.end.text) && r.end.text != [])
      && (attempt < r.calls && model(r.calls - 1).Reply? && model(r.calls - 1).text != [] ==> r.end.Generated?)
      && (r.end == Reraised <==> r.calls == maxRetries && attempt < maxRetries && model(maxRetries - 1) == Raise)
      && (r.end == Exhausted <==> r.calls == maxRetries && (attempt == maxRetries || model(maxRetries - 1) == Reply([])))
      && r.delays == Waits(model, attempt, if r.calls == attempt then attempt else r.calls - 1, baseDelay)
    decreases maxRetries - attempt
  {
    if attempt < maxRetries {
      var outcome := model(attempt);
      if !(outcome.Reply? && outcome.text != []) && !(outcome.Raise? && attempt == maxRetries - 1) {
        RetryFromSpec(model, attempt + 1, maxRetries, baseDelay);
      }
    }
  }

  /** What `_generate_with_retry` promises: at most `max_retries` calls; it returns the
      first reply with text, every earlier attempt having raised or come back empty; it
      re-raises exactly when the last allowed attempt raised, and gives up with the
      generic exception exactly when the last allowed attempt came back empty (or no
      attempt was allowed); it waits only after an exception on a non-final attempt,
      `base_delay * 2**i` after attempt `i`. */
  lemma RetrySpec(model: nat -> Outcome, maxRetries: nat, baseDelay: nat)
    ensures var r := RetryRunOf(model, maxRetries, baseDelay);
      && r.calls <= maxRetries
      && (maxRetries > 0 ==> r.calls > 0)
      && (forall i :: 0 <= i < r.calls - 1 ==> model(i) == Reply([]) || model(i) == Raise)
      && (r.end.Generated? ==> r.calls > 0 && model(r.calls - 1) == Reply(r.end.text) && r.end.text != [])
      && (r.calls > 0 && model(r.calls - 1).Reply? && model(r.calls - 1).text != [] ==> r.end.Generated?)
      && (r.end == Reraised <==> maxRetries > 0 && r.calls == maxRetries && model(maxRetries - 1) == Raise)
      && (r.end == Exhausted <==> r.calls == maxRetries && (maxRetries == 0 || model(maxRetries - 1) == Reply([])))
      && r.delays == Waits(model, 0, if r.calls == 0 then 0 else r.calls - 1, baseDelay)
  {
    RetryFromSpec(model, 0, maxRetries, baseDelay);
  }

  /** The waits owed for attempts `from .. upto - 1` add up to at most `base * (2**upto - 2**from)`. */
  lemma {:induction false} WaitsBound(model: nat -> Outcome, from: nat, upto: nat, baseDelay: nat)
    requires from <= upto
    ensures Sum(Waits(model, from, upto, baseDelay)) + Backoff(baseDelay, from) <= Backoff(baseDelay, upto)
    decreases upto - from
  {
    if from < upto {
      WaitsBound(model, from + 1, upto, baseDelay);
      var rest := Waits(model, from + 1, upto, baseDelay);
      if model(from).Raise? {
        assert ([Backoff(baseDelay, from)] + rest)[1..] == rest;
      }
    }
  }

  /** `b * x + b * y == b * (x + y)`. */
  lemma Distribute(b: nat, x: nat, y: nat)
    ensures b * x + b * y == b * (x + y)
  {
  }

  /** With the defaults, a run makes at most three calls and waits at most 1 + 2 = 3
      seconds in total, never after its last call. */
  lemma DefaultRetryBounds(model: nat -> Outcome)
    ensures var r := RetryRunOf(model, DefaultMaxRetries, DefaultBaseDelay);
      && 1 <= r.calls <= 3
      && |r.delays| <= 2
      && Sum(r.delays) <= 3
  {
    var r := RetryRunOf(model, DefaultMaxRetries, DefaultBaseDelay);
    RetrySpec(model, DefaultMaxRetries, DefaultBaseDelay);
    var upto := r.calls - 1;
    WaitsBound(model, 0, upto, DefaultBaseDelay);
    WaitsLength(model, 0, upto, DefaultBaseDelay);
    assert Backoff(1, 0) == 1 && Backoff(1, 1) == 2 && Backoff(1, 2) == 4;
  }

  lemma {:induction false} WaitsLength(model: nat -> Outcome, from: nat, upto: nat, baseDelay: nat)
    requires from <= upto
    ensures |Waits(model, from, upto, baseDelay)| <= upto - from
    decreases upto - from
  {
    if from < upto {
      WaitsLength(model, from + 1, upto, baseDelay);
    }
  }

  /** An empty reply is retried without any wait: when every attempt comes back empty the
      run makes all its calls, waits nothing and gives up with the generic exception. */
  lemma AllEmptyNoWait(model: nat -> Outcome, maxRetries: nat, baseDelay: nat)
    requires forall i :: 0 <= i < maxRetries ==> model(i) == Reply([])
    ensures RetryRunOf(model, maxRetries, baseDelay) == RetryRun(Exhausted, maxRetries, [])
  {
    RetrySpec(model, maxRetries, baseDelay);
    var r := RetryRunOf(model, maxRetries, baseDelay);
    WaitsNone(model, 0, if r.calls == 0 then 0 else r.calls - 1, baseDelay);
  }

  lemma {:induction false} WaitsNone(model: nat -> Outcome, from: nat, upto: nat, baseDelay: nat)
    requires forall i :: from <= i < upto ==> !model(i).Raise?
    ensures Waits(model, from, upto, baseDelay) == []
    decreases upto - from
  {
    if from < upto {
      WaitsNone(model, from + 1, upto, baseDelay);
    }
  }
}
