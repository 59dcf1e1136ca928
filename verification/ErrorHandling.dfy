/**
 * The retry loop over a circuit breaker. The wrapped function, the clock and the jitter are
 * parameters: `outcomes(k)` is what its call number `k` does, so the function itself does
 * not touch the handler.
 */
module ErrorHandling {
  import opened Wrappers
  import opened CircuitBreakers

  /** An exception, by what the loop asks of it. */
  datatype Error = Error(
    code: string,
    trading: bool,      // already a trading error, so it is not wrapped
    expected: bool,     // of the breaker's expected types
    recoverable: bool,  // of a trading error
    retriable: bool,    // of the caller's `retry_on` types
    fallback: bool)     // some fallback handler covers its type

  datatype Outcome<T> = Returned(value: T) | Raised(error: Error)

  datatype Strategy = Retry | Fallback | FailFast | Other

  datatype Settings = Settings(
    strategy: Strategy, maxAttempts: int, initialDelay: real, backoff: real, maxDelay: real,
    jitter: bool, retryOn: bool, baseExpected: bool)  // is the plain trading error an expected type?

  const HISTORY := 100

  function Last(s: seq<Error>): seq<Error> {
    if |s| <= HISTORY then s else s[|s| - HISTORY..]
  }

  /** `handle_error`: what is not a trading error is wrapped in a recoverable one. */
  function Wrap(e: Error, baseExpected: bool): Error {
    if e.trading then e else Error(e.code, true, baseExpected, true, e.retriable, e.fallback)
  }

  function Power(b: real, n: nat): (r: real)
    ensures b > 0.0 ==> r > 0.0
  {
    if n == 0 then 1.0 else b * Power(b, n - 1)
  }

  /** The delay after the given attempt, before jitter. */
  function Nominal(s: Settings, attempt: nat): real
    requires attempt > 0
  {
    Smaller(s.initialDelay * Power(s.backoff, attempt - 1), s.maxDelay)
  }

  function Smaller(x: real, y: real): real {
    if x <= y then x else y
  }

  function Delay(s: Settings, attempt: nat, u: real): real
    requires attempt > 0
  {
    if s.jitter then Nominal(s, attempt) * (0.5 + u) else Nominal(s, attempt)
  }

  /** The sleeps after the first `n` attempts. */
  function TotalDelay(s: Settings, jitter: nat -> real, n: nat): real {
    if n == 0 then 0.0 else TotalDelay(s, jitter, n - 1) + Delay(s, n, jitter(n))
  }

  predicate PositiveDelays(s: Settings) {
    s.initialDelay > 0.0 && s.backoff > 0.0 && s.maxDelay > 0.0
  }

  lemma NominalPositive(s: Settings, attempt: nat)
    requires attempt > 0 && PositiveDelays(s)
    ensures 0.0 < Nominal(s, attempt) <= s.maxDelay
  {
    assert s.initialDelay * Power(s.backoff, attempt - 1) > 0.0;
  }

  lemma DelayBound(s: Settings, attempt: nat, u: real)
    requires attempt > 0 && PositiveDelays(s) && 0.0 <= u < 1.0
    ensures 0.0 < Delay(s, attempt, u) < 1.5 * s.maxDelay
  {
    hide Nominal;
    NominalPositive(s, attempt);
    JitterBound(Nominal(s, attempt), s.maxDelay, 0.5 + u);
    Grow(0.5, 0.5 + u, Nominal(s, attempt));
  }

  /** Jitter moves a delay by at most half of it, either way; without jitter it is exact. */
  lemma DelayRange(s: Settings, attempt: nat, u: real)
    requires attempt > 0 && PositiveDelays(s) && 0.0 <= u < 1.0
    ensures s.jitter ==> 0.5 * Nominal(s, attempt) <= Delay(s, attempt, u) < 1.5 * Nominal(s, attempt)
    ensures s.jitter ==> Delay(s, attempt, u) - Nominal(s, attempt) == Nominal(s, attempt) * (u - 0.5)
    ensures !s.jitter ==> Delay(s, attempt, u) == Nominal(s, attempt)
  {
    hide Nominal;
    NominalPositive(s, attempt);
    JitterBound(Nominal(s, attempt), Nominal(s, attempt), 0.5 + u);
    Grow(0.5, 0.5 + u, Nominal(s, attempt));
  }

  lemma FactorOut(x: real, y: real, z: real)
    ensures x * (y * z) == y * (x * z)
  {
  }

  /** Delays start at the initial one and grow by the factor, up to the cap. */
  lemma NominalGrows(s: Settings, attempt: nat)
    requires attempt > 0 && PositiveDelays(s) && s.backoff >= 1.0
    ensures Nominal(s, 1) == Smaller(s.initialDelay, s.maxDelay)
    ensures Nominal(s, attempt + 1) == Smaller(s.backoff * Nominal(s, attempt), s.maxDelay)
  {
    var raw := s.initialDelay * Power(s.backoff, attempt - 1);
    FactorOut(s.initialDelay, s.backoff, Power(s.backoff, attempt - 1));
    if raw > s.maxDelay {
      Grow(s.maxDelay, raw, s.backoff);
      Grow(1.0, s.backoff, s.maxDelay);
    }
  }

  /** The sleeps of `n` pauses stay below one and a half times the cap for each. */
  lemma {:induction false} TotalDelayBound(s: Settings, jitter: nat -> real, n: nat, m: nat)
    requires PositiveDelays(s) && n <= m && 0 < m
    requires forall k: nat :: 0.0 <= jitter(k) < 1.0
    ensures 0.0 <= TotalDelay(s, jitter, n) < 1.5 * s.maxDelay * m as real
    decreases m
  {
    hide Delay;
    var unit, rest := 1.5 * s.maxDelay, (m - 1) as real;
    assert m as real == rest + 1.0;
    assert unit * (rest + 1.0) == unit * rest + unit;
    if n > 0 {
      DelayBound(s, n, jitter(n));
    }
    if m > 1 {
      TotalDelayBound(s, jitter, if n == 0 then 0 else n - 1, m - 1);
    }
  }

  lemma JitterBound(capped: real, max: real, k: real)
    requires 0.0 < capped <= max && 0.5 <= k < 1.5
    ensures capped * k < 1.5 * max
  {
    Grow(capped, max, k);
    assert (1.5 - k) * max > 0.0;
  }

  lemma Grow(a: real, b: real, k: real)
    requires a <= b && k > 0.0
    ensures a * k <= b * k
  {
    assert (b - a) * k >= 0.0;
  }

  /** How a call ends: what it returns, or the exception it raises. */
  datatype Ending<T> =
    | Gave(value: T)
    | FellBack(error: Error)    // returns the fallback's value
    | Refused                   // the gate is closed
    | Reraised(error: Error)    // not of the types to retry on: the exception itself
    | Aborted(error: Error)     // unrecoverable or fail-fast: the exception as a trading error
    | Exhausted(last: Error)    // no attempt left

  /** The breaker events of one call: the gate check, then at most one record. */
  ghost predicate CallTrace(c: Config, b: Breaker, events: seq<Event>) {
    && 1 <= |events| <= 2
    && events[0].Asked?
    && (|events| == 2 ==> Allows(c, b, events[0].now) && (events[1].Succeeded? || events[1].FailedAt?))
  }

  ghost predicate AllRaised<T>(outcomes: nat -> Outcome<T>, n: nat) {
    forall k | 0 <= k < n :: outcomes(k).Raised?
  }

  /** The trading errors that the first `n` calls raise, in order. */
  ghost function Noted<T>(s: Settings, outcomes: nat -> Outcome<T>, n: nat): seq<Error>
    requires AllRaised(outcomes, n)
  {
    seq(n, k requires 0 <= k < n => Wrap(outcomes(k).error, s.baseExpected))
  }

  /** Nothing about the error ends the call: it is retried on, recoverable, and has no other way out. */
  predicate GoesOn(s: Settings, e: Error) {
    && (s.retryOn ==> e.retriable)
    && (e.trading ==> e.recoverable)
    && !s.strategy.FailFast?
    && !(s.strategy.Fallback? && e.fallback)
  }

  ghost predicate WentOn<T>(s: Settings, outcomes: nat -> Outcome<T>, n: nat) {
    forall k | 0 <= k < n :: outcomes(k).Raised? && GoesOn(s, outcomes(k).error)
  }

  /**
   * The ending after `calls` calls. Every call but the last raised an error the loop goes past;
   * the last one's outcome leaves exactly one ending. Types not retried on come first, then
   * unrecoverable errors and failing fast, then the fallback, and then only exhaustion is left.
   */
  ghost predicate EndsWith<T>(s: Settings, outcomes: nat -> Outcome<T>, calls: nat, ending: Ending<T>) {
    if calls == 0 then ending.Refused? || (ending.Exhausted? && ending.last.code == "UNKNOWN_RETRY_EXHAUSTION")
    else
      && WentOn(s, outcomes, calls - 1)
      && match outcomes(calls - 1)
         case Returned(value) => ending == Gave(value)
         case Raised(e) =>
           if s.retryOn && !e.retriable then ending == Reraised(e)
           else if s.strategy.FailFast? || (e.trading && !e.recoverable) then
             ending == Aborted(Wrap(e, s.baseExpected))
           else if s.strategy.Fallback? && e.fallback then ending == FellBack(e)
           else ending == Exhausted(Wrap(e, s.baseExpected)) && calls == Max(0, s.maxAttempts)
  }

  /** How an ending is recorded with the breaker, if it is: fail-fast as the exception itself, exhaustion as wrapped. */
  ghost predicate RecordedAs<T>(
    s: Settings, ending: Ending<T>, outcomes: nat -> Outcome<T>, calls: nat, record: Option<Event>, now: int)
  {
    match ending
    case Gave(_) => record == Some(Succeeded)
    case Aborted(_) =>
      calls > 0 && outcomes(calls - 1).Raised? && record == Some(FailedAt(outcomes(calls - 1).error.expected, now))
    case Exhausted(_) =>
      if calls == 0 then record == Some(FailedAt(s.baseExpected, now))
      else
        && outcomes(calls - 1).Raised?
        && var e := outcomes(calls - 1).error;
           record == Some(FailedAt(if e.trading then e.expected else s.baseExpected, now))
    case _ => record.None?
  }

  /** Call number `n` raises after `n` calls the loop went past: what each way out of the loop leaves. */
  lemma ErrorEnds<T>(s: Settings, outcomes: nat -> Outcome<T>, n: nat, now: int)
    requires WentOn(s, outcomes, n) && outcomes(n).Raised?
    ensures var e, wrapped := outcomes(n).error, Wrap(outcomes(n).error, s.baseExpected);
            if s.retryOn && !e.retriable then
              && EndsWith(s, outcomes, n + 1, Reraised(e))
              && RecordedAs(s, Reraised(e), outcomes, n + 1, None, now)
            else if !wrapped.recoverable || s.strategy == FailFast then
              && EndsWith(s, outcomes, n + 1, Aborted(wrapped))
              && RecordedAs(s, Aborted(wrapped), outcomes, n + 1, Some(FailedAt(e.expected, now)), now)
            else if s.strategy == Fallback && e.fallback then
              && EndsWith(s, outcomes, n + 1, FellBack(e))
              && RecordedAs(s, FellBack(e), outcomes, n + 1, None, now)
            else
              && WentOn(s, outcomes, n + 1)
              && (n + 1 == s.maxAttempts ==> EndsWith(s, outcomes, n + 1, Exhausted(wrapped)))
              && RecordedAs(s, Exhausted(wrapped), outcomes, n + 1, Some(FailedAt(wrapped.expected, now)), now)
  {
  }

  lemma ValueEnds<T>(s: Settings, outcomes: nat -> Outcome<T>, n: nat, now: int)
    requires WentOn(s, outcomes, n) && outcomes(n).Returned?
    ensures EndsWith(s, outcomes, n + 1, Gave(outcomes(n).value))
    ensures RecordedAs(s, Gave(outcomes(n).value), outcomes, n + 1, Some(Succeeded), now)
  {
  }

  const NO_ATTEMPT := "UNKNOWN_RETRY_EXHAUSTION"

  lemma NoneEnds<T>(s: Settings, outcomes: nat -> Outcome<T>, final: Error, now: int)
    requires final.code == NO_ATTEMPT && final.expected == s.baseExpected
    ensures WentOn(s, outcomes, 0) && EndsWith(s, outcomes, 0, Exhausted(final))
    ensures RecordedAs(s, Exhausted(final), outcomes, 0, Some(FailedAt(s.baseExpected, now)), now)
  {
  }

  lemma NotedNext<T>(s: Settings, outcomes: nat -> Outcome<T>, n: nat)
    requires AllRaised(outcomes, n) && outcomes(n).Raised?
    ensures AllRaised(outcomes, n + 1)
    ensures Noted(s, outcomes, n + 1) == Noted(s, outcomes, n) + [Wrap(outcomes(n).error, s.baseExpected)]
  {
  }

  lemma NothingNoted<T>(s: Settings, outcomes: nat -> Outcome<T>)
    ensures AllRaised(outcomes, 0) && Noted(s, outcomes, 0) == []
  {
  }

  lemma SleepsNext(s: Settings, jitter: nat -> real, n: nat)
    ensures TotalDelay(s, jitter, 0) == 0.0
    ensures TotalDelay(s, jitter, n + 1) == TotalDelay(s, jitter, n) + Delay(s, n + 1, jitter(n + 1))
  {
  }

  class ErrorHandler {
    const breaker: CircuitBreaker
    var errorHistory: seq<Error>
    ghost var recorded: seq<Error>

    ghost predicate Valid()
      reads this
    {
      errorHistory == Last(recorded)
    }

    constructor (config: Config)
      ensures Valid() && recorded == [] && fresh(breaker) && breaker.config == config && breaker.View() == FRESH
    {
      breaker := new CircuitBreaker(config);
      errorHistory, recorded := [], [];
    }

    /** `_record_error`: the history is always the last hundred errors recorded. */
    method RecordError(e: Error)
      requires Valid()
      modifies this
      ensures Valid() && recorded == old(recorded) + [e]
      ensures errorHistory == if |recorded| <= 100 then recorded else recorded[|recorded| - 100..]
    {
      errorHistory := errorHistory + [e];
      if |errorHistory| > HISTORY {
        errorHistory := errorHistory[1..];
      }
      recorded := recorded + [e];
    }

    /** The attempts of `with_retry`, with the breaker event its exit path records. */
    method Attempts<T>(s: Settings, outcomes: nat -> Outcome<T>, jitter: nat -> real, failed: int)
      returns (ending: Ending<T>, calls: nat, slept: real, record: Option<Event>)
      requires Valid()
      requires forall k: nat :: 0.0 <= jitter(k) < 1.0
      modifies this
      ensures Valid() && !ending.Refused?
      ensures calls <= Max(0, s.maxAttempts) && (ending.Exhausted? ==> calls == Max(0, s.maxAttempts))
      ensures EndsWith(s, outcomes, calls, ending) && (ending.Gave? ==> calls > 0)
      ensures AllRaised(outcomes, if ending.Gave? then calls - 1 else calls)
      ensures recorded == old(recorded) + Noted(s, outcomes, if ending.Gave? then calls - 1 else calls)
      ensures RecordedAs(s, ending, outcomes, calls, record, failed)
      ensures slept == TotalDelay(s, jitter, if calls == 0 then 0 else calls - 1)
    {
      hide Valid, EndsWith, RecordedAs, WentOn, AllRaised, Noted, Wrap, TotalDelay, Delay;
      calls, slept, record := 0, 0.0, None;
      var final := Error(NO_ATTEMPT, true, s.baseExpected, false, false, false);
      NoneEnds(s, outcomes, final, failed);
      NothingNoted(s, outcomes);
      SleepsNext(s, jitter, 0);
      var attempt := 0;
      while attempt < s.maxAttempts
        invariant 0 <= attempt == calls <= Max(0, s.maxAttempts)
        invariant Valid() && WentOn(s, outcomes, calls) && AllRaised(outcomes, calls)
        invariant recorded == old(recorded) + Noted(s, outcomes, calls)
        invariant attempt >= s.maxAttempts ==> EndsWith(s, outcomes, calls, Exhausted(final))
        invariant RecordedAs(s, Exhausted(final), outcomes, calls, Some(FailedAt(final.expected, failed)), failed)
        invariant slept == TotalDelay(s, jitter, if 0 < attempt == s.maxAttempts then attempt - 1 else attempt)
      {
        var outcome := outcomes(calls);
        if outcome.Returned? {
          ValueEnds(s, outcomes, calls, failed);
          return Gave(outcome.value), calls + 1, slept, Some(Succeeded);
        }
        ErrorEnds(s, outcomes, calls, failed);
        NotedNext(s, outcomes, calls);
        calls := calls + 1;
        var e := outcome.error;
        var wrapped := Wrap(e, s.baseExpected);
        RecordError(wrapped);
        if s.retryOn && !e.retriable {
          return Reraised(e), calls, slept, None;
        }
        attempt := attempt + 1;
        final := wrapped;
        if !wrapped.recoverable || s.strategy == FailFast {
          return Aborted(wrapped), calls, slept, Some(FailedAt(e.expected, failed));
        }
        if s.strategy == Fallback && e.fallback {
          return FellBack(e), calls, slept, None;
        }
        if attempt < s.maxAttempts {
          SleepsNext(s, jitter, attempt - 1);
          slept := slept + Delay(s, attempt, jitter(attempt));
        }
      }
      return Exhausted(final), calls, slept, Some(FailedAt(final.expected, failed));
    }

    /** `with_retry`. */
    method WithRetry<T>(s: Settings, outcomes: nat -> Outcome<T>, jitter: nat -> real, asked: int, failed: int)
      returns (ending: Ending<T>, calls: nat, slept: real, ghost events: seq<Event>)
      requires Valid()
      requires forall k: nat :: 0.0 <= jitter(k) < 1.0
      modifies this, breaker
      ensures Valid()
      ensures breaker.View() == CircuitBreakers.After(breaker.config, old(breaker.View()), events)
      ensures CallTrace(breaker.config, old(breaker.View()), events) && events[0] == Asked(asked)
      ensures ending.Refused? <==> !Allows(breaker.config, old(breaker.View()), asked)
      ensures ending.Refused? ==> calls == 0 && events == [Asked(asked)]
      ensures calls <= Max(0, s.maxAttempts) && (ending.Exhausted? ==> calls == Max(0, s.maxAttempts))
      ensures EndsWith(s, outcomes, calls, ending) && (ending.Gave? ==> calls > 0)
      ensures AllRaised(outcomes, if ending.Gave? then calls - 1 else calls)
      ensures recorded == old(recorded) + Noted(s, outcomes, if ending.Gave? then calls - 1 else calls)
      ensures RecordedAs(s, ending, outcomes, calls, if |events| == 2 then Some(events[1]) else None, failed)
      ensures slept == TotalDelay(s, jitter, if calls == 0 then 0 else calls - 1)
      ensures s.maxAttempts >= 2 && PositiveDelays(s) ==>
                slept < 1.5 * s.maxDelay * (s.maxAttempts - 1) as real
    {
      hide Wrap, Next, CircuitBreakers.After, PositiveDelays, Allows, CircuitBreaker.View, Valid;
      calls, slept, events := 0, 0.0, [Asked(asked)];
      if s.maxAttempts >= 2 && PositiveDelays(s) {
        TotalDelayBound(s, jitter, 0, s.maxAttempts - 1);
      }
      OneMore(breaker.config, breaker.View(), Asked(asked), Succeeded);
      var allowed := breaker.ShouldAttemptCall(asked);
      if !allowed {
        return Refused, calls, slept, events;
      }
      var record;
      ending, calls, slept, record := Attempts(s, outcomes, jitter, failed);
      if s.maxAttempts >= 2 && PositiveDelays(s) {
        TotalDelayBound(s, jitter, if calls == 0 then 0 else calls - 1, s.maxAttempts - 1);
      }
      if record.Some? {
        OneMore(breaker.config, old(breaker.View()), Asked(asked), record.value);
        events := [Asked(asked), record.value];
        match record.value {
          case Succeeded =>
            breaker.RecordSuccess();
          case FailedAt(expected, now) =>
            breaker.RecordFailure(expected, now);
        }
      }
    }
  }

  lemma OneMore(c: Config, b: Breaker, x: Event, y: Event)
    ensures CircuitBreakers.After(c, b, [x]) == Next(c, b, x)
    ensures CircuitBreakers.After(c, b, [x, y]) == Next(c, Next(c, b, x), y)
  {
    assert [x][..0] == [] && [x, y][..1] == [x];
  }

  /**
   * Calls made through the handler never record a success while the breaker is open, so its
   * half-open failures reopen it at once.
   */
  lemma CallsKeepDiscipline(c: Config, events: seq<Event>, call: seq<Event>)
    requires Disciplined(c, events) && CallTrace(c, CircuitBreakers.After(c, FRESH, events), call)
    ensures Disciplined(c, events + call)
  {
    hide Next, CircuitBreakers.After, Allows;
    var all := events + call;
    forall i | 0 <= i < |all| && all[i].Succeeded? ensures !CircuitBreakers.After(c, FRESH, all[..i]).mode.Open? {
      if i < |events| {
        assert all[..i] == events[..i];
      } else {
        assert all[..i] == events + call[..1] && call[..1] == [call[0]];
        AfterConcat(c, FRESH, events, call[..1]);
        OneMore(c, CircuitBreakers.After(c, FRESH, events), call[0], call[0]);
        GateLeavesItUsable(c, CircuitBreakers.After(c, FRESH, events), call[0].now);
      }
    }
  }

  /** A history made of handler calls and manual resets, one entry each. */
  ghost predicate HandlerHistory(c: Config, parts: seq<seq<Event>>) {
    forall i | 0 <= i < |parts| ::
      parts[i] == [Reset] || CallTrace(c, CircuitBreakers.After(c, FRESH, Joined(parts[..i])), parts[i])
  }

  function Joined(parts: seq<seq<Event>>): seq<Event> {
    if parts == [] then [] else Joined(parts[..|parts| - 1]) + parts[|parts| - 1]
  }

  lemma ResetKeepsDiscipline(c: Config, events: seq<Event>)
    requires Disciplined(c, events)
    ensures Disciplined(c, events + [Reset])
  {
    hide CircuitBreakers.After;
    var all := events + [Reset];
    forall i | 0 <= i < |all| && all[i].Succeeded? ensures !CircuitBreakers.After(c, FRESH, all[..i]).mode.Open? {
      assert all[..i] == events[..i];
    }
  }

  lemma {:induction false} HandlerHistoryIsDisciplined(c: Config, parts: seq<seq<Event>>)
    requires HandlerHistory(c, parts)
    ensures Disciplined(c, Joined(parts))
  {
    if parts != [] {
      hide Disciplined, CallTrace, CircuitBreakers.After;
      var n := |parts| - 1;
      forall i | 0 <= i < n ensures parts[..n][..i] == parts[..i] { }
      HandlerHistoryIsDisciplined(c, parts[..n]);
      if parts[n] == [Reset] {
        ResetKeepsDiscipline(c, Joined(parts[..n]));
      } else {
        CallsKeepDiscipline(c, Joined(parts[..n]), parts[n]);
      }
    } else {
      assert Disciplined(c, []);
    }
  }

  /**
   * In every run of handler calls and resets, the first expected failure of a half-open
   * period with no success yet reopens the breaker at once.
   */
  lemma HandlerReopensAtOnce(c: Config, parts: seq<seq<Event>>, now: int)
    requires HandlerHistory(c, parts)
    requires var b := CircuitBreakers.After(c, FRESH, Joined(parts)); b.mode.HalfOpen? && b.successes == 0
    ensures Next(c, CircuitBreakers.After(c, FRESH, Joined(parts)), FailedAt(true, now)).mode.Open?
  {
    HandlerHistoryIsDisciplined(c, parts);
    HalfOpenFailureReopens(c, Joined(parts), now);
  }

  lemma GateLeavesItUsable(c: Config, b: Breaker, now: int)
    requires Allows(c, b, now)
    ensures !Next(c, b, Asked(now)).mode.Open?
  {
  }
}
