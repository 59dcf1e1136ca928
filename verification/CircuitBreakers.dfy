/** The three-state circuit breaker, as an object and as a function of its event history. */
module CircuitBreakers {
  import opened Wrappers

  datatype Mode = Closed | Open | HalfOpen

  datatype Config = Config(threshold: int, timeout: int)

  /** The breaker's fields. */
  datatype Breaker = Breaker(mode: Mode, failures: int, lastFailure: Option<int>, successes: int)

  const SUCCESSES_TO_CLOSE := 3

  const FRESH := Breaker(Closed, 0, None, 0)

  datatype Event =
    | Succeeded
    | FailedAt(expected: bool, now: int)
    | Asked(now: int)
    | Reset

  /** Does the gate let a call through at `now`? */
  predicate Allows(c: Config, b: Breaker, now: int) {
    match b.mode
    case Closed => true
    case Open => b.lastFailure.Some? && now - b.lastFailure.value > c.timeout
    case HalfOpen => true
  }

  function Next(c: Config, b: Breaker, e: Event): Breaker {
    match e
    case Succeeded =>
      if !b.mode.HalfOpen? then b.(failures := 0)
      else if b.successes + 1 >= SUCCESSES_TO_CLOSE then b.(failures := 0, mode := Closed, successes := 0)
      else b.(failures := 0, successes := b.successes + 1)
    case FailedAt(expected, now) =>
      if !expected then b
      else b.(failures := b.failures + 1, lastFailure := Some(now),
              mode := if b.failures + 1 >= c.threshold then Open else b.mode)
    case Asked(now) =>
      if b.mode.Open? && Allows(c, b, now) then b.(mode := HalfOpen, successes := 0) else b
    case Reset => b.(mode := Closed, failures := 0, successes := 0)
  }

  class CircuitBreaker {
    const config: Config
    var mode: Mode
    var failureCount: int
    var lastFailureTime: Option<int>
    var successCount: int

    function View(): Breaker
      reads this
    {
      Breaker(mode, failureCount, lastFailureTime, successCount)
    }

    constructor (config: Config)
      ensures this.config == config && View() == FRESH
    {
      this.config := config;
      mode, failureCount, lastFailureTime, successCount := Closed, 0, None, 0;
    }

    method RecordSuccess()
      modifies this
      ensures View() == Next(config, old(View()), Succeeded)
    {
      failureCount := 0;
      if mode == HalfOpen {
        successCount := successCount + 1;
        if successCount >= SUCCESSES_TO_CLOSE {
          mode := Closed;
          successCount := 0;
        }
      }
    }

    method RecordFailure(expected: bool, now: int)
      modifies this
      ensures View() == Next(config, old(View()), FailedAt(expected, now))
    {
      if !expected {
        return;
      }
      failureCount := failureCount + 1;
      lastFailureTime := Some(now);
      if failureCount >= config.threshold {
        mode := Open;
      }
    }

    method ShouldAttemptCall(now: int) returns (allowed: bool)
      modifies this
      ensures allowed == Allows(config, old(View()), now)
      ensures View() == Next(config, old(View()), Asked(now))
    {
      if mode == Closed {
        return true;
      }
      if mode == Open {
        if lastFailureTime.Some? {
          var elapsed := now - lastFailureTime.value;
          if elapsed > config.timeout {
            mode := HalfOpen;
            successCount := 0;
            return true;
          }
        }
        return false;
      }
      return true;
    }

    method ResetBreaker()
      modifies this
      ensures View() == Next(config, old(View()), Reset)
    {
      mode := Closed;
      failureCount := 0;
      successCount := 0;
    }
  }

  // ---------------------------------------------------------------- histories

  function After(c: Config, b: Breaker, events: seq<Event>): Breaker {
    if events == [] then b else Next(c, After(c, b, events[..|events| - 1]), events[|events| - 1])
  }

  lemma {:induction false} AfterConcat(c: Config, b: Breaker, x: seq<Event>, y: seq<Event>)
    ensures After(c, b, x + y) == After(c, After(c, b, x), y)
  {
    if y == [] {
      assert x + y == x;
    } else {
      assert (x + y)[..|x + y| - 1] == x + y[..|y| - 1];
      AfterConcat(c, b, x, y[..|y| - 1]);
    }
  }

  /** Expected failures since the last success or reset. */
  function RecentFailures(events: seq<Event>): nat {
    if events == [] then 0
    else match events[|events| - 1]
      case Succeeded => 0
      case Reset => 0
      case FailedAt(expected, _) => RecentFailures(events[..|events| - 1]) + if expected then 1 else 0
      case Asked(_) => RecentFailures(events[..|events| - 1])
  }

  function LastFailureIn(events: seq<Event>): Option<int> {
    if events == [] then None
    else match events[|events| - 1]
      case FailedAt(true, now) => Some(now)
      case _ => LastFailureIn(events[..|events| - 1])
  }

  function CountSuccesses(events: seq<Event>): nat {
    if events == [] then 0
    else CountSuccesses(events[..|events| - 1]) + if events[|events| - 1].Succeeded? then 1 else 0
  }

  /** The breaker went half-open with event `i` and has been half-open ever since. */
  ghost predicate HalfOpenSince(c: Config, events: seq<Event>, i: nat) {
    && i < |events|
    && After(c, FRESH, events[..i]).mode.Open?
    && forall j | i < j <= |events| :: After(c, FRESH, events[..j]).mode.HalfOpen?
  }

  function Max(a: int, b: int): int {
    if a >= b then a else b
  }

  /**
   * What the fields mean, for every history: the failure counter counts, a closed breaker
   * is below its threshold, an open one knows when it last failed, and a half-open one has
   * counted the successes of its current period.
   */
  ghost predicate Explains(c: Config, events: seq<Event>, b: Breaker) {
    && b.failures == RecentFailures(events)
    && b.lastFailure == LastFailureIn(events)
    && (b.mode.Closed? ==> b.failures < Max(1, c.threshold) && b.successes == 0)
    && (b.mode.Open? ==> b.lastFailure.Some?)
    && (b.mode.HalfOpen? ==> b.successes < 3 && b.lastFailure.Some?)
    && (b.mode.HalfOpen? ==> exists i :: HalfOpenSince(c, events, i) && b.successes == CountSuccesses(events[i + 1..]))
  }

  lemma StillHalfOpen(c: Config, events: seq<Event>, e: Event, i: nat)
    requires HalfOpenSince(c, events, i) && After(c, FRESH, events + [e]).mode.HalfOpen?
    ensures HalfOpenSince(c, events + [e], i)
    ensures CountSuccesses((events + [e])[i + 1..]) == CountSuccesses(events[i + 1..]) + if e.Succeeded? then 1 else 0
  {
    hide After;
    var more := events + [e];
    assert more[..i] == events[..i];
    forall j | i < j <= |more| ensures After(c, FRESH, more[..j]).mode.HalfOpen? {
      assert j < |more| ==> more[..j] == events[..j];
      assert j == |more| ==> more[..j] == more;
    }
    assert more[i + 1..] == events[i + 1..] + [e];
    assert more[i + 1..][..|more[i + 1..]| - 1] == events[i + 1..];
  }

  lemma EnteredHalfOpen(c: Config, events: seq<Event>, e: Event)
    requires After(c, FRESH, events).mode.Open? && After(c, FRESH, events + [e]).mode.HalfOpen?
    ensures HalfOpenSince(c, events + [e], |events|)
    ensures CountSuccesses((events + [e])[|events| + 1..]) == 0
  {
    var more := events + [e];
    assert more[..|events|] == events && more[..|more|] == more;
    assert more[|events| + 1..] == [];
  }

  lemma ExplainStep(c: Config, events: seq<Event>, e: Event)
    requires Explains(c, events, After(c, FRESH, events))
    ensures Explains(c, events + [e], After(c, FRESH, events + [e]))
  {
    var b, more := After(c, FRESH, events), events + [e];
    assert more[..|more| - 1] == events;
    var n := After(c, FRESH, more);
    assert n == Next(c, b, e);
    if n.mode.HalfOpen? {
      if b.mode.HalfOpen? {
        var i :| HalfOpenSince(c, events, i) && b.successes == CountSuccesses(events[i + 1..]);
        StillHalfOpen(c, events, e, i);
        assert HalfOpenSince(c, more, i) && n.successes == CountSuccesses(more[i + 1..]);
      } else {
        EnteredHalfOpen(c, events, e);
        assert HalfOpenSince(c, more, |events|) && n.successes == CountSuccesses(more[|events| + 1..]);
      }
    }
  }

  /** Over every run of successes, failures, gate checks and resets, the fields mean what they say. */
  lemma {:induction false} HistoryExplains(c: Config, events: seq<Event>)
    ensures Explains(c, events, After(c, FRESH, events))
  {
    if events != [] {
      var init := events[..|events| - 1];
      HistoryExplains(c, init);
      ExplainStep(c, init, events[|events| - 1]);
      assert events == init + [events[|events| - 1]];
    }
  }

  /** An open breaker can always recover: once the timeout has passed the gate half-opens it. */
  lemma OpenRecovers(c: Config, events: seq<Event>)
    requires After(c, FRESH, events).mode.Open?
    ensures LastFailureIn(events).Some?
    ensures forall now | now > LastFailureIn(events).value + c.timeout ::
              var b := After(c, FRESH, events);
              Allows(c, b, now) && Next(c, b, Asked(now)).mode.HalfOpen?
  {
    HistoryExplains(c, events);
  }

  /**
   * The gate over every history: it is shut exactly while the breaker is open and no more than
   * the timeout has passed since the last expected failure; asking half-opens it otherwise.
   */
  lemma GateShutExactlyWhen(c: Config, events: seq<Event>, now: int)
    ensures var b, last := After(c, FRESH, events), LastFailureIn(events);
            && (b.mode.Open? ==> last.Some?)
            && (Allows(c, b, now) <==> b.mode.Open? ==> now > last.value + c.timeout)
            && Next(c, b, Asked(now)).mode == if b.mode.Open? && Allows(c, b, now) then HalfOpen else b.mode
  {
    HistoryExplains(c, events);
  }

  /** Over every history, a success closes the breaker exactly when it is the third of a half-open period. */
  lemma SuccessClosesExactlyWhen(c: Config, events: seq<Event>)
    ensures var b := After(c, FRESH, events);
            Next(c, b, Succeeded).mode.Closed? <==>
            || b.mode.Closed?
            || exists i :: HalfOpenSince(c, events, i) && CountSuccesses(events[i + 1..]) == 2
  {
    HistoryExplains(c, events);
    if i :| HalfOpenSince(c, events, i) {
      assert events[..|events|] == events;
      forall j | HalfOpenSince(c, events, j) ensures j == i {
        SincePinned(c, events, i, j);
      }
    }
  }

  lemma SincePinned(c: Config, events: seq<Event>, i: nat, j: nat)
    requires HalfOpenSince(c, events, i) && HalfOpenSince(c, events, j)
    ensures i == j
  {
    hide After;
  }

  // ---------------------------------------------------------------- reopening

  /** No success was recorded while the breaker was open. */
  ghost predicate Disciplined(c: Config, events: seq<Event>) {
    forall i | 0 <= i < |events| && events[i].Succeeded? :: !After(c, FRESH, events[..i]).mode.Open?
  }

  lemma {:induction false} CountStaysHigh(c: Config, events: seq<Event>)
    requires Disciplined(c, events)
    ensures var b := After(c, FRESH, events);
            b.mode.Open? || (b.mode.HalfOpen? && b.successes == 0) ==> b.failures >= c.threshold
    ensures After(c, FRESH, events).failures >= 0 && After(c, FRESH, events).successes >= 0
  {
    if events != [] {
      var n := |events| - 1;
      var init := events[..n];
      forall i | 0 <= i < n && init[i].Succeeded? ensures !After(c, FRESH, init[..i]).mode.Open? {
        assert init[..i] == events[..i];
      }
      CountStaysHigh(c, init);
    }
  }

  /**
   * Over every history, an expected failure leaves the breaker open exactly when it was open
   * already or the failures since the last success or reset, this one included, reach the
   * threshold.
   */
  lemma FailureOpensExactlyWhen(c: Config, events: seq<Event>, now: int)
    ensures var b := After(c, FRESH, events);
            Next(c, b, FailedAt(true, now)).mode.Open? <==>
            b.mode.Open? || RecentFailures(events) + 1 >= c.threshold
  {
    HistoryExplains(c, events);
  }

  /** The first expected failure of a half-open period with no success yet reopens at once. */
  lemma HalfOpenFailureReopens(c: Config, events: seq<Event>, now: int)
    requires Disciplined(c, events)
    requires After(c, FRESH, events).mode.HalfOpen? && After(c, FRESH, events).successes == 0
    ensures Next(c, After(c, FRESH, events), FailedAt(true, now)).mode.Open?
  {
    CountStaysHigh(c, events);
    HistoryExplains(c, events);
    FailureOpensExactlyWhen(c, events, now);
  }

  /**
   * Without that discipline it need not: a success recorded while open forgets the failures.
   * Here one failure is left of two, below the exact condition.
   */
  lemma UndisciplinedSuccessDelaysReopening()
    ensures var c := Config(2, 10);
            var events := [FailedAt(true, 0), FailedAt(true, 0), Succeeded, Asked(11)];
            var b := After(c, FRESH, events);
            b.mode.HalfOpen? && b.successes == 0 && Next(c, b, FailedAt(true, 12)).mode.HalfOpen?
  {
    var c := Config(2, 10);
    var e: seq<Event> := [FailedAt(true, 0), FailedAt(true, 0), Succeeded, Asked(11)];
    assert e[..1][..0] == [] && e[..2][..1] == e[..1] && e[..3][..2] == e[..2];
    assert After(c, FRESH, e[..1]) == Breaker(Closed, 1, Some(0), 0);
    assert After(c, FRESH, e[..2]) == Breaker(Open, 2, Some(0), 0);
    assert After(c, FRESH, e[..3]) == Breaker(Open, 0, Some(0), 0);
  }
}
