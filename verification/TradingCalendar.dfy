/**
 * Market hours and open-time arithmetic. Instants are integer microseconds; a sessioned
 * calendar is a finite schedule of half-open sessions, which may touch but not overlap.
 */
module TradingCalendar {
  import opened Wrappers

  datatype Session = Session(open: int, close: int)

  /** Sessions are nonempty and in order; one may open at the instant the previous closes. */
  ghost predicate Schedule(s: seq<Session>) {
    && (forall i | 0 <= i < |s| :: s[i].open < s[i].close)
    && (forall i, j | 0 <= i < j < |s| :: s[i].close <= s[j].open)
  }

  datatype Calendar = AlwaysOpen | Sessions(sessions: seq<Session>) {
    ghost predicate Valid() {
      Sessions? ==> Schedule(sessions)
    }

    predicate IsOpen(t: int) {
      AlwaysOpen? || exists i | 0 <= i < |sessions| :: sessions[i].open <= t < sessions[i].close
    }

    /** The earliest open strictly after `t`, if any. */
    function NextOpen(t: int): (r: Option<int>)
      requires Valid()
      ensures AlwaysOpen? ==> r.None?
      ensures Sessions? && r.Some? ==>
                r.value > t && (exists i | 0 <= i < |sessions| :: sessions[i].open == r.value)
                && (forall i | 0 <= i < |sessions| && sessions[i].open > t :: r.value <= sessions[i].open)
      ensures Sessions? && r.None? ==> forall i | 0 <= i < |sessions| :: sessions[i].open <= t
    {
      if AlwaysOpen? then None else FirstOpen(sessions, t)
    }

    /** The earliest close strictly after `t`, if any. */
    function NextClose(t: int): (r: Option<int>)
      requires Valid()
      ensures AlwaysOpen? ==> r.None?
      ensures Sessions? && r.Some? ==>
                r.value > t && (exists i | 0 <= i < |sessions| :: sessions[i].close == r.value)
                && (forall i | 0 <= i < |sessions| && sessions[i].close > t :: r.value <= sessions[i].close)
      ensures Sessions? && r.None? ==> forall i | 0 <= i < |sessions| :: sessions[i].close <= t
    {
      if AlwaysOpen? then None else FirstClose(sessions, t)
    }
  }

  function FirstOpen(s: seq<Session>, t: int): (r: Option<int>)
    requires Schedule(s)
    ensures r.Some? ==>
              r.value > t && (exists i | 0 <= i < |s| :: s[i].open == r.value)
              && (forall i | 0 <= i < |s| && s[i].open > t :: r.value <= s[i].open)
    ensures r.None? ==> forall i | 0 <= i < |s| :: s[i].open <= t
  {
    if s == [] then None else if s[0].open > t then Some(s[0].open) else FirstOpen(s[1..], t)
  }

  function FirstClose(s: seq<Session>, t: int): (r: Option<int>)
    requires Schedule(s)
    ensures r.Some? ==>
              r.value > t && (exists i | 0 <= i < |s| :: s[i].close == r.value)
              && (forall i | 0 <= i < |s| && s[i].close > t :: r.value <= s[i].close)
    ensures r.None? ==> forall i | 0 <= i < |s| :: s[i].close <= t
  {
    if s == [] then None else if s[0].close > t then Some(s[0].close) else FirstClose(s[1..], t)
  }

  // ---------------------------------------------------------------- the open-time measure

  /** How many of the instants from `a` up to but not including `b` the market is open at. */
  function OpenTime(cal: Calendar, a: int, b: int): nat
    decreases b - a
  {
    if b <= a then 0 else OpenTime(cal, a, b - 1) + if cal.IsOpen(b - 1) then 1 else 0
  }

  /** `x` is the earliest instant at which exactly `d` of open time has passed since `s`. */
  ghost predicate Lands(cal: Calendar, s: int, d: int, x: int) {
    && s <= x
    && OpenTime(cal, s, x) == d
    && forall y | s <= y < x :: OpenTime(cal, s, y) < d
  }

  /** However long one waits from `s`, less than `d` of open time passes. */
  ghost predicate OutOfSchedule(cal: Calendar, s: int, d: int) {
    forall y | s <= y :: OpenTime(cal, s, y) < d
  }

  lemma {:induction false} OpenTimeSplit(cal: Calendar, a: int, b: int, c: int)
    requires a <= b <= c
    ensures OpenTime(cal, a, c) == OpenTime(cal, a, b) + OpenTime(cal, b, c)
    decreases c - b
  {
    if b < c {
      OpenTimeSplit(cal, a, b, c - 1);
    }
  }

  lemma {:induction false} OpenStretch(cal: Calendar, a: int, b: int)
    requires a <= b && forall t | a <= t < b :: cal.IsOpen(t)
    ensures OpenTime(cal, a, b) == b - a
    decreases b - a
  {
    if a < b {
      OpenStretch(cal, a, b - 1);
    }
  }

  lemma {:induction false} ClosedStretch(cal: Calendar, a: int, b: int)
    requires a <= b && forall t | a <= t < b :: !cal.IsOpen(t)
    ensures OpenTime(cal, a, b) == 0
    decreases b - a
  {
    if a < b {
      ClosedStretch(cal, a, b - 1);
    }
  }

  // ---------------------------------------------------------------- what the boundaries mean

  lemma ClosedUntilNextOpen(cal: Calendar, t: int)
    requires cal.Valid() && cal.Sessions? && !cal.IsOpen(t)
    ensures var r := cal.NextOpen(t);
            && (r.Some? ==> cal.IsOpen(r.value) && forall u | t <= u < r.value :: !cal.IsOpen(u))
            && (r.None? ==> forall u | t <= u :: !cal.IsOpen(u))
  {
  }

  lemma OpenUntilNextClose(cal: Calendar, t: int)
    requires cal.Valid() && cal.Sessions? && cal.IsOpen(t)
    ensures var r := cal.NextClose(t);
            && r.Some? && (forall u | t <= u < r.value :: cal.IsOpen(u))
            && (cal.IsOpen(r.value) <==> exists i | 0 <= i < |cal.sessions| :: cal.sessions[i].open == r.value)
  {
    var i :| 0 <= i < |cal.sessions| && cal.sessions[i].open <= t < cal.sessions[i].close;
    assert cal.sessions[i].close > t;
  }

  // ---------------------------------------------------------------- the loop

  /** Sessions that still close after `t`; the loop's progress. */
  function Remaining(s: seq<Session>, t: int): nat {
    if s == [] then 0 else (if s[0].close > t then 1 else 0) + Remaining(s[1..], t)
  }

  lemma {:induction false} RemainingShrinks(s: seq<Session>, t: int, u: int, i: nat)
    requires t <= u && i < |s| && t < s[i].close <= u
    ensures Remaining(s, u) < Remaining(s, t)
    decreases |s|
  {
    if i > 0 {
      RemainingShrinks(s[1..], t, u, i - 1);
    } else {
      RemainingMonotone(s[1..], t, u);
    }
  }

  lemma {:induction false} RemainingMonotone(s: seq<Session>, t: int, u: int)
    requires t <= u
    ensures Remaining(s, u) <= Remaining(s, t)
  {
    if s != [] {
      RemainingMonotone(s[1..], t, u);
    }
  }

  lemma StartsAtZero(cal: Calendar, s: int)
    ensures OpenTime(cal, s, s) == 0
  {
  }

  lemma LandInStretch(cal: Calendar, s: int, cursor: int, remaining: int, duration: int)
    requires s <= cursor && 0 < remaining
    requires OpenTime(cal, s, cursor) == duration - remaining
    requires forall t | cursor <= t < cursor + remaining :: cal.IsOpen(t)
    ensures Lands(cal, s, duration, cursor + remaining)
  {
    var x := cursor + remaining;
    OpenTimeSplit(cal, s, cursor, x);
    OpenStretch(cal, cursor, x);
    forall y | s <= y < x ensures OpenTime(cal, s, y) < duration {
      if y <= cursor {
        OpenTimeSplit(cal, s, y, cursor);
      } else {
        OpenTimeSplit(cal, s, cursor, y);
        OpenStretch(cal, cursor, y);
      }
    }
  }

  lemma NeverLands(cal: Calendar, s: int, cursor: int, d: int)
    requires s <= cursor && OpenTime(cal, s, cursor) < d
    requires forall u | cursor <= u :: !cal.IsOpen(u)
    ensures OutOfSchedule(cal, s, d)
  {
    forall y | s <= y ensures OpenTime(cal, s, y) < d {
      if y <= cursor {
        OpenTimeSplit(cal, s, y, cursor);
      } else {
        OpenTimeSplit(cal, s, cursor, y);
        ClosedStretch(cal, cursor, y);
      }
    }
  }

  /**
   * `advance_by_open_time`. The result is the exact landing instant; the call fails exactly
   * when the duration is negative or the schedule holds less than that much open time.
   */
  method AdvanceByOpenTime(cal: Calendar, start: int, duration: int) returns (r: Result<int>)
    requires cal.Valid()
    ensures r.Success? ==> Lands(cal, start, duration, r.value)
    ensures r.Failure? ==> duration < 0 || OutOfSchedule(cal, start, duration)
  {
    if duration < 0 {
      return Failure("Open-session duration must be non-negative");
    }
    hide OpenTime, OutOfSchedule;
    StartsAtZero(cal, start);
    var cursor, remaining := start, duration;
    while remaining > 0
      invariant start <= cursor && 0 <= remaining
      invariant OpenTime(cal, start, cursor) == duration - remaining
      invariant remaining == 0 ==> cursor == start
      decreases if cal.AlwaysOpen? then 0 else Remaining(cal.sessions, cursor), if cal.IsOpen(cursor) then 0 else 1
    {
      if !cal.IsOpen(cursor) {
        var nextOpen := cal.NextOpen(cursor);
        ClosedUntilNextOpen(cal, cursor);
        if nextOpen.None? {
          NeverLands(cal, start, cursor, duration);
          return Failure("Calendar is closed and has no next open");
        }
        OpenTimeSplit(cal, start, cursor, nextOpen.value);
        ClosedStretch(cal, cursor, nextOpen.value);
        RemainingMonotone(cal.sessions, cursor, nextOpen.value);
        cursor := nextOpen.value;
        continue;
      }
      var nextClose := cal.NextClose(cursor);
      if nextClose.None? {
        if cal.Sessions? {
          OpenUntilNextClose(cal, cursor);
        }
        LandInStretch(cal, start, cursor, remaining, duration);
        return Success(cursor + remaining);
      }
      OpenUntilNextClose(cal, cursor);
      var openSpan := nextClose.value - cursor;
      if remaining <= openSpan {
        LandInStretch(cal, start, cursor, remaining, duration);
        return Success(cursor + remaining);
      }
      OpenTimeSplit(cal, start, cursor, nextClose.value);
      OpenStretch(cal, cursor, nextClose.value);
      var i :| 0 <= i < |cal.sessions| && cal.sessions[i].close == nextClose.value;
      RemainingShrinks(cal.sessions, cursor, nextClose.value, i);
      remaining := remaining - openSpan;
      cursor := nextClose.value;
    }
    return Success(cursor);
  }

  // ---------------------------------------------------------------- laws of the landing

  /** The two outcomes of an advance exclude each other, and one of them always applies. */
  lemma LandsOrRunsOut(cal: Calendar, s: int, d: int)
    requires 0 <= d
    ensures OutOfSchedule(cal, s, d) <==> !exists x :: Lands(cal, s, d, x)
  {
    if !OutOfSchedule(cal, s, d) {
      var y :| s <= y && OpenTime(cal, s, y) >= d;
      var x := LandsOnTheWay(cal, s, y, d);
    }
  }

  lemma LandingIsUnique(cal: Calendar, s: int, d: int, x: int, y: int)
    requires Lands(cal, s, d, x) && Lands(cal, s, d, y)
    ensures x == y
  {
  }

  lemma {:induction false} OpenTimeMonotone(cal: Calendar, s: int, x: int, y: int)
    requires s <= x <= y
    ensures OpenTime(cal, s, x) <= OpenTime(cal, s, y)
  {
    OpenTimeSplit(cal, s, x, y);
  }

  /** Any amount of open time up to what has passed is landed on along the way. */
  lemma {:induction false} LandsOnTheWay(cal: Calendar, s: int, y: int, d: int) returns (x: int)
    requires s <= y && 0 <= d <= OpenTime(cal, s, y)
    ensures s <= x <= y && Lands(cal, s, d, x)
    decreases y - s
  {
    if d == 0 {
      x := s;
    } else if OpenTime(cal, s, y - 1) >= d {
      x := LandsOnTheWay(cal, s, y - 1, d);
    } else {
      x := y;
      forall z | s <= z < y ensures OpenTime(cal, s, z) < d {
        OpenTimeMonotone(cal, s, z, y - 1);
      }
    }
  }

  lemma Compose(cal: Calendar, s: int, a: int, x: int, b: int, y: int)
    requires 0 <= a && 0 <= b && Lands(cal, s, a, x) && Lands(cal, x, b, y)
    ensures Lands(cal, s, a + b, y)
  {
    OpenTimeSplit(cal, s, x, y);
    forall z | s <= z < y ensures OpenTime(cal, s, z) < a + b {
      if z >= x {
        OpenTimeSplit(cal, s, x, z);
      }
    }
  }

  /**
   * Advancing is an action of durations: two advances in a row land where their sum does,
   * and whenever the sum can be landed, so can the two steps.
   */
  lemma AdvanceIsAnAction(cal: Calendar, s: int, a: int, b: int, y: int)
    requires 0 <= a && 0 <= b
    ensures Lands(cal, s, a + b, y) <==> exists x :: Lands(cal, s, a, x) && Lands(cal, x, b, y)
  {
    if x :| Lands(cal, s, a, x) && Lands(cal, x, b, y) {
      Compose(cal, s, a, x, b, y);
    }
    if Lands(cal, s, a + b, y) {
      var x := LandsOnTheWay(cal, s, y, a);
      OpenTimeSplit(cal, s, x, y);
      forall z | x <= z < y ensures OpenTime(cal, x, z) < b {
        OpenTimeSplit(cal, s, x, z);
      }
      assert Lands(cal, x, b, y);
    }
  }

  /** A later start or a longer duration never lands earlier. */
  lemma AdvanceIsMonotone(cal: Calendar, s: int, d: int, x: int, s': int, d': int, x': int)
    requires s <= s' && 0 <= d <= d' && Lands(cal, s, d, x) && Lands(cal, s', d', x')
    ensures x <= x'
  {
    if x' < x {
      OpenTimeSplit(cal, s, s', x');
    }
  }

  /** Around the clock, open-time arithmetic is ordinary arithmetic. */
  lemma AlwaysOpenIsAddition(s: int, d: int, x: int)
    requires 0 <= d
    ensures Lands(AlwaysOpen, s, d, x) <==> x == s + d
  {
    OpenStretch(AlwaysOpen, s, s + d);
    forall y | s <= y < s + d ensures OpenTime(AlwaysOpen, s, y) < d {
      OpenStretch(AlwaysOpen, s, y);
    }
    if Lands(AlwaysOpen, s, d, x) {
      LandingIsUnique(AlwaysOpen, s, d, x, s + d);
    }
  }
}
