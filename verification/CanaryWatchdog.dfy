/** The canary watchdog: a saturating red counter and a restart cooldown over repeated polls. */
module CanaryWatchdog {
  import opened Wrappers

  /**
   * What one poll meets: the liveness answer, the clock and how a restart would end (a restart
   * that raises ends like one that returns an error), or a liveness query that raises.
   */
  datatype Poll = Answered(green: bool, now: real, restartOk: bool) | Unreadable

  datatype Settings = Settings(autoRestart: bool, restartAfterReds: int, cooldown: real)

  datatype Decision = Fine | Red | Waiting | CoolingDown | Restarted | RestartFailed | QueryFailed

  datatype Memory = Memory(reds: int, lastRestart: Option<real>)

  function Min(a: int, b: int): int {
    if a <= b then a else b
  }

  class Watchdog {
    const settings: Settings
    var consecutiveReds: int
    var lastRestart: Option<real>

    function View(): Memory
      reads this
    {
      Memory(consecutiveReds, lastRestart)
    }

    constructor (settings: Settings, memory: Memory)
      ensures this.settings == settings && View() == memory
    {
      this.settings := settings;
      consecutiveReds, lastRestart := memory.reds, memory.lastRestart;
    }

    /** `_poll_once`, with the errors `_poll_and_print` catches. */
    method PollOnce(poll: Poll) returns (decision: Decision)
      modifies this
      ensures (View(), decision) == Step(settings, old(View()), poll)
    {
      if poll.Unreadable? {
        return QueryFailed;
      }
      decision := if poll.green then Fine else Red;
      if poll.green {
        consecutiveReds := 0;
      } else {
        consecutiveReds := Min(consecutiveReds + 1, settings.restartAfterReds);
        if settings.autoRestart {
          if consecutiveReds >= settings.restartAfterReds {
            var remaining := 0.0;
            if lastRestart.Some? {
              remaining := settings.cooldown - (poll.now - lastRestart.value);
            }
            if remaining > 0.0 {
              decision := CoolingDown;
            } else if !poll.restartOk {
              decision := RestartFailed;
            } else {
              decision := Restarted;
              consecutiveReds := 0;
              lastRestart := Some(poll.now);
            }
          } else {
            decision := Waiting;
          }
        }
      }
    }
  }

  /** The cooldown since the last recorded restart has passed. */
  predicate Cooled(s: Settings, m: Memory, now: real) {
    m.lastRestart.None? || now >= m.lastRestart.value + s.cooldown
  }

  function Step(s: Settings, m: Memory, p: Poll): (Memory, Decision) {
    if p.Unreadable? then (m, QueryFailed)
    else if p.green then (m.(reds := 0), Fine)
    else
      var reds := Min(m.reds + 1, s.restartAfterReds);
      if !s.autoRestart then (m.(reds := reds), Red)
      else if reds < s.restartAfterReds then (m.(reds := reds), Waiting)
      else if !Cooled(s, m, p.now) then (m.(reds := reds), CoolingDown)
      else if !p.restartOk then (m.(reds := reds), RestartFailed)
      else (Memory(0, Some(p.now)), Restarted)
  }

  // ---------------------------------------------------------------- runs of polls

  function After(s: Settings, m: Memory, polls: seq<Poll>): Memory {
    if polls == [] then m else Step(s, After(s, m, polls[..|polls| - 1]), polls[|polls| - 1]).0
  }

  function DecisionAt(s: Settings, m: Memory, polls: seq<Poll>, i: nat): Decision
    requires i < |polls|
  {
    Step(s, After(s, m, polls[..i]), polls[i]).1
  }

  lemma AfterNext(s: Settings, m: Memory, polls: seq<Poll>, i: nat)
    requires i < |polls|
    ensures After(s, m, polls[..i + 1]) == Step(s, After(s, m, polls[..i]), polls[i]).0
  {
    assert polls[..i + 1][..i] == polls[..i];
  }

  predicate Failed(d: Decision) {
    d.RestartFailed? || d.QueryFailed?
  }

  /** The poll loop of `main`: it ends at the first failed restart or liveness query. */
  method Watch(w: Watchdog, polls: seq<Poll>) returns (polled: nat, failed: bool)
    modifies w
    ensures polled <= |polls| && w.View() == After(w.settings, old(w.View()), polls[..polled])
    ensures failed <==> polled > 0 && Failed(DecisionAt(w.settings, old(w.View()), polls, polled - 1))
    ensures !failed ==> polled == |polls|
    ensures forall i | 0 <= i < polled - 1 :: !Failed(DecisionAt(w.settings, old(w.View()), polls, i))
  {
    polled, failed := 0, false;
    while polled < |polls| && !failed
      invariant polled <= |polls| && w.View() == After(w.settings, old(w.View()), polls[..polled])
      invariant failed <==> polled > 0 && Failed(DecisionAt(w.settings, old(w.View()), polls, polled - 1))
      invariant forall i | 0 <= i < polled - 1 :: !Failed(DecisionAt(w.settings, old(w.View()), polls, i))
      decreases |polls| - polled, !failed
    {
      AfterNext(w.settings, old(w.View()), polls, polled);
      var decision := w.PollOnce(polls[polled]);
      failed := Failed(decision);
      polled := polled + 1;
    }
  }

  /** Red polls since the last green one or successful restart. */
  function RecentReds(s: Settings, m: Memory, polls: seq<Poll>): nat {
    if polls == [] then 0
    else
      var n := |polls| - 1;
      if polls[n].Unreadable? then RecentReds(s, m, polls[..n])
      else if polls[n].green || DecisionAt(s, m, polls, n).Restarted? then 0
      else RecentReds(s, m, polls[..n]) + 1
  }

  /** The counter is the number of recent reds, saturated at the threshold, whatever that is. */
  lemma {:induction false} CounterCountsReds(s: Settings, last: Option<real>, polls: seq<Poll>)
    ensures var recent := RecentReds(s, Memory(0, last), polls);
            After(s, Memory(0, last), polls).reds == if recent == 0 then 0 else Min(recent, s.restartAfterReds)
  {
    if polls != [] {
      CounterCountsReds(s, last, polls[..|polls| - 1]);
    }
  }

  /** A restart is attempted exactly when enough reds have come in a row and the cooldown is over. */
  lemma RestartsOnlyWhenDue(s: Settings, last: Option<real>, polls: seq<Poll>, i: nat)
    requires i < |polls|
    ensures var m := Memory(0, last);
            DecisionAt(s, m, polls, i).Restarted? || DecisionAt(s, m, polls, i).RestartFailed? <==>
            && s.autoRestart && polls[i].Answered? && !polls[i].green
            && RecentReds(s, m, polls[..i]) + 1 >= s.restartAfterReds
            && Cooled(s, After(s, m, polls[..i]), polls[i].now)
  {
    CounterCountsReds(s, last, polls[..i]);
  }

  /** Recorded restarts at polls `i <= k < j`. */
  function Restarts(s: Settings, m: Memory, polls: seq<Poll>, i: nat, j: nat): nat
    requires i <= j <= |polls|
  {
    if i == j then 0
    else Restarts(s, m, polls, i, j - 1) + if DecisionAt(s, m, polls, j - 1).Restarted? then 1 else 0
  }

  /** The restart time on record stays until a restart replaces it. */
  lemma {:induction false} RecordStays(s: Settings, m: Memory, polls: seq<Poll>, i: nat, j: nat)
    requires i <= j <= |polls| && Restarts(s, m, polls, i, j) == 0
    ensures After(s, m, polls[..j]).lastRestart == After(s, m, polls[..i]).lastRestart
    decreases j
  {
    if i < j {
      AfterNext(s, m, polls, j - 1);
      RecordStays(s, m, polls, i, j - 1);
    }
  }

  /** `time` is when the last restart before poll `i` was, or the time loaded at the start if none was. */
  ghost predicate LastRestartWas(s: Settings, m: Memory, polls: seq<Poll>, i: nat, time: Option<real>)
    requires i <= |polls|
  {
    || (Restarts(s, m, polls, 0, i) == 0 && time == m.lastRestart)
    || exists k | 0 <= k < i ::
         && DecisionAt(s, m, polls, k).Restarted? && Restarts(s, m, polls, k + 1, i) == 0
         && polls[k].Answered? && time == Some(polls[k].now)
  }

  lemma {:induction false} RecordIsLast(s: Settings, m: Memory, polls: seq<Poll>, i: nat)
    requires i <= |polls|
    ensures LastRestartWas(s, m, polls, i, After(s, m, polls[..i]).lastRestart)
  {
    if i == 0 {
      assert polls[..0] == [];
    } else {
      hide After;
      RecordIsLast(s, m, polls, i - 1);
      AfterNext(s, m, polls, i - 1);
      if DecisionAt(s, m, polls, i - 1).Restarted? {
        assert Restarts(s, m, polls, i - 1 + 1, i) == 0;
      } else if Restarts(s, m, polls, 0, i) != 0 {
        var time := After(s, m, polls[..i - 1]).lastRestart;
        var k :| 0 <= k < i - 1 && DecisionAt(s, m, polls, k).Restarted? && Restarts(s, m, polls, k + 1, i - 1) == 0
          && polls[k].Answered? && time == Some(polls[k].now);
        assert Restarts(s, m, polls, k + 1, i) == 0;
      }
    }
  }

  /** The time on record is the time of the last restart, and no other. */
  lemma LastRestartIsKnown(s: Settings, m: Memory, polls: seq<Poll>, i: nat, time: Option<real>)
    requires i <= |polls|
    ensures LastRestartWas(s, m, polls, i, time) <==> After(s, m, polls[..i]).lastRestart == time
  {
    RecordIsLast(s, m, polls, i);
    if LastRestartWas(s, m, polls, i, time) {
      RestartIsOnRecord(s, m, polls, i, time);
    }
  }

  lemma RestartIsOnRecord(s: Settings, m: Memory, polls: seq<Poll>, i: nat, time: Option<real>)
    requires i <= |polls| && LastRestartWas(s, m, polls, i, time)
    ensures After(s, m, polls[..i]).lastRestart == time
  {
    if Restarts(s, m, polls, 0, i) == 0 && time == m.lastRestart {
      RecordStays(s, m, polls, 0, i);
      assert polls[..0] == [];
    } else {
      var k :| 0 <= k < i && DecisionAt(s, m, polls, k).Restarted? && Restarts(s, m, polls, k + 1, i) == 0
        && polls[k].Answered? && time == Some(polls[k].now);
      AfterNext(s, m, polls, k);
      RecordStays(s, m, polls, k + 1, i);
    }
  }

  /**
   * What every poll decides, in terms of the polls alone. `time` is the last restart before it;
   * a restart is due at every red poll that completes the count, and it is attempted unless
   * less than the cooldown has passed.
   */
  lemma DecisionMeans(s: Settings, last: Option<real>, polls: seq<Poll>, i: nat, time: Option<real>)
    requires i < |polls| && LastRestartWas(s, Memory(0, last), polls, i, time)
    ensures var p, recent := polls[i], RecentReds(s, Memory(0, last), polls[..i]);
            DecisionAt(s, Memory(0, last), polls, i) ==
            if p.Unreadable? then QueryFailed
            else if p.green then Fine
            else if !s.autoRestart then Red
            else if recent + 1 < s.restartAfterReds then Waiting
            else if time.Some? && p.now < time.value + s.cooldown then CoolingDown
            else if p.restartOk then Restarted
            else RestartFailed
  {
    CounterCountsReds(s, last, polls[..i]);
    LastRestartIsKnown(s, Memory(0, last), polls, i, time);
  }

  function Cooldowns(s: Settings, n: nat): real {
    s.cooldown * n as real
  }

  lemma CooldownsAdd(s: Settings, n: nat)
    ensures Cooldowns(s, 0) == 0.0 && Cooldowns(s, n + 1) == Cooldowns(s, n) + s.cooldown
    ensures s.cooldown >= 0.0 ==> Cooldowns(s, n) >= 0.0
  {
  }

  /** After a recorded restart, the one on record is a cooldown later for each restart since. */
  lemma {:induction false} LastRestartIsRecorded(s: Settings, m: Memory, polls: seq<Poll>, i: nat, j: nat)
    requires i < j <= |polls| && DecisionAt(s, m, polls, i).Restarted?
    ensures var last, since := After(s, m, polls[..j]).lastRestart, Restarts(s, m, polls, i + 1, j);
            last.Some? && last.value >= polls[i].now + Cooldowns(s, since)
    decreases j
  {
    hide Cooldowns, After;
    AfterNext(s, m, polls, j - 1);
    if i + 1 < j {
      LastRestartIsRecorded(s, m, polls, i, j - 1);
      CooldownsAdd(s, Restarts(s, m, polls, i + 1, j - 1));
    } else {
      CooldownsAdd(s, 0);
    }
  }

  /**
   * However the clock moves, and whatever the cooldown, a restart comes a cooldown after an
   * earlier one, and another for each restart in between; with a cooldown that is not negative,
   * any two are at least a cooldown apart.
   */
  lemma RestartsAreSpaced(s: Settings, m: Memory, polls: seq<Poll>, i: nat, j: nat)
    requires i < j < |polls|
    requires DecisionAt(s, m, polls, i).Restarted? && DecisionAt(s, m, polls, j).Restarted?
    ensures polls[j].now >= polls[i].now + Cooldowns(s, Restarts(s, m, polls, i + 1, j) + 1)
    ensures Restarts(s, m, polls, i + 1, j) == 0 || s.cooldown >= 0.0 ==> polls[j].now >= polls[i].now + s.cooldown
  {
    hide Cooldowns, After;
    LastRestartIsRecorded(s, m, polls, i, j);
    CooldownsAdd(s, Restarts(s, m, polls, i + 1, j));
  }
}
