/**
 * Whole runs of the status protocol, step by step: which read every post on the queue commit
 * stands for, and the verdict that is left once everyone has finished.
 */
module StatusRuns {
  import opened Wrappers
  import opened StatusProtocol

  /** Where a kind of step was last taken, or -1. */
  function LastTaken(done: seq<Step>, s: Step): (r: int)
    ensures -1 <= r < |done| && (r >= 0 ==> done[r] == s)
    ensures forall k | r < k < |done| :: done[k] != s
  {
    if done == [] then -1
    else if done[|done| - 1] == s then |done| - 1
    else LastTaken(done[..|done| - 1], s)
  }

  function Taken(done: seq<Step>, s: Step): nat {
    if done == [] then 0 else Taken(done[..|done| - 1], s) + if done[|done| - 1] == s then 1 else 0
  }

  lemma TakenNext(steps: seq<Step>, i: nat, s: Step)
    requires i < |steps|
    ensures LastTaken(steps[..i + 1], s) == if steps[i] == s then i else LastTaken(steps[..i], s)
    ensures Taken(steps[..i + 1], s) == Taken(steps[..i], s) + if steps[i] == s then 1 else 0
  {
    assert steps[..i + 1][..i] == steps[..i];
  }

  // ---------------------------------------------------------------- what the runs have read

  /** The pull-request run was started for `head` and found it current when it first read. */
  predicate StartedFor(worlds: seq<World>, done: seq<Step>, onQueue: bool, head: Head)
    requires |done| < |worlds|
  {
    var start, list, first := LastTaken(done, PrStart), LastTaken(done, PrList), LastTaken(done, PrFirstRead);
    && 0 <= start < list < first
    && worlds[start].event == Some(head)
    && onQueue == worlds[list].queued
    && worlds[first].pr.eligible && worlds[first].pr.head == head
  }

  /** Everything the pull-request run holds is what its own last steps found. */
  predicate PrExplained(worlds: seq<World>, done: seq<Step>)
    requires |done| < |worlds|
  {
    var start, list := LastTaken(done, PrStart), LastTaken(done, PrList);
    match worlds[|done|].prRun
    case PrIdle => true
    case PrStarted(expected) => 0 <= start && worlds[start].event == Some(expected)
    case PrListed(expected, onQueue) =>
      0 <= start < list && worlds[start].event == Some(expected) && onQueue == worlds[list].queued
    case PrCurrent(onQueue, head) => StartedFor(worlds, done, onQueue, head)
    case PrPended(onQueue, head) => StartedFor(worlds, done, onQueue, head)
    case PrFiled(onQueue, head, _) => StartedFor(worlds, done, onQueue, head)
    case PrJudged(onQueue, again, _) =>
      var second := LastTaken(done, PrSecondRead);
      StartedFor(worlds, done, onQueue, again.head) && 0 <= second && again == worlds[second].pr
  }

  /** Everything the queue run holds is what its last evaluation found; `round` counts its posts. */
  predicate QueueExplained(judge: Judge, worlds: seq<World>, done: seq<Step>)
    requires |done| < |worlds|
  {
    var first, second, posts := LastTaken(done, QFirstRead), LastTaken(done, QSecondRead), Taken(done, QPost);
    match worlds[|done|].queueRun
    case NoQueue => posts == 0
    case QReady(round) => round == posts <= SETTLE_ROUNDS
    case QRead(round, head) => round == posts <= SETTLE_ROUNDS && 0 <= first && head == worlds[first].pr.head
    case QPended(round, head) => round == posts <= SETTLE_ROUNDS && 0 <= first && head == worlds[first].pr.head
    case QFiled(round, head, _) => round == posts <= SETTLE_ROUNDS && 0 <= first && head == worlds[first].pr.head
    case QJudged(round, again, ok) =>
      && round == posts <= SETTLE_ROUNDS && 0 <= first < second && again == worlds[second].pr
      && (ok <==> worlds[first].pr.head == again.head && Accepts(judge, again))
    case QPosted(round, again) =>
      round + 1 == posts <= SETTLE_ROUNDS + 1 && 0 <= second && again == worlds[second].pr
    case QDone => true
  }

  predicate PrTakes(s: Step) {
    s.PrStart? || s.PrList? || s.PrFirstRead? || s.PrPend? || s.PrFiles? || s.PrSecondRead? || s.PrPost? || s.PrFail?
  }

  lemma PrUnmoved(judge: Judge, w: World, s: Step)
    requires Enabled(w, s)
    ensures if PrTakes(s) then Apply(judge, w, s).queueRun == w.queueRun else Apply(judge, w, s).prRun == w.prRun
  {
  }

  lemma PrStepExplained(judge: Judge, worlds: seq<World>, steps: seq<Step>, i: nat)
    requires IsRun(judge, worlds, steps) && i < |steps| && PrExplained(worlds, steps[..i])
    ensures PrExplained(worlds, steps[..i + 1])
  {
    hide LastTaken, Taken;
    TakenNext(steps, i, PrStart);
    TakenNext(steps, i, PrList);
    TakenNext(steps, i, PrFirstRead);
    TakenNext(steps, i, PrSecondRead);
    if !PrTakes(steps[i]) {
      PrUnmoved(judge, worlds[i], steps[i]);
      hide Apply;
    }
  }

  lemma QueueStepExplained(judge: Judge, worlds: seq<World>, steps: seq<Step>, i: nat)
    requires IsRun(judge, worlds, steps) && i < |steps| && QueueExplained(judge, worlds, steps[..i])
    requires HonestQueueRun(judge, worlds[i])
    ensures QueueExplained(judge, worlds, steps[..i + 1])
  {
    hide LastTaken, Taken;
    TakenNext(steps, i, QFirstRead);
    TakenNext(steps, i, QSecondRead);
    TakenNext(steps, i, QPost);
    if PrTakes(steps[i]) {
      PrUnmoved(judge, worlds[i], steps[i]);
      hide Apply;
    }
  }

  lemma {:induction false} RunsExplained(judge: Judge, worlds: seq<World>, steps: seq<Step>, i: nat)
    requires IsRun(judge, worlds, steps) && i < |worlds|
    ensures PrExplained(worlds, steps[..i]) && QueueExplained(judge, worlds, steps[..i])
  {
    if i == 0 {
      assert steps[..0] == [];
    } else {
      hide PrExplained, QueueExplained, IsRun, Apply;
      RunsExplained(judge, worlds, steps, i - 1);
      InvHolds(judge, worlds, steps, i - 1);
      PrStepExplained(judge, worlds, steps, i - 1);
      QueueStepExplained(judge, worlds, steps, i - 1);
    }
  }

  // ---------------------------------------------------------------- what every post says

  /** What the pull-request run's steps do to the status on the queue commit. */
  lemma PrPostsExplained(judge: Judge, worlds: seq<World>, steps: seq<Step>, i: nat)
    requires IsRun(judge, worlds, steps) && i < |steps|
    ensures var w, v, done := worlds[i], worlds[i + 1], steps[..i];
            var start, list := LastTaken(done, PrStart), LastTaken(done, PrList);
            var first, second := LastTaken(done, PrFirstRead), LastTaken(done, PrSecondRead);
            match steps[i]
            case PrPend =>
              0 <= list && v.status == if worlds[list].queued then Some(Pending) else w.status
            case PrPost =>
              && 0 <= start < list < first && 0 <= second && worlds[first].pr.eligible
              && worlds[start].event == Some(worlds[second].pr.head) && worlds[first].pr.head == worlds[second].pr.head
              && (worlds[list].queued ==>
                    && v.status == Some(if Accepts(judge, worlds[second].pr) then Passed else Failed)
                    && v.basis == worlds[second].pr)
              && (!worlds[list].queued ==> v.status == w.status && v.basis == w.basis)
            case PrFail => v.status == if w.queued then Some(Errored) else w.status
            case _ => true
  {
    hide LastTaken, Taken, QueueExplained;
    RunsExplained(judge, worlds, steps, i);
    InvHolds(judge, worlds, steps, i);
  }

  /** What the queue run's steps do to the status on the queue commit, and that nothing else does. */
  lemma QueuePostsExplained(judge: Judge, worlds: seq<World>, steps: seq<Step>, i: nat)
    requires IsRun(judge, worlds, steps) && i < |steps|
    ensures var w, v, done := worlds[i], worlds[i + 1], steps[..i];
            var first, second, posts := LastTaken(done, QFirstRead), LastTaken(done, QSecondRead), Taken(done, QPost);
            match steps[i]
            case QPend => v.status == if posts == 0 then Some(Pending) else w.status
            case QPost =>
              && 0 <= first < second && v.basis == worlds[second].pr
              && v.status == Some(
                   if worlds[first].pr.head == worlds[second].pr.head && Accepts(judge, worlds[second].pr)
                   then Passed else Failed)
            case QCheck =>
              && 1 <= posts <= 3 && 0 <= second && v.status == w.status
              && (v.queueRun.QDone? <==>
                    w.pr.head == worlds[second].pr.head && w.pr.body == worlds[second].pr.body)
            case QGiveUp => posts == 4 && v.status == Some(Failed)
            case QFail => v.status == Some(Errored)
            case PrPend => true
            case PrPost => true
            case PrFail => true
            case _ => v.status == w.status && v.basis == w.basis
  {
    hide LastTaken, Taken, PrExplained;
    RunsExplained(judge, worlds, steps, i);
  }

  // ---------------------------------------------------------------- the verdict that is left

  /** Whatever is on its way to the queue commit is the verdict on `pr`. */
  predicate Calm(judge: Judge, w: World, pr: Pr) {
    var ok := Accepts(judge, pr);
    && w.pr == pr
    && (w.status.None? || w.status == Some(Pending) || w.status == Some(Verdict(ok)))
    && (match w.prRun
        case PrCurrent(onQueue, head) => onQueue ==> head == pr.head
        case PrPended(onQueue, head) => onQueue ==> head == pr.head
        case PrFiled(onQueue, head, files) => onQueue ==> head == files == pr.head
        case PrJudged(onQueue, _, verdict) => onQueue ==> verdict == ok
        case _ => true)
    && (match w.queueRun
        case QReady(round) => round == 0
        case QRead(round, head) => round == 0 && head == pr.head
        case QPended(round, head) => round == 0 && head == pr.head
        case QFiled(round, head, files) => round == 0 && head == files == pr.head
        case QJudged(round, again, verdict) => round == 0 && again == pr && verdict == ok
        case QPosted(round, again) => round == 0 && again == pr
        case _ => true)
  }

  /** The step is neither an edit nor a run breaking off. */
  predicate Undisturbed(s: Step) {
    !s.Edit? && !s.PrFail? && !s.QFail?
  }

  lemma StepKeepsCalm(judge: Judge, w: World, s: Step, pr: Pr)
    requires Calm(judge, w, pr) && Enabled(w, s) && Undisturbed(s)
    ensures Calm(judge, Apply(judge, w, s), pr)
  {
  }

  lemma {:induction false} StaysCalm(judge: Judge, worlds: seq<World>, steps: seq<Step>, e: nat, i: nat)
    requires IsRun(judge, worlds, steps) && e <= i < |worlds|
    requires worlds[e].queueRun.NoQueue? && forall k | e <= k < i :: Undisturbed(steps[k])
    ensures Calm(judge, worlds[i], worlds[e].pr)
    decreases i
  {
    if i == e {
      InvHolds(judge, worlds, steps, e);
    } else {
      hide Calm, Apply;
      StaysCalm(judge, worlds, steps, e, i - 1);
      StepKeepsCalm(judge, worlds[i - 1], steps[i - 1], worlds[e].pr);
    }
  }

  /**
   * Completeness: if the edits stop before the pull request is queued and no run breaks off
   * after that, then in every interleaving, once the runs have finished, the queue commit
   * shows exactly the trigger's verdict on the pull request: success if it accepts, failure if not.
   */
  lemma FinalVerdict(judge: Judge, worlds: seq<World>, steps: seq<Step>, e: nat, i: nat)
    requires IsRun(judge, worlds, steps) && e <= i < |worlds|
    requires worlds[e].queueRun.NoQueue? && worlds[e].pr.eligible
    requires forall k | e <= k < i :: Undisturbed(steps[k])
    requires Quiescent(worlds[i]) && worlds[i].queued
    ensures worlds[i].pr == worlds[e].pr
    ensures worlds[i].status == Some(if Accepts(judge, worlds[i].pr) then Passed else Failed)
  {
    hide IsRun;
    StaysCalm(judge, worlds, steps, e, i);
    QuiescentStatus(judge, worlds, steps, i);
  }

  // ---------------------------------------------------------------- the final status of any run

  /** The step posts on the queue commit. */
  predicate PostsThere(w: World, s: Step)
    requires Enabled(w, s)
  {
    match s
    case PrPend => w.prRun.onQueue
    case PrPost => w.prRun.onQueue
    case PrFail => w.queued
    case QPend => w.queueRun.round == 0
    case QPost => true
    case QGiveUp => true
    case QFail => true
    case _ => false
  }

  /** The last step of the first `n` that posted on the queue commit, or -1. */
  ghost function LastPost(judge: Judge, worlds: seq<World>, steps: seq<Step>, n: nat): (p: int)
    requires IsRun(judge, worlds, steps) && n <= |steps|
    ensures -1 <= p < n && (p >= 0 ==> PostsThere(worlds[p], steps[p]))
    ensures forall k | p < k < n :: !PostsThere(worlds[k], steps[k])
  {
    if n == 0 then -1
    else if PostsThere(worlds[n - 1], steps[n - 1]) then n - 1
    else LastPost(judge, worlds, steps, n - 1)
  }

  /** A verdict on something else than the pull request as it stands still has someone to replace it. */
  predicate Followed(w: World) {
    Snapshot(w.basis) != Snapshot(w.pr) && w.pr.eligible ==>
      w.event.Some? || PrWillPost(w.prRun) || QueueWillAct(w.queueRun, w.basis)
  }

  predicate GivesVerdict(s: Step) {
    s.PrPost? || s.QPost?
  }

  lemma VerdictIsFollowed(judge: Judge, w: World, s: Step)
    requires Inv(judge, w) && Enabled(w, s) && PostsThere(w, s) && GivesVerdict(s)
    ensures Followed(Apply(judge, w, s))
  {
  }

  lemma StaysFollowed(judge: Judge, w: World, s: Step)
    requires Inv(judge, w) && Enabled(w, s) && !PostsThere(w, s) && w.status.Some? && Followed(w)
    ensures Followed(Apply(judge, w, s))
  {
  }

  lemma OnlyPostsShow(judge: Judge, w: World, s: Step)
    requires Enabled(w, s)
    ensures var v := Apply(judge, w, s);
            if PostsThere(w, s) then v.status.Some? else v.status == w.status && v.basis == w.basis
  {
  }

  /** Since the last post nothing on the queue commit has changed, and a verdict there is followed. */
  lemma {:induction false} SinceLastPost(judge: Judge, worlds: seq<World>, steps: seq<Step>, n: nat)
    requires IsRun(judge, worlds, steps) && n <= |steps|
    ensures var p, w := LastPost(judge, worlds, steps, n), worlds[n];
            && (p < 0 ==> w.status.None?)
            && (p >= 0 ==> w.status.Some? && w.status == worlds[p + 1].status && w.basis == worlds[p + 1].basis)
            && (p >= 0 && GivesVerdict(steps[p]) ==> Followed(w))
  {
    if n > 0 {
      hide Apply, Inv, Followed, PostsThere, Enabled;
      var w, s := worlds[n - 1], steps[n - 1];
      assert worlds[n] == Apply(judge, w, s);
      SinceLastPost(judge, worlds, steps, n - 1);
      InvHolds(judge, worlds, steps, n - 1);
      OnlyPostsShow(judge, w, s);
      if !PostsThere(w, s) {
        if w.status.Some? && Followed(w) {
          StaysFollowed(judge, w, s);
        }
      } else if GivesVerdict(s) {
        VerdictIsFollowed(judge, w, s);
      }
    }
  }

  /**
   * The final status, in every interleaving and with edits and failures anywhere: once the
   * runs have finished on an eligible pull request, the last post decides. A pull-request
   * run's verdict is the verdict on the pull request as it stands. So is the queue run's,
   * unless the head moved between the two reads of its last evaluation; that, giving up and
   * breaking off are all that can keep an accepted pull request from showing success.
   */
  lemma FinalStatus(judge: Judge, worlds: seq<World>, steps: seq<Step>, i: nat)
    requires IsRun(judge, worlds, steps) && i < |worlds|
    requires Quiescent(worlds[i]) && worlds[i].pr.eligible && worlds[i].queued
    ensures var p, w := LastPost(judge, worlds, steps, i), worlds[i];
            && 0 <= p
            && match steps[p]
               case PrPost => w.status == Some(if Accepts(judge, w.pr) then Passed else Failed)
               case QPost =>
                 var first, second := LastTaken(steps[..p], QFirstRead), LastTaken(steps[..p], QSecondRead);
                 && 0 <= first < second
                 && w.status == Some(
                      if worlds[first].pr.head == worlds[second].pr.head && Accepts(judge, w.pr)
                      then Passed else Failed)
               case QGiveUp => w.status == Some(Failed)
               case PrFail => w.status == Some(Errored)
               case QFail => w.status == Some(Errored)
               case _ => false
  {
    hide *;
    var p := FinalPost(judge, worlds, steps, i);
    PrPostsExplained(judge, worlds, steps, p);
    QueuePostsExplained(judge, worlds, steps, p);
    LastPostKind(judge, worlds, steps, p);
  }

  /** At rest there is a last post, its status stands, and its verdict is on the pull request as it is. */
  lemma FinalPost(judge: Judge, worlds: seq<World>, steps: seq<Step>, i: nat) returns (p: nat)
    requires IsRun(judge, worlds, steps) && i < |worlds|
    requires Quiescent(worlds[i]) && worlds[i].pr.eligible && worlds[i].queued
    ensures p == LastPost(judge, worlds, steps, i) && p < |steps| && PostsThere(worlds[p], steps[p])
    ensures worlds[i].status == worlds[p + 1].status != Some(Pending)
    ensures steps[p].PrPost? || steps[p].QPost? ==>
              Accepts(judge, worlds[p + 1].basis) == Accepts(judge, worlds[i].pr)
  {
    hide Apply, PostsThere, Inv, Enabled;
    QuiescentStatus(judge, worlds, steps, i);
    SinceLastPost(judge, worlds, steps, i);
    p := LastPost(judge, worlds, steps, i);
  }

  lemma LastPostKind(judge: Judge, worlds: seq<World>, steps: seq<Step>, p: nat)
    requires IsRun(judge, worlds, steps) && p < |steps| && PostsThere(worlds[p], steps[p])
    ensures var s, w := steps[p], worlds[p + 1];
            && (s.PrPend? || s.PrPost? || s.PrFail? || s.QPend? || s.QPost? || s.QGiveUp? || s.QFail?)
            && (s.PrFail? ==> worlds[p].queued)
            && (s.PrPend? || s.QPend? ==> w.status == Some(Pending))
            && (s.PrPost? ==> LastTaken(steps[..p], PrList) >= 0 && worlds[LastTaken(steps[..p], PrList)].queued)
  {
    hide LastTaken, Taken, QueueExplained;
    RunsExplained(judge, worlds, steps, p);
  }

  /** A head that moves during the queue run's evaluation can leave a failure on an accepted pull request. */
  lemma MovedHeadLeavesFailure(judge: Judge, a: Pr, b: Pr) returns (worlds: seq<World>, steps: seq<Step>)
    requires a.eligible && b.eligible && a.head != b.head && Accepts(judge, b)
    ensures IsRun(judge, worlds, steps)
    ensures var w := worlds[|steps|];
            Quiescent(w) && w.queued && w.pr == b && w.status == Some(Failed)
  {
    var w := World(a, {a}, Some(a.head), false, None, a, PrIdle, NoQueue);
    worlds, steps := [w], [];
    hide IsRun;
    assert IsRun(judge, worlds, steps) by { StartsRun(judge, w); }
    worlds, steps := Extend(judge, worlds, steps, Enqueue);
    worlds, steps := Extend(judge, worlds, steps, QFirstRead);
    worlds, steps := Extend(judge, worlds, steps, QPend);
    worlds, steps := Extend(judge, worlds, steps, QFiles);
    worlds, steps := Extend(judge, worlds, steps, Edit(b, true));
    worlds, steps := Extend(judge, worlds, steps, PrStart);
    worlds, steps := Extend(judge, worlds, steps, PrList);
    worlds, steps := Extend(judge, worlds, steps, PrFirstRead);
    worlds, steps := Extend(judge, worlds, steps, PrPend);
    worlds, steps := Extend(judge, worlds, steps, PrFiles);
    worlds, steps := Extend(judge, worlds, steps, PrSecondRead);
    worlds, steps := Extend(judge, worlds, steps, PrPost);
    worlds, steps := Extend(judge, worlds, steps, QSecondRead);
    worlds, steps := Extend(judge, worlds, steps, QPost);
    worlds, steps := Extend(judge, worlds, steps, QCheck);
  }
}
