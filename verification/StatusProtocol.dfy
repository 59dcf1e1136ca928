/**
 * The required status on a merge-queue commit, which two kinds of run may post: the queue
 * entry's own run and the pull request's runs. Anyone may edit the pull request between any
 * two API calls; every read and every post is one step.
 *
 * Assumptions taken from the workflow: a run for the pull request starts for its newest
 * event and never overlaps another one; every edit that leaves the pull request open into
 * the base branch raises an event; posts and the error handler's posts land; no run is killed.
 */
module StatusProtocol {
  import opened Wrappers

  type Head = string
  type Body = string

  /** One API read. `eligible` is "open, and into the base branch". */
  datatype Pr = Pr(head: Head, body: Body, eligible: bool)

  datatype State = Pending | Passed | Failed | Errored

  function Snapshot(pr: Pr): (Head, Body) {
    (pr.head, pr.body)
  }

  /** The trigger's verdict from a file listing (named by the head it lists), a head and a body. */
  type Judge = (Head, Head, Body) -> bool

  /** The verdict the trigger gives on the pull request as it stands. */
  predicate Accepts(judge: Judge, pr: Pr) {
    judge(pr.head, pr.head, pr.body)
  }

  const SETTLE_ROUNDS: nat := 3

  /** A pull-request run; `onQueue` is whether the queue commit is among its targets. */
  datatype PrRun =
    | PrIdle
    | PrStarted(expected: Head)
    | PrListed(expected: Head, onQueue: bool)
    | PrCurrent(onQueue: bool, head: Head)
    | PrPended(onQueue: bool, head: Head)
    | PrFiled(onQueue: bool, head: Head, files: Head)
    | PrJudged(onQueue: bool, again: Pr, ok: bool)

  /** The queue entry's run; `round` counts its evaluations from zero. */
  datatype QueueRun =
    | NoQueue
    | QReady(round: nat)
    | QRead(round: nat, head: Head)
    | QPended(round: nat, head: Head)
    | QFiled(round: nat, head: Head, files: Head)
    | QJudged(round: nat, again: Pr, ok: bool)
    | QPosted(round: nat, again: Pr)
    | QDone

  datatype World = World(
    pr: Pr,
    history: set<Pr>,         // every state the pull request has had
    event: Option<Head>,      // the newest event no run has started for
    queued: bool,             // the queue branch exists
    status: Option<State>,    // last status on the queue commit
    basis: Pr,                // the read the last verdict there was given on
    prRun: PrRun,
    queueRun: QueueRun)

  datatype Step =
    | Edit(next: Pr, raises: bool)
    | PrStart | PrList | PrFirstRead | PrPend | PrFiles | PrSecondRead | PrPost | PrFail
    | Enqueue | QFirstRead | QPend | QFiles | QSecondRead | QPost | QCheck | QGiveUp | QFail

  predicate FreshOrSame(w: World, next: Pr) {
    next.head == w.pr.head || forall p | p in w.history :: p.head != next.head
  }

  predicate Enabled(w: World, s: Step) {
    match s
    case Edit(next, raises) => FreshOrSame(w, next) && (next.eligible ==> raises)
    case PrStart => w.prRun.PrIdle? && w.event.Some?
    case PrList => w.prRun.PrStarted?
    case PrFirstRead => w.prRun.PrListed?
    case PrPend => w.prRun.PrCurrent?
    case PrFiles => w.prRun.PrPended?
    case PrSecondRead => w.prRun.PrFiled?
    case PrPost => w.prRun.PrJudged?
    case PrFail => !w.prRun.PrIdle?
    case Enqueue => w.queueRun.NoQueue?
    case QFirstRead => w.queueRun.QReady?
    case QPend => w.queueRun.QRead?
    case QFiles => w.queueRun.QPended?
    case QSecondRead => w.queueRun.QFiled?
    case QPost => w.queueRun.QJudged?
    case QCheck => w.queueRun.QPosted? && w.queueRun.round < SETTLE_ROUNDS
    case QGiveUp => w.queueRun.QPosted? && w.queueRun.round >= SETTLE_ROUNDS
    case QFail => !w.queueRun.NoQueue? && !w.queueRun.QDone?
  }

  function Verdict(ok: bool): State {
    if ok then Passed else Failed
  }

  function Apply(judge: Judge, w: World, s: Step): World
    requires Enabled(w, s)
  {
    match s
    case Edit(next, raises) =>
      w.(pr := next, history := w.history + {next}, event := if raises then Some(next.head) else w.event)
    case PrStart => w.(event := None, prRun := PrStarted(w.event.value))
    case PrList => w.(prRun := PrListed(w.prRun.expected, w.queued))
    case PrFirstRead =>
      if !w.pr.eligible || w.pr.head != w.prRun.expected then w.(prRun := PrIdle)
      else w.(prRun := PrCurrent(w.prRun.onQueue, w.pr.head))
    case PrPend =>
      var next := w.(prRun := PrPended(w.prRun.onQueue, w.prRun.head));
      if w.prRun.onQueue then next.(status := Some(Pending)) else next
    case PrFiles => w.(prRun := PrFiled(w.prRun.onQueue, w.prRun.head, w.pr.head))
    case PrSecondRead =>
      if w.pr.head != w.prRun.head then w.(prRun := PrIdle)
      else w.(prRun := PrJudged(w.prRun.onQueue, w.pr, judge(w.prRun.files, w.pr.head, w.pr.body)))
    case PrPost =>
      var next := w.(prRun := PrIdle);
      if w.prRun.onQueue then next.(status := Some(Verdict(w.prRun.ok)), basis := w.prRun.again) else next
    case PrFail =>
      // The handler lists the queue again if it knows no target.
      var next := w.(prRun := PrIdle);
      if w.queued then next.(status := Some(Errored)) else next
    case Enqueue => w.(queued := true, queueRun := QReady(0))
    case QFirstRead => w.(queueRun := QRead(w.queueRun.round, w.pr.head))
    case QPend =>
      // Only the first evaluation posts a pending status.
      var next := w.(queueRun := QPended(w.queueRun.round, w.queueRun.head));
      if w.queueRun.round == 0 then next.(status := Some(Pending)) else next
    case QFiles => w.(queueRun := QFiled(w.queueRun.round, w.queueRun.head, w.pr.head))
    case QSecondRead =>
      var ok := w.pr.head == w.queueRun.head && judge(w.queueRun.files, w.pr.head, w.pr.body);
      w.(queueRun := QJudged(w.queueRun.round, w.pr, ok))
    case QPost =>
      w.(queueRun := QPosted(w.queueRun.round, w.queueRun.again),
         status := Some(Verdict(w.queueRun.ok)), basis := w.queueRun.again)
    case QCheck =>
      if Snapshot(w.pr) == Snapshot(w.queueRun.again) then w.(queueRun := QDone)
      else w.(queueRun := QReady(w.queueRun.round + 1))
    case QGiveUp => w.(queueRun := QDone, status := Some(Failed))
    case QFail => w.(queueRun := QDone, status := Some(Errored))
  }

  predicate Init(w: World) {
    && w.history == {w.pr} && w.event == Some(w.pr.head) && !w.queued && w.status.None?
    && w.prRun.PrIdle? && w.queueRun.NoQueue?
  }

  /** `worlds` is a run of the system that takes `steps` from an initial world. */
  ghost predicate IsRun(judge: Judge, worlds: seq<World>, steps: seq<Step>) {
    && |worlds| == |steps| + 1
    && Init(worlds[0])
    && forall i | 0 <= i < |steps| :: Enabled(worlds[i], steps[i]) && worlds[i + 1] == Apply(judge, worlds[i], steps[i])
  }

  // ---------------------------------------------------------------- the invariant

  /** With no edit outstanding, everything the pull-request run has read is current. */
  predicate PrRunCurrent(w: World) {
    match w.prRun
    case PrIdle => true
    case PrStarted(expected) => expected == w.pr.head
    case PrListed(expected, _) => expected == w.pr.head
    case PrCurrent(_, head) => head == w.pr.head
    case PrPended(_, head) => head == w.pr.head
    case PrFiled(_, head, _) => head == w.pr.head
    case PrJudged(_, again, _) => Snapshot(again) == Snapshot(w.pr)
  }

  predicate KnownHead(w: World, head: Head) {
    exists p | p in w.history :: p.head == head
  }

  /** Files listed under another head mean the head has moved away for good. */
  predicate HonestFiles(w: World, head: Head, files: Head) {
    KnownHead(w, head) && (files == head || w.pr.head != head)
  }

  predicate HonestPrRun(judge: Judge, w: World) {
    match w.prRun
    case PrCurrent(_, head) => KnownHead(w, head)
    case PrPended(_, head) => KnownHead(w, head)
    case PrFiled(_, head, files) => HonestFiles(w, head, files)
    case PrJudged(_, again, ok) => again in w.history && ok == Accepts(judge, again)
    case _ => true
  }

  predicate HonestQueueRun(judge: Judge, w: World) {
    match w.queueRun
    case QRead(_, head) => KnownHead(w, head)
    case QPended(_, head) => KnownHead(w, head)
    case QFiled(_, head, files) => HonestFiles(w, head, files)
    case QJudged(_, again, ok) => again in w.history && (ok ==> Accepts(judge, again))
    case QPosted(_, again) => again in w.history
    case _ => true
  }

  /** The pull-request run has still to post its verdict on the queue commit. */
  predicate PrWillPost(r: PrRun) {
    !r.PrIdle? && (r.PrStarted? || r.onQueue)
  }

  /** The queue run has still to post, or to re-read what its last post was based on. */
  predicate QueueWillAct(r: QueueRun, basis: Pr) {
    match r
    case NoQueue => false
    case QDone => false
    case QPosted(_, again) => Snapshot(again) == Snapshot(basis)
    case _ => true
  }

  /** The queue run is on its way to a verdict it has not posted. */
  predicate QueueWillPost(r: QueueRun) {
    r.QReady? || r.QRead? || r.QPended? || r.QFiled? || r.QJudged?
  }

  predicate Undecided(w: World) {
    w.queued && (w.status.None? || w.status == Some(Pending))
  }

  predicate Stale(w: World) {
    w.status == Some(Passed) && Snapshot(w.basis) != Snapshot(w.pr)
  }

  predicate Inv(judge: Judge, w: World) {
    && w.pr in w.history
    && (w.pr.eligible && w.event.Some? ==> w.event.value == w.pr.head)
    && (w.pr.eligible && w.event.None? ==> PrRunCurrent(w))
    && HonestPrRun(judge, w)
    && HonestQueueRun(judge, w)
    && (w.queued <==> !w.queueRun.NoQueue?)
    && (!w.prRun.PrIdle? && !w.prRun.PrStarted? && w.prRun.onQueue ==> w.queued)
    && (w.status.Some? ==> w.queued)
    && (w.status == Some(Passed) ==> w.basis in w.history && Accepts(judge, w.basis))
    && (Stale(w) && w.pr.eligible ==> w.event.Some? || PrWillPost(w.prRun) || QueueWillAct(w.queueRun, w.basis))
    && (Undecided(w) && w.pr.eligible ==> w.event.Some? || PrWillPost(w.prRun) || QueueWillPost(w.queueRun))
  }

  lemma EditKeepsHeads(w: World, next: Pr)
    requires FreshOrSame(w, next) && w.pr in w.history
    ensures var v := w.(pr := next, history := w.history + {next});
            && (forall h: Head :: KnownHead(w, h) ==> KnownHead(v, h))
            && (forall h: Head, f: Head :: HonestFiles(w, h, f) ==> HonestFiles(v, h, f))
  {
  }

  lemma EditKeepsInv(judge: Judge, w: World, next: Pr, raises: bool)
    requires Inv(judge, w) && Enabled(w, Edit(next, raises))
    ensures Inv(judge, Apply(judge, w, Edit(next, raises)))
  {
    EditKeepsHeads(w, next);
  }

  lemma PrOpeningKeepsInv(judge: Judge, w: World, s: Step)
    requires Inv(judge, w) && Enabled(w, s) && (s.PrStart? || s.PrList? || s.PrFirstRead? || s.PrPend?)
    ensures Inv(judge, Apply(judge, w, s))
  {
  }

  lemma PrClosingKeepsInv(judge: Judge, w: World, s: Step)
    requires Inv(judge, w) && Enabled(w, s) && (s.PrFiles? || s.PrSecondRead? || s.PrPost? || s.PrFail?)
    ensures Inv(judge, Apply(judge, w, s))
  {
  }

  lemma QueueOpeningKeepsInv(judge: Judge, w: World, s: Step)
    requires Inv(judge, w) && Enabled(w, s) && (s.Enqueue? || s.QFirstRead? || s.QPend? || s.QFiles? || s.QSecondRead?)
    ensures Inv(judge, Apply(judge, w, s))
  {
  }

  lemma QueueClosingKeepsInv(judge: Judge, w: World, s: Step)
    requires Inv(judge, w) && Enabled(w, s) && (s.QPost? || s.QCheck? || s.QGiveUp? || s.QFail?)
    ensures Inv(judge, Apply(judge, w, s))
  {
  }

  /** Every step of every participant keeps the invariant. */
  lemma StepKeepsInv(judge: Judge, w: World, s: Step)
    requires Inv(judge, w) && Enabled(w, s)
    ensures Inv(judge, Apply(judge, w, s))
  {
    hide Inv, Apply;
    if s.Edit? {
      EditKeepsInv(judge, w, s.next, s.raises);
    } else if s.PrStart? || s.PrList? || s.PrFirstRead? || s.PrPend? {
      PrOpeningKeepsInv(judge, w, s);
    } else if s.PrFiles? || s.PrSecondRead? || s.PrPost? || s.PrFail? {
      PrClosingKeepsInv(judge, w, s);
    } else if s.QPost? || s.QCheck? || s.QGiveUp? || s.QFail? {
      QueueClosingKeepsInv(judge, w, s);
    } else {
      QueueOpeningKeepsInv(judge, w, s);
    }
  }

  lemma {:induction false} InvHolds(judge: Judge, worlds: seq<World>, steps: seq<Step>, i: nat)
    requires IsRun(judge, worlds, steps) && i < |worlds|
    ensures Inv(judge, worlds[i])
  {
    if i > 0 {
      InvHolds(judge, worlds, steps, i - 1);
      StepKeepsInv(judge, worlds[i - 1], steps[i - 1]);
    }
  }

  // ---------------------------------------------------------------- the theorems

  /** No edit is waiting for its run, and every run that started has finished. */
  predicate Quiescent(w: World) {
    w.event.None? && w.prRun.PrIdle? && (w.queueRun.NoQueue? || w.queueRun.QDone?)
  }

  /**
   * Quiescence with two writers: in every interleaving, once edits stop and the runs finish,
   * the queue commit shows success only if the trigger accepts the final head and body, and
   * it is not left pending.
   */
  lemma QuiescentStatus(judge: Judge, worlds: seq<World>, steps: seq<Step>, i: nat)
    requires IsRun(judge, worlds, steps) && i < |worlds|
    requires Quiescent(worlds[i]) && worlds[i].pr.eligible
    ensures worlds[i].status == Some(Passed) ==> Accepts(judge, worlds[i].pr)
    ensures worlds[i].queued ==> worlds[i].status.Some? && worlds[i].status != Some(Pending)
  {
    InvHolds(judge, worlds, steps, i);
  }

  /** At every moment, a success is an honest verdict on a state the pull request really had. */
  lemma SuccessIsHonest(judge: Judge, worlds: seq<World>, steps: seq<Step>, i: nat)
    requires IsRun(judge, worlds, steps) && i < |worlds| && worlds[i].status == Some(Passed)
    ensures worlds[i].basis in worlds[i].history && Accepts(judge, worlds[i].basis)
  {
    InvHolds(judge, worlds, steps, i);
  }

  // ---------------------------------------------------------------- why the queue run reads again

  lemma Extend(judge: Judge, worlds: seq<World>, steps: seq<Step>, s: Step)
    returns (worlds': seq<World>, steps': seq<Step>)
    requires IsRun(judge, worlds, steps) && Enabled(worlds[|steps|], s)
    ensures IsRun(judge, worlds', steps')
    ensures worlds'[|steps'|] == Apply(judge, worlds[|steps|], s)
  {
    hide Apply, Enabled;
    worlds', steps' := worlds + [Apply(judge, worlds[|steps|], s)], steps + [s];
  }

  /**
   * Without the read after its post a queue run would leave a success standing on a body the
   * trigger rejects: this run reaches that point, every other participant being finished.
   */
  lemma SettleReadIsNeeded(judge: Judge, good: Pr, bad: Pr) returns (worlds: seq<World>, steps: seq<Step>)
    requires good.eligible && bad.eligible && good.head == bad.head
    requires Accepts(judge, good) && !Accepts(judge, bad)
    ensures IsRun(judge, worlds, steps)
    ensures var w := worlds[|steps|];
            && w.event.None? && w.prRun.PrIdle? && w.queueRun == QPosted(0, good)
            && w.pr == bad && w.status == Some(Passed) && !Accepts(judge, w.pr)
  {
    var w := World(good, {good}, Some(good.head), false, None, good, PrIdle, NoQueue);
    worlds, steps := [w], [];
    hide IsRun;
    assert IsRun(judge, worlds, steps) by { StartsRun(judge, w); }
    worlds, steps := Extend(judge, worlds, steps, Enqueue);
    worlds, steps := Extend(judge, worlds, steps, QFirstRead);
    worlds, steps := Extend(judge, worlds, steps, QPend);
    worlds, steps := Extend(judge, worlds, steps, QFiles);
    worlds, steps := Extend(judge, worlds, steps, QSecondRead);
    worlds, steps := Extend(judge, worlds, steps, Edit(bad, true));
    worlds, steps := Extend(judge, worlds, steps, PrStart);
    worlds, steps := Extend(judge, worlds, steps, PrList);
    worlds, steps := Extend(judge, worlds, steps, PrFirstRead);
    worlds, steps := Extend(judge, worlds, steps, PrPend);
    worlds, steps := Extend(judge, worlds, steps, PrFiles);
    worlds, steps := Extend(judge, worlds, steps, PrSecondRead);
    worlds, steps := Extend(judge, worlds, steps, PrPost);
    worlds, steps := Extend(judge, worlds, steps, QPost);
  }

  lemma StartsRun(judge: Judge, w: World)
    requires Init(w)
    ensures IsRun(judge, [w], [])
  {
  }
}
