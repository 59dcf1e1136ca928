/**
 * The queue entry's run as sequential code. `answers` and `listings` are what the API returns
 * to its successive calls, so every pattern of concurrent edits is some choice of them.
 */
module QueuedRun {
  import opened StatusProtocol

  datatype Call =
    | Fetch(pr: Pr)          // read the pull request
    | List(head: Head)       // list the files, of the head they belong to
    | Publish(state: State)  // post a status on the queue commit

  type Answers = nat -> Pr
  type Listings = nat -> Head

  /** The state of the last status posted. */
  function LastState(trace: seq<Call>): State {
    if trace == [] then Pending
    else if trace[|trace| - 1].Publish? then trace[|trace| - 1].state
    else LastState(trace[..|trace| - 1])
  }

  lemma LastOfAppend(trace: seq<Call>, c: Call)
    ensures LastState(trace + [c]) == if c.Publish? then c.state else LastState(trace)
  {
    assert (trace + [c])[..|trace|] == trace;
  }

  // ---------------------------------------------------------------- the dialogue with the API

  /** The reads of evaluation `e` are answers 3e and 3e + 1; answer 3e + 2 is the check after it. */
  function Judged(answers: Answers, e: nat): Pr {
    answers(3 * e + 1)
  }

  /** Evaluation `e` passes if one head was read twice and the judge accepts what was read. */
  function VerdictOn(judge: Judge, answers: Answers, listings: Listings, e: nat): State {
    var pr := Judged(answers, e);
    Verdict(answers(3 * e).head == pr.head && judge(listings(e), pr.head, pr.body))
  }

  /** The read after evaluation `e` finds the pull request as it was judged. */
  predicate HeldStill(answers: Answers, e: nat) {
    Snapshot(answers(3 * e + 2)) == Snapshot(Judged(answers, e))
  }

  /** The calls of evaluation `e`, in order; only the first one posts pending. */
  function EvaluationCalls(answers: Answers, listings: Listings, e: nat): seq<Call> {
    [Fetch(answers(3 * e))]
    + (if e == 0 then [Publish(Pending)] else [])
    + [List(listings(e)), Fetch(Judged(answers, e))]
  }

  /** The first `n` evaluations, each with its post and the read that finds the pull request changed. */
  function Rounds(judge: Judge, answers: Answers, listings: Listings, n: nat): seq<Call> {
    if n == 0 then []
    else
      Rounds(judge, answers, listings, n - 1)
      + EvaluationCalls(answers, listings, n - 1)
      + [Publish(VerdictOn(judge, answers, listings, n - 1)), Fetch(answers(3 * n - 1))]
  }

  lemma NoRounds(judge: Judge, answers: Answers, listings: Listings)
    ensures Rounds(judge, answers, listings, 0) == []
  {
  }

  lemma NextRound(judge: Judge, answers: Answers, listings: Listings, n: nat)
    ensures Rounds(judge, answers, listings, n + 1) ==
            Rounds(judge, answers, listings, n) + EvaluationCalls(answers, listings, n)
            + [Publish(VerdictOn(judge, answers, listings, n))] + [Fetch(answers(3 * n + 2))]
  {
    hide EvaluationCalls, VerdictOn;
  }

  /** A verdict is success exactly when both reads show one head and the judge accepts what was read. */
  lemma VerdictMeans(judge: Judge, answers: Answers, listings: Listings, e: nat)
    ensures var first, second, verdict := answers(3 * e), answers(3 * e + 1), VerdictOn(judge, answers, listings, e);
            && (verdict == Passed <==> first.head == second.head && judge(listings(e), second.head, second.body))
            && (verdict == Passed || verdict == Failed)
  {
  }

  lemma HeldStillMeans(answers: Answers, e: nat)
    ensures HeldStill(answers, e) <==>
            answers(3 * e + 2).head == answers(3 * e + 1).head && answers(3 * e + 2).body == answers(3 * e + 1).body
  {
  }

  /**
   * The dialogue call by call: each evaluation reads, lists the files, reads again, posts what
   * these answers call for and reads once more; the first also posts pending after its first read.
   */
  lemma {:induction false} RoundsAt(judge: Judge, answers: Answers, listings: Listings, n: nat, e: nat)
    requires e < n
    ensures var calls := Rounds(judge, answers, listings, n);
            && |calls| == 5 * n + 1
            && calls[0] == Fetch(answers(0)) && calls[1] == Publish(Pending)
            && (e > 0 ==> calls[5 * e + 1] == Fetch(answers(3 * e)))
            && calls[5 * e + 2] == List(listings(e)) && calls[5 * e + 3] == Fetch(answers(3 * e + 1))
            && calls[5 * e + 4] == Publish(
                 if answers(3 * e).head == answers(3 * e + 1).head
                    && judge(listings(e), answers(3 * e + 1).head, answers(3 * e + 1).body)
                 then Passed else Failed)
            && calls[5 * e + 5] == Fetch(answers(3 * e + 2))
    decreases n
  {
    hide Rounds, VerdictOn;
    NoRounds(judge, answers, listings);
    NextRound(judge, answers, listings, n - 1);
    VerdictMeans(judge, answers, listings, n - 1);
    if n > 1 {
      RoundsAt(judge, answers, listings, n - 1, if e < n - 1 then e else 0);
    }
  }

  lemma RoundsEnd(judge: Judge, answers: Answers, listings: Listings, n: nat)
    requires n > 0
    ensures var calls, verdict := Rounds(judge, answers, listings, n), VerdictOn(judge, answers, listings, n - 1);
            && LastState(calls) == verdict && |calls| >= 2
            && calls[|calls| - 2..] == [Publish(verdict), Fetch(answers(3 * n - 1))]
  {
    hide Rounds, VerdictOn, EvaluationCalls, LastState;
    NextRound(judge, answers, listings, n - 1);
    var before := Rounds(judge, answers, listings, n - 1) + EvaluationCalls(answers, listings, n - 1);
    var post := Publish(VerdictOn(judge, answers, listings, n - 1));
    LastOfAppend(before, post);
    LastOfAppend(before + [post], Fetch(answers(3 * n - 1)));
  }

  /** `evaluate` for a queued pull request, with the pending post of the first evaluation. */
  method Evaluate(judge: Judge, answers: Answers, listings: Listings, e: nat, trace: seq<Call>)
    returns (verdict: State, pr: Pr, trace': seq<Call>)
    ensures pr == answers(3 * e + 1) && verdict == VerdictOn(judge, answers, listings, e)
    ensures verdict == Passed <==> answers(3 * e).head == pr.head && judge(listings(e), pr.head, pr.body)
    ensures verdict == Passed || verdict == Failed
    ensures trace' == trace + EvaluationCalls(answers, listings, e)
  {
    var first := answers(3 * e);
    trace' := trace + [Fetch(first)];
    if e == 0 {
      trace' := trace' + [Publish(Pending)];
    }
    var files := listings(e);
    trace' := trace' + [List(files)];
    pr := answers(3 * e + 1);
    trace' := trace' + [Fetch(pr)];
    verdict := if pr.head != first.head then Failed else if judge(files, pr.head, pr.body) then Passed else Failed;
  }

  /** The last thing the run did was to post success and find the pull request unchanged. */
  ghost predicate ConfirmedSuccess(trace: seq<Call>, judged: Pr) {
    && |trace| >= 2
    && trace[|trace| - 2] == Publish(Passed)
    && trace[|trace| - 1].Fetch?
    && Snapshot(trace[|trace| - 1].pr) == Snapshot(judged)
  }

  /**
   * The queued branch of `main`: judge, post, then read again and judge again until the pull
   * request holds still, giving up with a failure after the settle rounds. The trace is the
   * whole dialogue; the run stops at the first evaluation after which the pull request held
   * still, and the last status is then that evaluation's verdict.
   */
  method Settle(judge: Judge, answers: Answers, listings: Listings)
    returns (trace: seq<Call>, judged: Pr, listed: Head, evaluations: nat, settled: bool)
    ensures 1 <= evaluations <= 4
    ensures judged == answers(3 * evaluations - 2) && listed == listings(evaluations - 1)
    ensures forall e | 0 <= e < evaluations - 1 :: !HeldStill(answers, e)
    ensures settled <==> evaluations <= SETTLE_ROUNDS
    ensures settled <==> exists e | 0 <= e < SETTLE_ROUNDS :: HeldStill(answers, e)
    ensures settled ==> HeldStill(answers, evaluations - 1)
    ensures settled ==> trace == Rounds(judge, answers, listings, evaluations)
    ensures !settled ==>
              trace == Rounds(judge, answers, listings, SETTLE_ROUNDS)
                       + EvaluationCalls(answers, listings, SETTLE_ROUNDS)
                       + [Publish(VerdictOn(judge, answers, listings, SETTLE_ROUNDS)), Publish(Failed)]
    ensures LastState(trace) == if settled then VerdictOn(judge, answers, listings, evaluations - 1) else Failed
    ensures LastState(trace) == Passed <==>
            && settled && answers(3 * (evaluations - 1)).head == judged.head
            && judge(listed, judged.head, judged.body)
    ensures LastState(trace) == Passed ==> ConfirmedSuccess(trace, judged)
    ensures LastState(trace) == Passed || LastState(trace) == Failed
  {
    hide EvaluationCalls, VerdictOn, Rounds, LastState;
    var verdict;
    verdict, judged, trace := Evaluate(judge, answers, listings, 0, []);
    evaluations, listed, settled := 1, listings(0), false;
    trace := trace + [Publish(verdict)];
    NoRounds(judge, answers, listings);
    var round := 0;
    while round < SETTLE_ROUNDS && !settled
      invariant round <= SETTLE_ROUNDS && evaluations == 1 + round && (settled ==> round < SETTLE_ROUNDS)
      invariant judged == Judged(answers, round) && listed == listings(round)
      invariant verdict == VerdictOn(judge, answers, listings, round)
      invariant forall e | 0 <= e < round :: !HeldStill(answers, e)
      invariant !settled ==>
                  trace == Rounds(judge, answers, listings, round) + EvaluationCalls(answers, listings, round)
                           + [Publish(verdict)]
      invariant settled ==> HeldStill(answers, round) && trace == Rounds(judge, answers, listings, round + 1)
      decreases SETTLE_ROUNDS - round, !settled
    {
      var now := answers(3 * round + 2);
      trace := trace + [Fetch(now)];
      NextRound(judge, answers, listings, round);
      if Snapshot(now) == Snapshot(judged) {
        settled := true;
      } else {
        verdict, judged, trace := Evaluate(judge, answers, listings, evaluations, trace);
        listed := listings(evaluations);
        trace := trace + [Publish(verdict)];
        evaluations := evaluations + 1;
        round := round + 1;
      }
    }
    if settled {
      RoundsEnd(judge, answers, listings, evaluations);
    } else {
      LastOfAppend(trace, Publish(Failed));
      trace := trace + [Publish(Failed)];
    }
    VerdictMeans(judge, answers, listings, round);
  }
}
