# GPT-Trader: verified models

Dafny models of the parts of GPT-Trader whose correctness is hardest to see by reading, with
proofs of what they promise. `dafny verify dfyconfig.toml` checks everything.

| files | what they model |
|---|---|
| `Fills`, `Positions`, `OrderIndependence`, `AmbiguityTightness`, `PositionLaws`, `OrderSensitivity`, `Projection`, `ProjectionLaws`, `ProjectionSymmetry` | `project_position`: replayable fill accounting |
| `Decimals`, `FillFacts` | canonical decimal texts and the construction of fill facts |
| `StatusProtocol`, `StatusRuns`, `QueuedRun` | the required merge status, posted by two kinds of concurrent run |
| `TradingCalendar` | open-session arithmetic |
| `GlobPatterns`, `MergeRule` | the trading trigger's glob compiler and merge decision |
| `CircuitBreakers`, `ErrorHandling` | circuit breaker and retry loop |
| `DocsReachability` | the docs link walk |
| `CanaryWatchdog` | the canary restart watchdog |
| `Sequences`, `Wrappers` | sums, filters and permutations; result types |

How the models read:

- Money and quantities are exact reals; Python's decimal context can round the average-price
  division, and the theorems are about exact arithmetic. Instants are integers.
- The accounting proof goes through a closed form of one timestamp's group that depends only
  on sums over its fills, then lifts it to whole runs. The ambiguity flag is specified without
  loops (`OrderIndependence.Ambiguous`): some timestamp's group is two-sided, or takes the
  inventory strictly through zero at more than one price.
- Sorted, deduplicated tuples (reasons, fees, flagged paths) are represented by the set or map
  they list.
- In the status protocol the environment may edit the pull request between any two API calls.
  A judge is any function of (file listing, head, body). A head that has been replaced never
  returns. Serialisation of pull-request runs and "the newest event gets a run" come from
  `.github/workflows/trading-trigger.yml`.
- Open time is the number of open instants, counted one by one, so the measure does not share
  any code with the loop it judges.
- `hide` statements in proofs only keep definitions out of the solver's way.

What the proofs found:

- The order flag never misses an order that matters, and it is exact for one-sided groups. On
  two-sided ones it is cautious: a two-sided group's order matters exactly when it does not end
  flat and the lots on the side it ends on (the fills of that side, and the opening if it is on
  that side) have several prices (`OrderSensitivity.Contested`,
  `OrderMattersExactlyWhenContested`, and for whole runs `RunOrderMattersExactlyWhenContested`).
- A newline in the last segment of a path hides it from every directory pattern `P/**`
  (`NewlineEscapesDirectoryGlob`); one before the last slash need not, since a single star
  matches it (`NewlineInDirectoryCanMatch`). `DirectoryPatternGlob` states the exact set of
  paths matched.
- An exception that is not a trading error is judged by the breaker as a plain trading error
  once retries are exhausted, but as itself on the fail-fast path; `WithRetry` states both.
- "The first half-open failure reopens the breaker" fails after a success recorded while it is
  open (`UndisciplinedSuccessDelaysReopening`). `FailureOpensExactlyWhen` gives the exact
  condition; every history of handler calls and resets meets it (`HandlerReopensAtOnce`).
- A queue run that stopped right after its post could leave a success standing for a body the
  trigger rejects (`SettleReadIsNeeded`); the read after the post is what rules it out.
- A head that moves while the queue run evaluates can leave a failure on a pull request the
  trigger accepts (`MovedHeadLeavesFailure`). `FinalStatus` says exactly when the final status is
  the verdict; with no edit after queueing and no run broken off it always is (`FinalVerdict`).
- In `assess`, a blank `Reserved:` value already counts as a declared effect, so the separate
  blank test changes nothing (`PassesExactlyWhen`).

## Model

| member | source | states |
|---|---|---|
| Positions.AddingGroup | src/gpt_trader/core/fill_accounting.py:194-195 | Any sequence of same-direction fills realizes nothing and ends at the size-weighted average of the old entry and the fill prices. |
| Positions.ReducingGroup | src/gpt_trader/core/fill_accounting.py:196-203 | Opposite fills that together do not exceed the position realize their total gain over the unchanged entry; an exact close leaves entry 0. |
| Positions.CrossingGroup | src/gpt_trader/core/fill_accounting.py:196-203 | Opposite fills at one price that exceed the position close all of it at that price and reopen at that price, also when some prefix closes it exactly. |
| OrderIndependence.GroupOrderFree | src/gpt_trader/core/fill_accounting.py:169-181 | Every permutation of a group that passes the ambiguity test leads to the same quantity, entry and realized PnL. |
| OrderIndependence.FlaggedMeans | src/gpt_trader/core/fill_accounting.py:170-181 | A timestamp is flagged exactly when two of its fills differ in side, or the inventory changes sign across it and two of its fills differ in price. |
| OrderIndependence.AmbiguousCut | src/gpt_trader/core/fill_accounting.py:165-181 | A run is flagged exactly when its part up to a time, or its part after it from the inventory then held, is flagged. |
| OrderIndependence.AmbiguousPermutation | src/gpt_trader/core/fill_accounting.py:165-181 | The flag does not depend on the order in which fills are listed. |
| OrderIndependence.OrderFree | src/gpt_trader/core/fill_accounting.py:161-203 | When nothing is flagged, all linear orders consistent with the timestamps give the same position. |
| AmbiguityTightness.FlagIsNecessary | src/gpt_trader/core/fill_accounting.py:170-181 | A flagged one-sided group has two orders with different realized PnL, and the lemma builds them. |
| OrderSensitivity.UncontestedAgrees | src/gpt_trader/core/fill_accounting.py:186-206 | All orders of a two-sided group book one position if it ends flat or the lots on the side it ends on share one price. |
| OrderSensitivity.ContestedDiffers | src/gpt_trader/core/fill_accounting.py:186-206 | Every other two-sided group, and every flagged one-sided one, has two orders with different realized PnL; the lemma builds them for an opening on either side or flat. |
| OrderSensitivity.OrderMattersExactlyWhenContested | src/gpt_trader/core/fill_accounting.py:165-206 | For every group: two orders book different positions if and only if the group is contested, a condition on the opening and the fills. |
| OrderSensitivity.RunOrderMattersExactlyWhenContested | src/gpt_trader/core/fill_accounting.py:161-206 | For every run: at some timestamp two admissible orders of the fills so far realize different PnL if and only if some group is contested where the run reaches it. |
| OrderSensitivity.FlagIsSoundAndOneSidedExact | src/gpt_trader/core/fill_accounting.py:165-181 | For every run: if the order can matter the run is flagged, and for runs of one-sided groups the converse holds too. |
| OrderSensitivity.TwoSidedFlagCanBeIdle | src/gpt_trader/core/fill_accounting.py:175-180 | A witness that the flag is only cautious on two-sided groups: flagged, uncontested, and all orders agree. |
| PositionLaws.RunConserves | src/gpt_trader/core/fill_accounting.py:186-206 | For every mark, realized plus unrealized PnL grows by exactly the sum of signed size times (mark minus price), through adds, closes and flips. |
| PositionLaws.EntryWithin | src/gpt_trader/core/fill_accounting.py:194-203 | After at least one fill, flat means entry 0, and an open entry lies in every range that holds the fill prices and a nonflat opening entry. |
| PositionLaws.EntryPositive | src/gpt_trader/core/fill_accounting.py:119-122 | An open position always has a positive entry, as a baseline requires. |
| PositionLaws.RunMirror | src/gpt_trader/core/fill_accounting.py:190-203 | Swapping all sides and negating the opening negates quantity and realized PnL and keeps the entry. |
| Projections.SortedSorts | src/gpt_trader/core/fill_accounting.py:161-164 | The sort yields a permutation in the order of (time, order id, fill id), and so in time order. |
| Projections.SortIsStable | src/gpt_trader/core/fill_accounting.py:161-164 | Fills with the same key keep the order in which they were given. |
| Projections.GroupTest | src/gpt_trader/core/fill_accounting.py:170-181 | The per-group computation returns the net trade and the ambiguity predicate. |
| Projections.GroupByTime | src/gpt_trader/core/fill_accounting.py:165-167 | The dictionary has one entry per timestamp, ascending, each holding exactly that timestamp's fills in order. |
| Projections.AnyAmbiguous | src/gpt_trader/core/fill_accounting.py:168-181 | The first loop, carrying the inventory, decides the loop-free flag. |
| Projections.Book | src/gpt_trader/core/fill_accounting.py:191-203 | The branches of the second loop compute the position step the laws are about. |
| Projections.Account | src/gpt_trader/core/fill_accounting.py:186-206 | The second loop computes the run of position steps and, per currency, the total of the fees paid. |
| Projections.FeesConcat | src/gpt_trader/core/fill_accounting.py:204-206 | Fee totals of two batches add up currency by currency. |
| Projections.OneFee | src/gpt_trader/core/fill_accounting.py:204-206 | One fill's fee counts in its own currency, or under `unknown` if it names none; with the additivity above this fixes every total. |
| Projections.ProjectPosition | src/gpt_trader/core/fill_accounting.py:144-220 | The whole function, with its symbol error, missing baseline, flagged and complete outcomes, equals the loop-free specification. |
| ProjectionLaws.FailsExactlyWhen | src/gpt_trader/core/fill_accounting.py:151-154 | The projection fails exactly when the baseline or some fill has another symbol. |
| ProjectionLaws.ReasonsExactly | src/gpt_trader/core/fill_accounting.py:155-185 | The reasons are the coverage reasons, an unknown opening exactly without a baseline, and an unknown order exactly when some timestamp after the baseline is flagged. |
| ProjectionLaws.ReportsExactly | src/gpt_trader/core/fill_accounting.py:157-220 | A position is given exactly when there is no reason; the count is of the fills after the baseline, or of all without one; a withheld result has no fees; fees are covered exactly when every fill after the baseline has a fee and a nonempty currency. |
| ProjectionLaws.NothingAfterBaseline | src/gpt_trader/core/fill_accounting.py:186-189 | With no fill after it, a baseline projects to itself: its quantity, its price or 0, nothing realized. |
| ProjectionLaws.AnyTimeOrder | src/gpt_trader/core/fill_accounting.py:161-220 | Every admissible execution order books exactly the position, fees and count that a complete projection reports. |
| ProjectionLaws.InputOrderIrrelevant | src/gpt_trader/core/fill_accounting.py:144-220 | Permuting the input list changes nothing: result, reasons, fees, count or error, even with equal sort keys. |
| ProjectionLaws.ProjectionConserves | src/gpt_trader/core/fill_accounting.py:186-206 | A complete projection is worth, at every mark, its baseline plus what the fills after it gained. |
| ProjectionLaws.CheckpointReplay | src/gpt_trader/core/fill_accounting.py:90-122 | Projecting to a time, recording the result as the baseline there and projecting again agrees with one projection: same quantity and entry, realized PnL, fees and counts add up, and the whole is complete exactly when both parts are. |
| ProjectionSymmetry.ProjectionMirror | src/gpt_trader/core/fill_accounting.py:144-220 | Mirroring every fill and the baseline mirrors the projection and keeps reasons, fees and count. |
| Decimals.SameValueSameText | src/gpt_trader/core/fill_accounting.py:37-42 | Decimals of equal value have equal texts, whatever their coefficients and exponents. |
| Decimals.RoundTrip | src/gpt_trader/core/fill_accounting.py:27-42 | Parsing the canonical text of any finite decimal gives back its value. |
| Decimals.TextIdentifiesValue | src/gpt_trader/core/fill_accounting.py:37-42 | Texts are equal if and only if values are. |
| Decimals.NormaliseAgain | src/gpt_trader/core/fill_accounting.py:76-84 | Normalising a canonical text is the identity. |
| Decimals.SpellingParses | src/gpt_trader/core/fill_accounting.py:27-34 | Every sign, digits around an optional point, and optional signed exponent parse to the number they spell. |
| Decimals.OnlySpellingsParse | src/gpt_trader/core/fill_accounting.py:27-34 | Every text that parses is such a spelling. |
| FillFacts.ConstructAgain | src/gpt_trader/core/fill_accounting.py:68-84 | Constructing a fact from its own texts gives the same fact. |
| FillFacts.ConstructExactlyWhen | src/gpt_trader/core/fill_accounting.py:68-84 | Construction succeeds exactly for named fills with a buy or sell side, positive quantity and price texts and a readable fee if any; it keeps all fields and the values of the numbers. |
| FillFacts.PriceSetTest | src/gpt_trader/core/fill_accounting.py:178-178 | More than one distinct price text in a group means more than one price, and conversely. |
| FillFacts.TextGroupTest | src/gpt_trader/core/fill_accounting.py:170-181 | The ambiguity test on side texts, signed text sums and price texts decides the test on the fills they spell. |
| StatusProtocol.StepKeepsInv | scripts/ci/trading_trigger_status.py:523-597 | Every step of every participant keeps: file listings belong to the judged head, verdicts are honest, and a stale or undecided queue status always has someone left to replace it. |
| StatusProtocol.QuiescentStatus | scripts/ci/trading_trigger_status.py:555-597 | In every interleaving, once edits stop and all runs have finished, normally or through the error handler, success on the queue commit implies the judge accepts the final head and body, and the commit is not left pending. |
| StatusProtocol.SuccessIsHonest | scripts/ci/trading_trigger_status.py:424-429 | At every moment a success is the judge's verdict on a head and body the pull request really had, with that head's files. |
| StatusProtocol.SettleReadIsNeeded | scripts/ci/trading_trigger_status.py:566-575 | A run reaches a rejected body under a success with only the queue run's re-read outstanding. |
| StatusRuns.PrPostsExplained | scripts/ci/trading_trigger_status.py:555-597 | In every run: a pull-request run's post on the queue commit is success exactly when the trigger accepts the pull request at that run's last second read, else failure; it was eligible and at the event's head when first read; its pending and error posts. |
| StatusRuns.QueuePostsExplained | scripts/ci/trading_trigger_status.py:555-597 | In every run: a queue verdict is success exactly when its last two reads show one head and the trigger accepts the second; pending only before the first verdict; at most three settle checks, each ending the run exactly when head and body are as judged; giving up, after four verdicts, posts failure; no other step changes the status. |
| StatusRuns.FinalVerdict | scripts/ci/trading_trigger_status.py:555-597 | Completeness: if edits stop before the pull request is queued and no run breaks off afterwards, every quiescent queued world shows exactly the trigger's verdict on it. |
| StatusRuns.FinalStatus | scripts/ci/trading_trigger_status.py:555-597 | For every run: at quiescence the last post decides, and a verdict is on the pull request as it stands unless the head moved between the last evaluation's reads. |
| StatusRuns.MovedHeadLeavesFailure | scripts/ci/trading_trigger_status.py:424-428 | A run that ends in failure on an accepted pull request because its head moved during the queue run's evaluation. |
| QueuedRun.Evaluate | scripts/ci/trading_trigger_status.py:398-429 | A queued evaluation makes exactly these calls in order: read, pending post the first time only, file listing, read; it passes if and only if both reads show one head and the judge accepts what was read and listed, else it fails. |
| QueuedRun.RoundsAt | scripts/ci/trading_trigger_status.py:555-577 | The dialogue call by call, from the API's answers: which answer each read returned, which listing was used, and the post these call for. |
| QueuedRun.HeldStillMeans | scripts/ci/trading_trigger_status.py:570-572 | The settle check compares head and body, and only these, of the last read with what was judged. |
| QueuedRun.Settle | scripts/ci/trading_trigger_status.py:555-577 | For every answer sequence: the whole dialogue is fixed; the run stops at the first evaluation whose following read finds the pull request as judged; if none of three does, a fourth evaluation is followed by a failure. The last status is success if and only if the run settled, its last evaluation read one head and the judge accepted it, and the very next read then confirmed it; otherwise it is a failure. |
| TradingCalendar.ClosedUntilNextOpen | src/gpt_trader/core/trading_calendar.py:88-90 | From a closed instant the market stays closed until the next open, and opens there. |
| TradingCalendar.OpenUntilNextClose | src/gpt_trader/core/trading_calendar.py:92-94 | From an open instant the market stays open until the next close, and is closed there unless a session opens at that instant. |
| TradingCalendar.AdvanceByOpenTime | src/gpt_trader/core/trading_calendar.py:108-151 | The loop terminates and lands on the earliest instant with exactly the asked open time; it fails only for a negative duration or when the schedule holds less. The two "non-advancing" errors are unreachable for a schedule. |
| TradingCalendar.LandsOrRunsOut | src/gpt_trader/core/trading_calendar.py:126-129 | The schedule runs out exactly when no landing instant exists. |
| TradingCalendar.AdvanceIsAnAction | src/gpt_trader/core/trading_calendar.py:121-151 | Advancing by a and then b lands where advancing by a + b does, in both directions, including landings on a close and back-to-back sessions. |
| TradingCalendar.AdvanceIsMonotone | src/gpt_trader/core/trading_calendar.py:121-151 | A later start or a longer duration never lands earlier. |
| TradingCalendar.AlwaysOpenIsAddition | src/gpt_trader/core/trading_calendar.py:115-115 | On the 24x7 calendar the landing is start plus duration. |
| GlobPatterns.CompileGlob | src/gpt_trader/agents/trading_trigger.py:366-384 | The loop's output, read as a regular expression, matches exactly the paths the direct glob matcher accepts, for every path. |
| GlobPatterns.CompiledMeansGlob | src/gpt_trader/agents/trading_trigger.py:366-384 | Compilation preserves meaning, pattern by pattern and path by path. |
| GlobPatterns.DirectoryGlob | src/gpt_trader/agents/trading_trigger.py:373-375 | A literal directory followed by a slash and a double star matches exactly the paths with that prefix, up to case, with no newline after it. |
| GlobPatterns.AnywhereGlob | src/gpt_trader/agents/trading_trigger.py:370-372 | A leading double-star directory matches when the path, or some part of it after a slash with no newline before, matches the rest. |
| GlobPatterns.StarGlob | src/gpt_trader/agents/trading_trigger.py:376-378 | A single star eats any run without a slash, and nothing else. |
| GlobPatterns.DoubleStarGlob | src/gpt_trader/agents/trading_trigger.py:373-375 | A double star not followed by a slash eats any run without a newline, and nothing else. |
| GlobPatterns.FoldsCase | src/gpt_trader/agents/trading_trigger.py:382-384 | Characters are matched up to the case of an ASCII letter. |
| GlobPatterns.GlobJoin | src/gpt_trader/agents/trading_trigger.py:366-384 | Two patterns that do not run into each other match a path exactly when it splits into a match of each. |
| GlobPatterns.DirectoryPatternGlob | src/gpt_trader/agents/trading_trigger.py:373-384 | For every pattern P not ending in a double star, `P/**` matches exactly the paths with a slash before which P matches and after which there is no newline. |
| GlobPatterns.NewlineEscapesDirectoryGlob | src/gpt_trader/agents/trading_trigger.py:373-384 | A path with a newline in its last segment is matched by no pattern of that shape. |
| GlobPatterns.NewlineInDirectoryCanMatch | src/gpt_trader/agents/trading_trigger.py:376-378 | A path with a newline before its last slash that such a pattern does match. |
| MergeRule.FlaggedByDefault | src/gpt_trader/agents/trading_trigger.py:393-409 | Below a flagged directory pattern, stars allowed, or under an unreviewed top level, a path is flagged unless an exception matches; a path reviewed by name is flagged regardless. |
| MergeRule.UnflaggedByDefault | src/gpt_trader/agents/trading_trigger.py:399-409 | Matched by no flag pattern and under a reviewed top level, a path is flagged exactly when it is reviewed by name. |
| MergeRule.TopLevelMeans | src/gpt_trader/agents/trading_trigger.py:393-396 | The top level is the path up to and including its first slash, or the whole path. |
| MergeRule.ReservedValues | src/gpt_trader/agents/trading_trigger.py:557-570 | The loop adds to the plain values what lines without one declare in containers, never a `none`. |
| MergeRule.EffectShows | src/gpt_trader/agents/trading_trigger.py:557-570 | A value other than `none` is collected exactly when some line declares one, plainly or in a container. |
| MergeRule.NoneMeans | src/gpt_trader/agents/trading_trigger.py:354-354 | `none` is that word in any case with an optional full stop and white space around it. |
| MergeRule.AuthorizesMeans | src/gpt_trader/agents/trading_trigger.py:644-645 | A SHA authorizes a head exactly when it has at least seven characters and is a prefix of it up to case. |
| MergeRule.CleanReviewMeans | src/gpt_trader/agents/trading_trigger.py:700-716 | A clean review means: every non-`none` review line parses, some names this head, and all that do are clean. |
| MergeRule.PassesExactlyWhen | src/gpt_trader/agents/trading_trigger.py:741-794 | A pull request passes if and only if it declares an effect and some SHA of at least seven characters is a prefix of its head up to case, or it plainly declares `none`, nothing else is declared anywhere, and flagged paths have clean reviews of this head; the paths reported are the flagged ones. |
| MergeRule.MorePathsNeverUnblock | src/gpt_trader/agents/trading_trigger.py:741-794 | Adding changed paths never clears a blocker. |
| CircuitBreakers.CircuitBreaker.RecordSuccess | src/gpt_trader/errors/handler.py:100-112 | The fields move as the success event does. |
| CircuitBreakers.CircuitBreaker.RecordFailure | src/gpt_trader/errors/handler.py:114-132 | The fields move as the failure event does; unexpected errors change nothing. |
| CircuitBreakers.CircuitBreaker.ShouldAttemptCall | src/gpt_trader/errors/handler.py:134-155 | The gate's answer and its move to half-open. |
| CircuitBreakers.CircuitBreaker.ResetBreaker | src/gpt_trader/errors/handler.py:402-406 | The fields move as the reset event does. |
| CircuitBreakers.HistoryExplains | src/gpt_trader/errors/handler.py:100-155 | Over every event history: the failure count is the expected failures since the last success or reset, closed is below the threshold with no successes counted, open and half-open know the last failure, and half-open counts the successes of its current period, fewer than three. |
| CircuitBreakers.OpenRecovers | src/gpt_trader/errors/handler.py:139-152 | An open breaker half-opens at every check later than its last failure plus the timeout. |
| CircuitBreakers.GateShutExactlyWhen | src/gpt_trader/errors/handler.py:134-155 | Over every history the gate is shut exactly while the breaker is open and no more than the timeout has passed since the last expected failure. |
| CircuitBreakers.SuccessClosesExactlyWhen | src/gpt_trader/errors/handler.py:100-112 | Over every history a success leaves the breaker closed exactly when it was closed or this is the third success of its half-open period. |
| CircuitBreakers.FailureOpensExactlyWhen | src/gpt_trader/errors/handler.py:114-132 | Over every history, an expected failure leaves the breaker open if and only if it was open or the failures since the last success or reset, with this one, reach the threshold. |
| CircuitBreakers.HalfOpenFailureReopens | src/gpt_trader/errors/handler.py:114-132 | Hence, if no success was recorded while open, the first expected failure of a half-open period without success reopens the breaker. |
| CircuitBreakers.UndisciplinedSuccessDelaysReopening | src/gpt_trader/errors/handler.py:100-103 | A history with a success recorded while open, after which a half-open failure does not reopen. |
| ErrorHandling.ErrorHandler.RecordError | src/gpt_trader/errors/handler.py:327-331 | The history is always the last hundred errors recorded, in order. |
| ErrorHandling.ErrorHandler.Attempts | src/gpt_trader/errors/handler.py:217-304 | Every call but the last raised an error that is retried on, recoverable, not failing fast and without a fallback; the last outcome leaves exactly one ending: value, re-raised, aborted, fallback or, after the last attempt, exhausted, in that precedence. The errors recorded are the wrapped errors raised, in order; the breaker record of each exit and the exact sleep are fixed. |
| ErrorHandling.ErrorHandler.WithRetry | src/gpt_trader/errors/handler.py:198-304 | The same behind the gate: no call exactly when the gate refuses, at most max_attempts otherwise; one gate check, then at most one breaker record as the ending demands; total sleep below 1.5 times max_delay times (max_attempts - 1). |
| ErrorHandling.DelayBound | src/gpt_trader/errors/handler.py:263-271 | Every jittered delay is positive and below one and a half times the cap. |
| ErrorHandling.DelayRange | src/gpt_trader/errors/handler.py:263-271 | Jitter moves a delay from its nominal value by the drawn fraction, at most half of it either way; without jitter it is exact. |
| ErrorHandling.NominalGrows | src/gpt_trader/errors/handler.py:263-266 | Nominal delays start at the initial delay and grow by the factor until the cap. |
| ErrorHandling.TotalDelayBound | src/gpt_trader/errors/handler.py:256-288 | The pauses of a call add up to less than one and a half times the cap for each. |
| ErrorHandling.CallsKeepDiscipline | src/gpt_trader/errors/handler.py:209-224 | A call through the handler never records a success while the breaker is open. |
| ErrorHandling.HandlerHistoryIsDisciplined | src/gpt_trader/errors/handler.py:209-224 | Nor does any history made of handler calls and resets. |
| ErrorHandling.HandlerReopensAtOnce | src/gpt_trader/errors/handler.py:114-132 | After every such history, an expected failure in a half-open period without success reopens the breaker. |
| DocsReachability.WalkReachable | scripts/maintenance/docs_reachability_check.py:249-288 | The walk terminates on every link graph, with cycles and duplicate queue entries, and returns exactly the files a chain of followed links leads to. |
| DocsReachability.LinkedIsLeast | scripts/maintenance/docs_reachability_check.py:257-286 | Those files lie in every set that holds the start and is closed under followed links. |
| DocsReachability.LinkedIsClosed | scripts/maintenance/docs_reachability_check.py:257-286 | They are themselves such a set. |
| DocsReachability.Site.Targets | scripts/maintenance/docs_reachability_check.py:257-286 | The links followed from a file are exactly the links of a readable file that lead to existing docs. |
| DocsReachability.Orphans | scripts/maintenance/docs_reachability_check.py:312-313 | The orphan list holds exactly the docs without a link path, so it is empty exactly when every doc has one. |
| CanaryWatchdog.Watchdog.PollOnce | scripts/ops/canary_watchdog.py:179-219 | One poll updates counter and restart time and decides as the step function says; a liveness query that raises changes neither. |
| CanaryWatchdog.Watch | scripts/ops/canary_watchdog.py:244-302 | The poll loop stops at the first failed restart or failed liveness query and otherwise handles every poll. |
| CanaryWatchdog.CounterCountsReds | scripts/ops/canary_watchdog.py:189-192 | From 0, the counter is the red polls since the last green or successful restart, capped at the threshold, for every threshold. |
| CanaryWatchdog.RestartsOnlyWhenDue | scripts/ops/canary_watchdog.py:193-217 | A restart is attempted exactly when that many reds have come and the cooldown is over. |
| CanaryWatchdog.DecisionMeans | scripts/ops/canary_watchdog.py:187-219 | Every poll's decision in terms of the polls: in particular, a restart is attempted at every red poll that completes the count, unless it comes sooner than the cooldown after the last restart. |
| CanaryWatchdog.LastRestartIsKnown | scripts/ops/canary_watchdog.py:213-217 | The time on record is the time of the last successful restart, or the one loaded if there was none. |
| CanaryWatchdog.RestartsAreSpaced | scripts/ops/canary_watchdog.py:196-217 | However the clock moves and for every cooldown: a recorded restart comes at least one cooldown after the one before it, and cooldowns add up over several; with a cooldown that is not negative any two are at least that far apart. |

## Left out

- Rounding by Python's decimal context: the accounting laws hold in exact arithmetic.
- Timestamp parsing, checksums, evidence, actor and covered-order fields: they do not enter the projection.
- Decimals.OnlySpellingsParse: surrounding whitespace, underscores and non-ASCII digits are not modelled.
- Fetching, signing, posting over HTTP, and finding a pull request by its head commit: the protocol keeps only reads, posts and the number it already knows.
- StatusProtocol.QuiescentStatus: assumes no run is killed and the error handler's posts land; the queue branch, once created, stays.
- Reviews and comments fetched inside the judge: the judge is a function of the file listing, head and body.
- TradingCalendar.AdvanceByOpenTime: schedules are finite sequences of sessions or always open; the exchange library's calendar and its out-of-range errors are not part of this model, nor is the session date.
- Case folding and white space beyond ASCII, Markdown and HTML rendering, the plain and wide line parsers and the review grammar: declarations and review parses are inputs.
- The content scan for live-capable tokens, symlinks and submodules.
- ErrorHandling.ErrorHandler.WithRetry: the wrapped function does not call back into the handler, and non-`Exception` interrupts are not modelled; logging is left out.
- CanaryWatchdog.CounterCountsReds: starts from a fresh counter; loading and saving the counter between processes is left out.
- Link extraction, path resolution and metadata checks of the docs script: the walk starts from resolved targets.
- Command-line, container, dashboard, preflight and cleanup code: only easy members.
