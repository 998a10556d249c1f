# riskforge: model and proofs of the quote gateway's concurrent core

riskforge asks several insurance carriers for a price in parallel, hedges slow ones,
guards each with a circuit breaker, and files the answers in a table. This project
models that core in Dafny and proves what its protocols keep in every run.

| module | models |
|---|---|
| `Domain`, `Ordering` | quotes, carriers, durations; the comparator of the final sort |
| `Collector` | first arrival per carrier, then sort; the answer as a function of the arrivals |
| `Eligibility` | the capability and breaker filter, the pending table, the choice of a hedge target |
| `FanOut` | the fan-out as a transition system: primaries, monitor, hedge goroutines, closer, collector, channel, contexts, clock |
| `FanOutSafety`, `FanOutResults`, `FanOutProgress`, `FanOutTheorems` | what its steps keep, its measure, and the theorems over all runs |
| `FanOutPending` | what follows from a pending table that never shrinks: hedges for answered carriers, and when the monitor stops |
| `FanOutTrails` | what each goroutine does over a whole run, and where the quotes of the answer come from |
| `BreakerHistory`, `Breaker` | a history automaton without counters, and the breaker object that refines it for calls that do not overlap |
| `BreakerConcurrent` | any number of goroutines inside `Execute`, one atomic access per step, panics included |
| `BreakerSolo` | the concurrent breaker when calls do not overlap: it refines the history automaton |
| `BreakerRecovery` | how long Open lasts under concurrent calls, and when an Open carrier can come back behind the orchestrator's filter |
| `BreakerGauge` | when the state gauge can be trusted under concurrent calls |
| `EmaTracker`, `EmaConcurrent` | the moving average over the reals, the compare-and-swap loop, and any number of goroutines in `Record` |
| `QuoteTable`, `Cleanup` | upserts, expiring lookups, partitioned deletes; the ticker running beside the request traffic |
| `RetryLoop` | the exponential-backoff loop over a stream of attempts |
| `GetQuotes` | lookup, fan-out, save; what a repeated request gets |

The transition systems share one shape: a `Step` names who moves and what the
environment chose, `Enabled` and `Apply` say when and how, an invariant is kept by
every step, and the theorems speak about every reachable state. Fields marked
*history* record the past and influence no step. Adapter results, limiter grants,
breaker readings, clock readings, cancellation and database responses are chosen by
the environment.

## Model

| member | source | states |
|---|---|---|
| `FanOutTheorems.ChannelIsClosedOnceAndLast` | internal/orchestrator/orchestrator.go:191-218 | in every interleaving the results channel is closed at most once, exactly once by the return, and no goroutine sends on or closes a closed channel |
| `FanOutTheorems.SendsNeverBlock` | internal/orchestrator/orchestrator.go:159-218 | sends over a whole run never exceed the buffer of two per carrier, so a goroutine at its select can always send, and with a live context can do nothing else |
| `FanOutTheorems.EveryRunIsFinite` | internal/orchestrator/orchestrator.go:143-230 | every run is at most as long as a measure of its first state |
| `FanOutTheorems.NoDeadlock` | internal/orchestrator/orchestrator.go:143-230 | until the return some step is enabled that no adapter, limiter, breaker or caller can withhold, by whatever rule breakers and limiters decide |
| `FanOutTheorems.ReturnsWithoutAnyFavour` | internal/orchestrator/orchestrator.go:143-230 | from every reachable state the fan-out can return although no waiting primary is granted a token and no adapter answers again, by whatever rule breakers and limiters decide |
| `FanOutTheorems.NothingRunsAfterReturn` | internal/orchestrator/orchestrator.go:193-220 | at the return every primary, hedge goroutine, the monitor and the closer have ended |
| `FanOutTheorems.ReturnsTheAnswer` | internal/orchestrator/orchestrator.go:210-256 | the returned list is the one answer fixed by the arrivals: cheapest first, equal premiums by carrier ID in dictionary order, one quote per carrier, first arrivals only; and every quote arrived exactly as often as it was sent |
| `FanOutTheorems.LiveSuccessesAreAnswered` | internal/orchestrator/orchestrator.go:324-340 | a primary that succeeded while the request was live was delivered and its carrier is in the answer, whatever happens afterwards |
| `FanOutTheorems.DeliveredCarriersAreAnswered` | internal/orchestrator/orchestrator.go:210-256 | when adapters stamp their own ID, every carrier whose primary delivered is in the answer, live or not, and every answer is an eligible carrier's |
| `FanOutTheorems.AnswersAreLabelled` | internal/orchestrator/orchestrator.go:324-340 | each returned quote is a primary's under the request ID or a hedge's marked as hedged |
| `FanOutTheorems.OutcomesAreAccounted` | internal/orchestrator/orchestrator.go:289-357 | one status per eligible carrier with an adapter, none for the others; success, tracker observation and offered result come together |
| `FanOutTheorems.HedgesAreAccounted` | internal/orchestrator/hedging.go:153-222 | hedges recorded, tokens taken, goroutines started and slots hedged are the same number, and no slot is hedged twice |
| `FanOutTheorems.EveryHedgeIsDue` | internal/orchestrator/hedging.go:101-194 | every hedge had waited at least the threshold its slot's carrier had at the start, out of warm-up, and went to the best of all eligible carriers with an adapter, another ID and no Open reading |
| `FanOutTheorems.OpenCarriersAreNotCalled` | internal/orchestrator/orchestrator.go:161-283 | a carrier the filter read as Open is called neither as primary nor as hedge |
| `FanOutTrails.RunsDoNotCallOpenCarriers` | internal/orchestrator/orchestrator.go:161-283 | no step of any run calls the adapter of a carrier that the filter read as Open |
| `FanOutTrails.EveryPrimaryMakesOneCall` | internal/orchestrator/orchestrator.go:289-357 | in every finished run each primary goes through exactly one of five sequences of steps, limiter, breaker, adapter, tracker, status and send in this order, and records the status of that sequence |
| `FanOutTrails.EveryHedgeMakesOneCall` | internal/orchestrator/hedging.go:204-222 | in every finished run each hedge calls the adapter once and ends on its error, or sends or drops its quote |
| `FanOutTrails.EveryHedgeWasAskedFor` | internal/orchestrator/hedging.go:156-201 | every hedge goes back to a scan of its slot in the run, on the breaker states read there, with a token granted there, at the reading of a tick taken |
| `FanOutTrails.AnswersComeFromAdapters` | internal/orchestrator/orchestrator.go:320-340 | every quote in the answer was returned by an adapter in the run: to a primary, and then filed with request ID and latency, or to a hedge, and then marked; every other field is unchanged |
| `FanOutPending.ScanFiresExactlyIf` | internal/orchestrator/hedging.go:166-196 | the monitor fires for a slot if and only if it has not fired for it before, its carrier was out of warm-up at the start and has been waited for at least its average times its multiplier, some eligible carrier may take the hedge, and its limiter grants a token; it fires at the best such carrier |
| `FanOutPending.AnsweredCarriersAreHedgedExactlyIf` | internal/orchestrator/hedging.go:150-196 | while the request is live some run can hedge a carrier that has already answered if and only if a tick can come before the deadline, some carrier with an adapter will have been waited for long enough before it, and another eligible carrier has an adapter |
| `FanOutPending.MonitorStopsExactlyIf` | internal/orchestrator/hedging.go:156-228 | at the end of a scan, whatever ran meanwhile, the monitor leaves its loop if and only if every slot had been hedged before the scan began |
| `FanOutPending.ScanVisitsEverySlot` | internal/orchestrator/hedging.go:156-228 | a scan that comes to its end has looked at every pending slot exactly once, however many hedges it fired, on the reading it began with |
| `FanOutSafety.StepsKeepOrder` | internal/orchestrator/orchestrator.go:191-218 | every step keeps the launch order, the wait order of the closer, and one close with no send after it |
| `FanOutProgress.StepDecreases` | internal/orchestrator/orchestrator.go:143-230 | every step, the clock's included, lowers the measure |
| `FanOut.ClassifyError` | internal/orchestrator/orchestrator.go:360-371 | a failure status exactly by sentinel: open circuit before rate limit before timeout, plain failure without any, never success |
| `Collector.Collect` | internal/orchestrator/orchestrator.go:210-230 | the receive loop keeps the first arrival per carrier ID, in order |
| `Collector.FirstArrivalsMembers` | internal/orchestrator/orchestrator.go:220-230 | a quote is kept exactly if nothing of its carrier arrived before it |
| `Collector.FirstArrivalsInOrder` | internal/orchestrator/orchestrator.go:220-230 | the kept quotes stand in the order of their arrival |
| `Collector.SortIsUnique` | internal/orchestrator/orchestrator.go:232-237 | deduplicated quotes have one sorted permutation, however unstable the sort |
| `Collector.AnswerIsDetermined` | internal/orchestrator/orchestrator.go:210-237 | any list the sort may return is the answer: cheapest first, equal premiums by carrier ID, distinct IDs, exactly the first arrivals |
| `Collector.AnswerIgnoresArrivalOrder` | internal/orchestrator/orchestrator.go:210-237 | the answer depends only on which quotes came first for their carrier |
| `Ordering.CompareIsTotalOrder` | internal/orchestrator/orchestrator.go:232-237 | the comparator is a total order that ties only one carrier at one premium |
| `Ordering.CompareMeansCheaper` | internal/orchestrator/orchestrator.go:232-237 | a quote goes first exactly if it is cheaper, or as cheap with a carrier ID that precedes at the first difference |
| `Eligibility.FilterEligibleCarriers` | internal/orchestrator/orchestrator.go:262-283 | keeps exactly the matching carriers not read as Open, in order and once each |
| `Eligibility.FilterIsDetermined` | internal/orchestrator/orchestrator.go:262-283 | the readings and the requested lines fix the filtered list |
| `Eligibility.OpenCarriersAreFilteredOut` | internal/orchestrator/orchestrator.go:270-274 | an ID whose every breaker read was Open is not eligible |
| `Eligibility.PrepareHedging` | internal/orchestrator/orchestrator.go:161-189 | the two loops build the hedgeable list and the pending table |
| `Eligibility.HedgeableMembers` | internal/orchestrator/orchestrator.go:161-181 | the hedge targets are, in order and once each, exactly the eligible carriers with an adapter, each with its own average |
| `Eligibility.PendingKeys` | internal/orchestrator/orchestrator.go:183-189 | one slot per distinct eligible ID, so no more slots than carriers |
| `Eligibility.PendingSlot` | internal/orchestrator/orchestrator.go:183-189 | each slot holds the start and threshold read for the last carrier with its ID |
| `Eligibility.SelectHedgeCandidate` | internal/orchestrator/hedging.go:234-255 | the scan loop computes the selection |
| `Eligibility.SelectFindsTheBest` | internal/orchestrator/hedging.go:231-255 | the selection has the lowest average of all candidates, among equals the lowest priority value, among those it is the first; and there is none exactly when there is no candidate |
| `Eligibility.SelectsTheBestEligible` | internal/orchestrator/hedging.go:231-255 | the same over all eligible carriers with an adapter, another ID and no Open reading |
| `Eligibility.BestIsUnique` | internal/orchestrator/hedging.go:231-255 | at most one index is best |
| `BreakerConcurrent.SlotIsExclusive` | internal/circuitbreaker/breaker.go:150-155 | halfOpenInFlight is 1 exactly while one goroutine is between its swap and its deferred release, panics included |
| `BreakerConcurrent.ProbeOwnsHalfOpen` | internal/circuitbreaker/breaker.go:150-179 | a slot won in HalfOpen keeps the state HalfOpen until that goroutine's own swap, which then succeeds |
| `BreakerConcurrent.EveryTripIsEarned` | internal/circuitbreaker/breaker.go:131-146 | every Closed to Open transition is won by a goroutine whose failure ended FailureThreshold failures without a reset |
| `BreakerConcurrent.EveryClosingIsEarned` | internal/circuitbreaker/breaker.go:168-177 | every HalfOpen to Closed transition is won by a goroutine whose success ended SuccessThreshold successes without a reset |
| `BreakerConcurrent.TransitionsAreConserved` | internal/circuitbreaker/breaker.go:113-176 | transitions balance with the state, and reported counts lag by the goroutines between swap and report |
| `BreakerConcurrent.QuiescentBreakerIsExact` | internal/circuitbreaker/breaker.go:104-179 | with no call in progress the reported counts are exact and the slot is free |
| `BreakerConcurrent.ExecuteReportsItsCall` | internal/circuitbreaker/breaker.go:104-179 | Execute calls the function at most once, not at all on refusal, and returns nil only if it ran and returned nil |
| `BreakerConcurrent.ProbesNeedTheSlot` | internal/circuitbreaker/breaker.go:104-155 | a call that did not load Closed runs the function only while it alone holds the slot, and only if it loaded HalfOpen or passed the timeout check |
| `BreakerConcurrent.RefusesExactlyIf` | internal/circuitbreaker/breaker.go:104-152 | a finished call was refused, without calling the function, if and only if its timeout check failed or it found the slot taken; one that loaded Closed never is |
| `BreakerConcurrent.LateSwapsLeaveNoTrace` | internal/circuitbreaker/breaker.go:113-171 | a swap that comes too late changes nothing |
| `BreakerSolo.SoloCallFollowsHistory` | internal/circuitbreaker/breaker.go:104-179 | a whole Execute that nobody disturbs, from atomics that match a phase of the history, has the automaton's verdict and leaves atomics that match its next phase |
| `BreakerSolo.SoloCallEnds` | internal/circuitbreaker/breaker.go:104-179 | such a call comes to its end |
| `BreakerSolo.SequentialCallsFollowHistory` | internal/circuitbreaker/breaker.go:104-179 | calls that do not overlap, by any number of goroutines, leave the atomics where the history automaton goes |
| `BreakerRecovery.OpenLastsExactly` | internal/circuitbreaker/breaker.go:104-161 | with a caller free, Open holds at all clock readings before a time if and only if nobody has passed the timeout check and no stamp runs out before it: the stored openedAt, or one that a goroutine has loaded and not compared, or read off the clock and not stored |
| `BreakerRecovery.OpenCanEndAtOnce` | internal/circuitbreaker/breaker.go:109-136 | the timeout can be missed altogether: two callers trip the breaker and make it HalfOpen at one clock reading, because openedAt is stored after the swap |
| `BreakerRecovery.RecoversExactlyIf` | internal/orchestrator/orchestrator.go:267-274 | from any clock reading on, calls behind the filter can end Open if and only if one that passed it earlier has still to make its swap; otherwise the breaker stays Open for good |
| `BreakerGauge.GaugeFollowsOrderlyRuns` | internal/circuitbreaker/breaker.go:113-176 | while no swap is won before the previous transition has been reported, the gauge shows the state whenever no report is due |
| `BreakerGauge.GaugeCanStayWrong` | internal/circuitbreaker/breaker.go:113-176 | for every configuration and clock reading two goroutines, one tripping the breaker and one probing it with success OpenTimeout later, can leave a breaker that is not Open with a gauge that shows Open, all calls having returned |
| `BreakerGauge.GaugeIsExactExactlyIf` | internal/circuitbreaker/breaker.go:113-176 | the gauge is right in every run once all calls have returned if and only if at most one goroutine uses the breaker |
| `Breaker.WithDefaults` | internal/circuitbreaker/breaker.go:68-77 | positive fields are kept; the others become five failures, one success and thirty seconds |
| `Breaker.Breaker.constructor` | internal/circuitbreaker/breaker.go:68-86 | a new breaker is Closed with an empty history |
| `Breaker.Breaker.State` | internal/circuitbreaker/breaker.go:89-91 | returns the state of the history's phase |
| `Breaker.Breaker.Execute` | internal/circuitbreaker/breaker.go:104-127 | one step of the history automaton; refuses without calling exactly while the timeout runs; reports the right transitions; the gauge shows the state |
| `Breaker.Breaker.ExecuteClosed` | internal/circuitbreaker/breaker.go:131-146 | the Closed step: count failures, trip at the threshold, reset on success |
| `Breaker.Breaker.ExecuteHalfOpen` | internal/circuitbreaker/breaker.go:150-179 | the probe step: close at the threshold, reopen on failure, give the slot back |
| `Breaker.RunCalls` | internal/circuitbreaker/breaker.go:104-179 | after any sequence of calls that do not overlap, state and gauge are those of the history |
| `BreakerHistory.CounterIsStreak` | internal/circuitbreaker/breaker.go:131-146 | the failure counter reaches k exactly when the last k counted outcomes are failures |
| `BreakerHistory.PhasesMeanWhatTheySay` | internal/circuitbreaker/breaker.go:104-179 | in every history Closed holds the outcomes since it was entered with no complete streak; Open holds the stamp of the failed call that opened it, every later call having come within the timeout; HalfOpen holds the probes, all successful and too few |
| `BreakerHistory.TripsExactlyOnThreshold` | internal/circuitbreaker/breaker.go:131-146 | trips exactly on the FailureThreshold-th consecutive failure since entering Closed |
| `BreakerHistory.ClosesExactlyOnThreshold` | internal/circuitbreaker/breaker.go:150-179 | closes exactly on the SuccessThreshold-th consecutive successful probe, reopens exactly on a failed one and with its stamp |
| `BreakerHistory.OpensExactlyForTheTimeout` | internal/circuitbreaker/breaker.go:107-119 | an Open breaker refuses exactly the calls within OpenTimeout of the stamp of the failed call that opened it, and the next one is its probe |
| `BreakerHistory.CrossingsAreThePath` | internal/circuitbreaker/breaker.go:113-176 | the transitions a call reports are a path from the state before it to the state after it, two only for a call that ends the timeout, none exactly for a call that stays |
| `EmaTracker.SmoothingFactor` | internal/orchestrator/hedging.go:52-58 | every configuration gives a factor strictly between 0 and 1, by the rule of each case |
| `EmaTracker.EMATracker.constructor` | internal/orchestrator/hedging.go:45-69 | the average starts at twice the hint in whole milliseconds, with no observation |
| `EmaTracker.EMATracker.Record` | internal/orchestrator/hedging.go:73-89 | under any rival commits between load and swap, the state is the fold of the rivals' bursts and then this latency |
| `EmaTracker.EMATracker.HedgeThreshold` | internal/orchestrator/hedging.go:101-107 | no threshold exactly during warm-up, the average times the multiplier afterwards |
| `EmaTracker.AverageStaysInRange` | internal/orchestrator/hedging.go:51-81 | the average never leaves the range of twice the seed and the latencies |
| `EmaTracker.SteadyLatencyClosedForm` | internal/orchestrator/hedging.go:73-81 | under constant latency the distance is the initial one times the n-th power of 1 - alpha |
| `EmaTracker.SteadyLatencyMonotone` | internal/orchestrator/hedging.go:73-81 | each such observation brings the average strictly closer from the same side |
| `EmaTracker.SteadyLatencyConverges` | internal/orchestrator/hedging.go:73-81 | a number of observations fixed in advance brings it within any distance |
| `EmaConcurrent.NoObservationIsLost` | internal/orchestrator/hedging.go:73-89 | in every interleaving the stored state is the fold of all commits in swap order, the count is their number, and the commits of each goroutine are the latencies it was asked to record |
| `EmaConcurrent.SwapFailsExactlyToARival` | internal/orchestrator/hedging.go:73-89 | in every interleaving a swap fails if and only if another goroutine committed since the load, and never for the goroutine's own commits |
| `Domain.Milliseconds` | internal/adapter/spanner/quote_repo.go:33 | whole milliseconds, cut toward zero |
| `QuoteTable.QuoteRepo.Save` | internal/adapter/spanner/quote_repo.go:23-47 | a batch of upserts, applied in order or not at all |
| `QuoteTable.QuoteRepo.FindByRequestID` | internal/adapter/spanner/quote_repo.go:49-85 | error, miss exactly if no live row exists, else the conversion of the rows found |
| `QuoteTable.QuoteRepo.DeleteExpired` | internal/adapter/spanner/quote_repo.go:87-95 | removes the expired rows it reaches and keeps all others, even when it fails part way; returns their number unless it fails |
| `QuoteTable.CleanupIsInvisible` | internal/adapter/spanner/quote_repo.go:49-95 | for any saves and partial deletions with a clock that never goes back, lookups may answer exactly what a table without deletions may |
| `QuoteTable.PurgedRows` | internal/adapter/spanner/quote_repo.go:87-95 | a pass removes exactly the expired rows in reach |
| `QuoteTable.PartsTogetherDelete` | internal/adapter/spanner/quote_repo.go:87-95 | however a pass is split up in time, what its parts reach together holds no row that had expired when the first began |
| `QuoteTable.FullPassLeavesLiveRows` | internal/adapter/spanner/quote_repo.go:87-95 | a complete pass leaves exactly the live rows and a second finds nothing |
| `QuoteTable.UpsertedRows` | internal/adapter/spanner/quote_repo.go:23-47 | distinct carriers never overwrite each other and other keys are untouched |
| `QuoteTable.SaveThenFind` | internal/adapter/spanner/quote_repo.go:23-85 | a lookup after a save returns exactly the unexpired quotes by ascending premium, latency in whole milliseconds |
| `QuoteTable.SaveThenFindLater` | internal/adapter/spanner/quote_repo.go:23-95 | the same with deletions and other requests' saves in between |
| `QuoteTable.SavingTwiceChangesNothing` | internal/adapter/spanner/quote_repo.go:23-47 | saving an answer twice is saving it once, at the later commit time |
| `Cleanup.SweepsAreInvisible` | internal/cleanup/cleanup.go:38-77 | in every interleaving of saves and parts of sweeps the table is what that traffic makes of it, and lookups may answer as if nothing were deleted |
| `Cleanup.StopIsSafeAndFinal` | internal/cleanup/cleanup.go:38-65 | any number of Stop calls close the stop channel at most once, and after one returns no sweep runs |
| `Cleanup.StopCanReturn` | internal/cleanup/cleanup.go:38-65 | at any point of any run every Stop call can return without another tick, save or cancellation |
| `RetryLoop.WithDefaults` | internal/adapter/http_carrier.go:35-47 | fields that are not positive get their defaults, so at least one retry is always configured |
| `RetryLoop.DecisiveMeans` | internal/adapter/http_carrier.go:106-161 | stops on a decodable response below 400 or on any 4xx; network errors, 5xx and undecodable bodies are retried |
| `RetryLoop.Post` | internal/adapter/http_carrier.go:83-130 | the first decisive event settles the call, within MaxRetries + 1 attempts; all attempts fail exactly when nothing decides and nothing cancels; the sleeps are the backoff sequence |
| `RetryLoop.BackoffIsExponential` | internal/adapter/http_carrier.go:91-104 | the k-th sleep is RetryDelay times two to the k-1, and k sleeps add up to RetryDelay times two to the k, minus one |
| `RetryLoop.SettlesOnce` | internal/adapter/http_carrier.go:94-129 | the stream of attempts settles on one outcome after one number of attempts |
| `GetQuotes.GetQuotes` | internal/orchestrator/orchestrator.go:94-133 | fans out exactly when there is no usable cached row; a hit replays the table and changes nothing; a fan-out's answer is saved |
| `GetQuotes.KeysAreDistinct` | internal/orchestrator/orchestrator.go:373-381 | one client's request IDs never share a key, nor do two clients that send the same request ID |
| `GetQuotes.KeysMeetExactlyIf` | internal/orchestrator/orchestrator.go:376-381 | keys under client IDs of different length agree if and only if the shorter ID and its separator begin the longer one and the shorter one's request ID spells out the rest |
| `GetQuotes.RepeatedRequestReplaysTheAnswer` | internal/orchestrator/orchestrator.go:94-256 | miss, fan-out, save, repeat: the repeat returns exactly the unexpired quotes of the fan-out by ascending premium, filed under the key and with latency in whole milliseconds |
| `GetQuotes.RepeatedRequestHits` | internal/orchestrator/orchestrator.go:97-111 | miss, fan-out, save, repeat: the repeat misses exactly when every quote of the saved answer has expired |

## Where the code and its documentation differ

The model follows the code.

- `HTTPCarrierConfig.MaxRetries` is documented as "0 disables retries"; the code turns
  every value that is not positive into 3 (`http_carrier.go:26-27`, `37-39`). The
  configured count is honoured exactly when it is positive; this is the contract of
  `RetryLoop.WithDefaults`.
- `Post` is documented to retry network errors and 5xx; it also retries a response
  below 400 whose body does not decode, and any status of 600 or more.
- `docs/architecture.md:51` says an Open breaker "stays open for 30 seconds" and then
  lets one probe through. Under concurrent calls it may leave Open at once
  (`BreakerRecovery.OpenCanEndAtOnce`), and behind the orchestrator's filter it gets no
  probe at all once the calls in progress have returned, because the filter asks for the
  stored state, not for the timeout (`orchestrator.go:272`). `OpenLastsExactly` and
  `RecoversExactlyIf` give the exact conditions.
- The tracker's "p95" is a smoothed mean.
- `hedgeMonitor` is documented to watch in-flight calls and to end "when all pending
  slots are resolved" (`hedging.go:109`, `132`). The pending table never shrinks, so
  it also hedges carriers that have answered: under a live request, exactly if one is due
  and a tick comes before the deadline and another carrier can take the hedge
  (`FanOutPending.AnsweredCarriersAreHedgedExactlyIf`), and it ends by itself exactly when
  every slot has been hedged, answered or not (`FanOutPending.MonitorStopsExactlyIf`).
- The state gauge is meant to show the breaker's current state (`metrics_port.go:44`);
  with two goroutines it can stay wrong (`BreakerGauge.GaugeCanStayWrong`, `GaugeIsExactExactlyIf`).
- A replayed quote carries the client-scoped key as its request ID, because
  `FindByRequestID` fills in the key it was asked for.

## Left out

- No eligible carrier: `fanOut` returns an empty answer before anything starts; `FanOut` models every other case.
- Panics inside a fan-out: `BreakerConcurrent` covers panics in the guarded function; in `FanOut` adapters return a result or an error.
- The breaker inside the fan-out: `FanOut` lets it admit or refuse freely; its own rules are in the breaker modules.
- The tracker's P95 method: a plain read of the average; the averages read for the hedge targets are parameters of `Eligibility` and `FanOut`.
- Ticks after the deadline: `FanOut` leaves the monitor at most the one tick already buffered.
- The sort algorithm: any sorted permutation is allowed, and the answer is proved not to depend on which.
- Singleflight: `GetQuotes` covers calls that do not overlap; the library is not part of this model.
- The token bucket: golang.org/x/time/rate is not part of this model; grants are chosen freely.
- HTTP, JSON, middleware, Prometheus, logging, mock carriers, appetite and carrier repositories, `cli.Run`, Terraform.
- Floating point, integer wrap-around, the query's row limit: reals, unbounded integers, no limit. Strings are compared character by character.
- Stop before Start: `Stop` then waits until somebody calls `Start`; `Cleanup` models a ticker whose loop has been started.
