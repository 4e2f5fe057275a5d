# Fleet telemetry: a verified model

A Dafny model of the stateful parts of a fleet-telemetry back end, with proofs of what they keep.
Tables are maps, a transaction is one atomic step or a method that changes nothing when it fails,
times are integer milliseconds and doubles are real numbers. Verify it with
`dafny verify dfyconfig.toml --resource-limit 2000000`.

| file | what it models |
|---|---|
| `VisitPlan.dfy`, `VisitBook.dfy`, `VisitRuns.dfy`, `GeofenceTracker.dfy`, `VisitExamples.dfy` | geofence visits: planning a shift window, reconciling it with the stored visits write by write, running and re-running windows, the places of entry and exit |
| `Outbox.dfy` | the outbox reader: many passes over one table, row locks, crashes, backoff and expiry |
| `Quantiles.dfy`, `ForecastBand.dfy`, `InputContext.dfy`, `ForecastReader.dfy` | the forecast's input, the residual band learned from clean running, and the anomaly verdict |
| `IncrementalRollup.dfy`, `ForecastPass.dfy`, `WarmStart.dfy`, `WorkerContract.dfy` | the hourly rollup kept up to date, a budgeted pass over everything owed, a replay of the past, the check of the model's answer |
| `Backtest.dfy`, `BacktestLeads.dfy`, `BacktestUnits.dfy`, `AnomalyStates.dfy` | backtest scores and their merge laws, what each number counts, units, and how often a signal was anomalous |
| `Proposals.dfy`, `AssistantBudget.dfy` | deciding a proposal once, and a day's token allowance, both under concurrency; the answering loop |
| `FleetImport.dfy`, `CalendarDates.dfy` | a workbook of machines and loggers: plan, apply, apply again; which dates read back as written |
| `Corridor.dfy` | distance to a corridor's path in the flat plane |
| `Options.dfy`, `Ordering.dfy`, `Sets.dfy`, `RealArithmetic.dfy`, `Cadence.dfy` | shared small parts |

Where the proofs show the code to differ from what one would expect, or from its own comments:

- A geofence pass is refused exactly when two visits of one zone would begin in the same millisecond
  (`VisitBook.FreshOnce` fails), or when the plan leaves a machine inside a zone while another visit of that
  zone is open and stays so (`VisitBook.Blocked`): one entered after the window, with no stored later
  leave on the first, or a second carried visit. `GeofenceTracker.TrackWindow` commits exactly otherwise,
  and each way to be refused has an input (`VisitExamples.TwiceInOneMillisecond`,
  `ReopenedBeforeLaterVisit`, `TwoCarriedVisits`). A first run in order can only meet the first
  (`VisitRuns.AdmissibleWhenFirst`, `GeofenceTracker.TrackFirst`).
- A re-run takes up a corrected place of entry never, and one of exit only when the time moves with it.
  The batch law holds for times after any re-run (`VisitBook.RerunIsBatch`), for places after a first
  run (`VisitRuns.FirstRunIsBatch`), and visit by visit after a re-run exactly under the condition of
  `VisitRuns.RerunPlaces`; `VisitExamples.ExitPlaceStays` and `ExitPlaceFirst` are the same window with
  and without an earlier run.
- `anomalyStates` tallies every residual of its window, parked and warm-up hours included, though its
  comment calls it the reader's rule. Its tallies are those of the steady hours the reader judges
  exactly when every residual in the window is steady (`AnomalyStates.ReadersRuleExactly`);
  `ParkedHourCounted` has an anomalous hour that was parked.
- A warm start is owed again at every run for a signal whose replayed hours are all stored already:
  its rows are ignored on insert, so no backtest residual appears, and no skip is recorded either
  (`WarmStart.LeftOwed`, `LiveHoursStayOwed`). The owed signals shrink exactly when some owed signal was
  empty or had an hour of its own to add (`WarmStart.OwedShrinks`).
- The fleet import refuses a logger on a retired machine, but not if the same workbook also lists that
  machine: a row that only conflicts with the register still counts as a machine that will exist
  (`FleetImport.ClaimOfRetired`, `ListingClaimsRetired`).
- A commissioning date is checked by a pattern and by the engine's date parser, which takes any day up to
  31 in any month and rolls what the month lacks into the next. A date reads back as written exactly
  when its day exists (`CalendarDates.ReadsBackExactly`), so a machine created with 2025-02-30 conflicts
  with its own row on the second upload (`FleetImport.ReadBack`, `RolledDateConflicts`).
- `geofence.*` events are not among the outbox's known event types. No consumer can be registered for
  them (`Outbox.Register`), whatever leaves Pending is of a handled kind (`Outbox.OnlyHandledAreDecided`),
  and so they stay pending in every run (`Outbox.GeofenceEventsStayPending`).

## Model

| member | source | states |
|---|---|---|
| VisitPlan.PlanVisits | src/geofence/visit-plan.ts:49-70 | the planning loops, which open an item and complete it in place, compute the plan the laws below are about |
| VisitPlan.PlanZone | src/geofence/visit-plan.ts:51-67 | one zone's walk appends exactly that zone's items: crossings in order, the carried visit first |
| VisitPlan.WalkShape | src/geofence/visit-plan.ts:49-70 | a zone's items are the carried visit, if any, then visits entered inside the window; at most the last is left open |
| VisitPlan.WalkInOrder | src/geofence/visit-plan.ts:49-70 | no planned visit ends before it begins |
| VisitPlan.PlanItems | src/geofence/visit-plan.ts:51-68 | zones do not disturb each other: a zone's share of the plan is its own walk |
| VisitPlan.WalkIsFollow | src/geofence/visit-plan.ts:49-70 | planning a window and writing its items over what was known is the same as following the machine position by position |
| VisitPlan.FollowAppend | src/geofence/visit-plan.ts:49-70 | following the machine through two stretches in turn is following it through both at once |
| VisitBook.PassIsStep | src/geofence/geofence-tracker.service.ts:62-156 | from any stored visits that are right up to the window's start, a pass makes their times right up to its end, whatever later windows or earlier runs of this one had written |
| VisitBook.RunIsFollow | src/geofence/geofence-tracker.service.ts:62-156 | consecutive windows in order keep the stored times equal to one fold over all their positions |
| VisitBook.RerunIsBatch | src/geofence/geofence-tracker.service.ts:62-156 | re-running windows from the one late readings fall in gives the entry and leave times of the batch result for the readings now known |
| VisitBook.Idempotent | src/geofence/geofence-tracker.service.ts:62-156 | reconciling the same window again changes nothing, whatever was stored before its first run |
| VisitBook.LaterIsKept | src/geofence/geofence-tracker.service.ts:119-123 | visits entered after the window are untouched; a leave after its end only ever gives way to one inside it |
| VisitBook.StillCarried | src/geofence/geofence-tracker.service.ts:76-86 | the visit carried into a window is still the carried one after the pass, and no other has become so |
| VisitBook.TwoOpen | src/geofence/geofence-tracker.service.ts:89-156 | a planned visit and another one of its zone can both end open only if the other was entered after the window, or both were carried into it |
| VisitBook.BlockedClashes | src/geofence/geofence-tracker.service.ts:117-137 | a plan that ends inside a zone, with a later open visit and no stored later leave between them, or with two carried visits both left open, would leave two visits open |
| VisitBook.ClashBlocks | src/geofence/geofence-tracker.service.ts:117-156 | conversely, whenever the result would leave a planned visit and another of its zone open, the plan is blocked in one of those two ways; nothing is asked of the stored visits |
| VisitBook.StoredFate | src/geofence/geofence-tracker.service.ts:91-123 | what becomes of each stored visit: withdrawn, closed as its zone was removed, given the planned leave, or kept |
| VisitRuns.AdmissibleWhenFirst | src/geofence/geofence-tracker.service.ts:89-156 | where nothing stored lies beyond the start, a window is admissible exactly when no two planned visits of a zone begin at one instant |
| VisitRuns.AdmissibleKeepsSingle | src/geofence/geofence-tracker.service.ts:89-156 | an admissible window leaves at most one open visit a zone |
| VisitRuns.FirstRunAdmissible | src/geofence/geofence-tracker.service.ts:62-156 | every window of a run in order is admissible at its turn exactly when none doubles an entry |
| VisitRuns.PassPlaces | src/geofence/geofence-tracker.service.ts:119-148 | a pass keeps each visit's places what the batch and the first stored visit make of them: the stored entry place stands, and an exit place stands with its time |
| VisitRuns.RunPlaces | src/geofence/geofence-tracker.service.ts:62-156 | so do consecutive windows in order |
| VisitRuns.RerunPlaces | src/geofence/geofence-tracker.service.ts:119-137 | after a re-run, a visit's entry place is the batch's exactly if it was new or agreed before, its exit place exactly if it was new, its leave moved or the place agreed before; while the batch is still inside, a stored leave beyond the end is kept whole and any other is gone |
| VisitRuns.FirstRunIsBatch | src/geofence/geofence-tracker.service.ts:62-156 | from an empty table, consecutive windows give exactly the visits of one fold over everything, times and places, and nothing else |
| VisitExamples.ReopenedBeforeLaterVisit | src/geofence/geofence-tracker.service.ts:117-137 | a concrete window that is refused because a reopened visit meets a later open one |
| VisitExamples.TwoCarriedVisits | src/geofence/geofence-tracker.service.ts:76-86 | a concrete window that is refused because two visits of the zone are carried into it |
| VisitExamples.TwiceInOneMillisecond | src/geofence/geofence-tracker.service.ts:139-148 | a concrete window that is refused because a machine is in, out and in again within one millisecond |
| VisitExamples.ExitPlaceStays | src/geofence/geofence-tracker.service.ts:123-128 | a concrete re-run that keeps an exit point the readings now known would replace |
| VisitExamples.ExitPlaceFirst | src/geofence/geofence-tracker.service.ts:139-148 | the same window run first stores the exit point of its readings |
| GeofenceTracking.WriteKeeps | src/geofence/geofence-tracker.service.ts:129-137 | a row write the indexes admit, with its event, keeps one open visit a zone and a log that tells of exactly the stored visits |
| GeofenceTracking.DeleteKeeps | src/geofence/geofence-tracker.service.ts:92-98 | a deletion with its withdrawn event keeps them too |
| GeofenceTracking.NewsGrows | src/geofence/geofence-tracker.service.ts:91-155 | the first change to a visit adds what the two tables tell of that visit to the news between them, and nothing about any other |
| GeofenceTracking.ToldWithdrawn | src/geofence/geofence-tracker.service.ts:92-98 | a deletion and its event keep the log at exactly the news so far, dated at the end of the window |
| GeofenceTracking.ToldRevised | src/geofence/geofence-tracker.service.ts:129-137 | so do a moved leave and its event: left if the visit was open, revised with the earlier leave if not |
| GeofenceTracking.ToldInserted | src/geofence/geofence-tracker.service.ts:144-154 | so do a new visit and its events: entered and, if it has ended, left |
| GeofenceTracking.GeofenceTracker.Emit | src/geofence/geofence-tracker.service.ts:249-265 | one event more, one count more |
| GeofenceTracking.GeofenceTracker.Withdraw | src/geofence/geofence-tracker.service.ts:92-98 | the row is gone, one withdrawn event is in the outbox, every index and the log still hold |
| GeofenceTracking.GeofenceTracker.Revise | src/geofence/geofence-tracker.service.ts:123-137 | refused exactly when the open-visit index refuses; otherwise the leave moves and one left or revised event says so |
| GeofenceTracking.GeofenceTracker.Insert | src/geofence/geofence-tracker.service.ts:144-154 | refused exactly when an index refuses; otherwise one new row, an entered event, and a left event if it has ended |
| GeofenceTracking.GeofenceTracker.WithdrawUnplanned | src/geofence/geofence-tracker.service.ts:92-98 | exactly the stored visits of applied zones that the window shows never happened are deleted, and the log grows by one withdrawn event each, dated at the end of the window |
| GeofenceTracking.GeofenceTracker.CloseRemoved | src/geofence/geofence-tracker.service.ts:100-112 | a carried open visit whose zone no longer applies is closed at the window's start, and the log grows by exactly that news |
| GeofenceTracking.GeofenceTracker.SettleLeaves | src/geofence/geofence-tracker.service.ts:117-137 | the closings, then the reopenings, bring each stored visit to its final leave, one admissible write and one event at a time |
| GeofenceTracking.GeofenceTracker.InsertFresh | src/geofence/geofence-tracker.service.ts:139-155 | the ended new visits, then the open ones, are inserted and told of unless an index refuses |
| GeofenceTracking.GeofenceTracker.SettleStored | src/geofence/geofence-tracker.service.ts:91-137 | all stored visits reach their final form, with exactly the events the change calls for, or the pass is blocked by a later open visit |
| GeofenceTracking.GeofenceTracker.Reconcile | src/geofence/geofence-tracker.service.ts:62-156 | the phases together: the reconciled visits, ids kept, exactly the news told, refused exactly when the window is not admissible, whatever was stored |
| GeofenceTracking.GeofenceTracker.TrackWindow | src/geofence/geofence-tracker.service.ts:62-162 | commits exactly when the window is admissible, whatever was stored; then the visits are the reconciled ones, the log has grown by exactly the events the old and the new table call for, each once, and the counts are of the visits entered, left, revised and withdrawn between them; otherwise nothing changed |
| GeofenceTracking.GeofenceTracker.TrackAll | src/geofence/geofence-tracker.service.ts:62-162 | succeeds exactly when every window is admissible at its turn, and then leaves the visits of the run; otherwise the visits are those of the windows before the first refused one |
| GeofenceTracking.GeofenceTracker.TrackFirst | src/geofence/geofence-tracker.service.ts:62-162 | from an empty table, consecutive windows succeed exactly when none doubles an entry, and leave exactly the visits of one fold over everything |
| GeofenceTracking.GeofenceTracker.TrackAgain | src/geofence/geofence-tracker.service.ts:62-162 | after a committed pass the same window writes nothing, emits nothing and counts nothing |
| Outbox.StepKeeps | src/events/outbox-consumer.ts:77-141 | every step of any worker keeps locks exclusive, each row as its holder read it, and each event's history accounted for; decided and unhandled rows never change |
| Outbox.FinishKeeps | src/events/outbox-consumer.ts:101-140 | committing a decision keeps all of that |
| Outbox.WaitDoubles | src/events/outbox-consumer.ts:31 | the wait after n failed attempts is a minute doubled n-1 times |
| Outbox.DecisionLeaves | src/events/outbox-consumer.ts:105-139 | the whole row a decision leaves: delivered, expired, failed for good or to be tried again, with its attempts, its error and the time of the next try |
| Outbox.DueAgain | src/events/outbox-consumer.ts:92-100 | an event left pending is due again from the end of its wait on and not before |
| Outbox.RetriesWait | src/events/outbox-consumer.ts:31-139 | so is everything a pass leaves to be tried again |
| Outbox.DecisionAccounted | src/events/outbox-consumer.ts:105-139 | one decision is one more try, the backoff after the one before, delivered at most once and never when a day old |
| Outbox.RunKeeps | src/events/outbox-consumer.ts:77-141 | so does every run of claims, commits, crashes and publications |
| Outbox.EveryRun | src/events/outbox-consumer.ts:77-141 | over every interleaving: one holder an event, at most one delivery commits and none over a day late, at most five tries, the ones after it at least 1, 2, 4 and 8 minutes apart, pending means at most four attempts |
| Outbox.OnlyHandledAreDecided | src/events/outbox-consumer.ts:64-100 | over every interleaving an event that was tried or left Pending is of a handled, hence known, type |
| Outbox.GeofenceEventsStayPending | src/events/outbox-consumer.ts:11 | in no run of any consumers is one of the tracker's four event types ever tried or decided |
| Outbox.DueCanBeDecided | src/events/outbox-consumer.ts:88-141 | conversely, from any state some run of claims and commits decides a given due event of a handled type that nobody holds, however many older ones wait |
| Outbox.DecisionSpends | src/events/outbox-consumer.ts:105-139 | each decision is final or one attempt nearer to final, with the exact condition for delivered and for pending |
| Outbox.DecidedIsNotDue | src/events/outbox-consumer.ts:92-100 | nothing decided in a pass is due again in it |
| Outbox.OneMore | src/events/outbox-consumer.ts:88-141 | deciding the oldest due event extends the list of decided ones, oldest first |
| Outbox.Register | src/events/outbox-consumer.ts:64-71 | a consumer comes of exactly the handler lists that name only known event types |
| Outbox.OutboxConsumer.Oldest | src/events/outbox-consumer.ts:92-101 | the claim is a due event no due event is older than, or nothing when none is due |
| Outbox.OutboxConsumer.One | src/events/outbox-consumer.ts:88-141 | one transaction decides exactly the oldest due event |
| Outbox.OutboxConsumer.Pass | src/events/outbox-consumer.ts:77-86 | a pass decides the oldest due events, as many as the limit or as there are, each once, counts them by what became of them, and leaves what is to be tried again for 1, 2, 4 or 8 minutes by its failed attempts |
| Quantiles.QuantileWithin | src/forecast/forecast-band.ts:61-68 | a quantile lies between the two entries it is interpolated from, so within the list |
| Quantiles.QuantileInCell | src/forecast/forecast-band.ts:61-68 | between two neighbouring entries, both included, the quantile divides the way from one to the other as q divides the ranks |
| Quantiles.QuantileAtRank | src/forecast/forecast-band.ts:61-68 | at a whole rank it is the entry of that rank |
| Quantiles.QuantileMonotone | src/forecast/forecast-band.ts:61-68 | a larger quantile is never smaller |
| Quantiles.FewOutside | src/forecast/forecast-band.ts:148-163 | a 95% band is not upside down and leaves at most 2*ceil(0.025(n-1)) of its n numbers outside |
| Quantiles.FewAtEachEnd | src/forecast/forecast-band.ts:148-163 | no more of the n numbers than 2.5% of n-1, rounded up, are outside at each end, two ends together |
| Quantiles.SpanOfAnyOrder | src/forecast/forecast-band.ts:148-163 | the band of a collection does not depend on its order |
| Ordering.SortSorts | src/forecast/forecast-band.ts:148-154 | sorting gives the same numbers in ascending order |
| Ordering.OneOrder | src/forecast/forecast-band.ts:148-154 | there is one ascending order of a collection |
| ForecastBand.IsRunStart | src/forecast/forecast-band.ts:101-110 | the warm-up loop answers: parked k hours ago and running every hour since, for some k within the warm-up |
| ForecastBand.WarmUpOfRun | src/forecast/forecast-band.ts:83-111 | a run directly after a parked hour has exactly its first min(warm-up, length) hours marked; a run after an unknown hour has none; for any warm-up length |
| ForecastBand.FindRunStarts | src/forecast/forecast-band.ts:98-111 | the marked hours are the running ones in warm-up |
| ForecastBand.KeepClean | src/forecast/forecast-band.ts:142-144 | the clean residuals are the steady ones outside every excluded window, in order |
| ForecastBand.CleanExactly | src/forecast/forecast-band.ts:142-144 | a residual is clean exactly when its hour runs, is past its warm-up and lies in no excluded window, ends not included |
| ForecastBand.LearnByLead | src/forecast/forecast-band.ts:149-156 | a lead has a band of its own exactly when it has at least 20 clean residuals, and it is theirs |
| ForecastBand.LearnBand | src/forecast/forecast-band.ts:138-165 | the loops compute the band the laws below are about |
| ForecastBand.EstablishedExactly | src/forecast/forecast-band.ts:128-146 | there is a band exactly when the clean residuals fall on at least 14 UTC days |
| ForecastBand.DayExactly | src/forecast/forecast-band.ts:145 | days run from UTC midnight to UTC midnight |
| ForecastBand.DrawnExactly | src/forecast/forecast-band.ts:148-152 | the pooled numbers are the clean residuals one by one, and each lead's contain its own |
| ForecastBand.DrawnFrom | src/forecast/forecast-band.ts:148-152 | and nothing else |
| ForecastBand.FlagsFew | src/forecast/forecast-band.ts:138-165 | pooled and at every lead: lo <= hi, at most 2*ceil(0.025(n-1)) of the residuals learned from are flagged, and the learned-from dates bracket them all |
| ForecastBand.BandOfAnyOrder | src/forecast/forecast-band.ts:138-165 | the band is the same for any order of its residuals |
| ForecastBand.OnlyCleanResidualsCount | src/forecast/forecast-band.ts:128-146 | changing residuals of excluded, parked, unknown or warm-up hours leaves the band as it is |
| ForecastBand.IntervalJudgesResidual | src/forecast/forecast-band.ts:167-172 | an interval exists exactly when a band does and is the forecast plus the 2.5% and 97.5% values of that lead's clean residuals, or of all below 20; it is not upside down and is missed exactly when the residual is outside those values |
| InputContext.BuildContext | src/forecast/forecast-band.ts:39-59 | refused exactly below half coverage, then exactly for want of a reading at an edge; else readings stand, gaps are on the line between their neighbours, and the filled steps are counted |
| InputContext.ContextExactly | src/forecast/forecast-band.ts:39-59 | said of the buckets alone: refused for coverage exactly below half, ready exactly if both edges are read too, with the buckets as readings and gaps that rise evenly between the two around them |
| InputContext.Fill | src/forecast/forecast-band.ts:47-57 | the moving-last loop fills every gap between neighbouring readings and counts the steps filled |
| InputContext.GapHasNeighbours | src/forecast/forecast-band.ts:32-38 | every gap that is filled has one nearest reading on each side |
| InputContext.OneContext | src/forecast/forecast-band.ts:39-59 | the same buckets give the same context |
| InputContext.ContextInRange | src/forecast/forecast-band.ts:32-38 | a filled context never leaves the range of its readings |
| ForecastReader.Judge | src/forecast/forecast-reader.ts:107-132 | the verdict is the newest steady hour's, by the band of the hours strictly before it; with none, no verdict is normal |
| ForecastReader.VerdictExactly | src/forecast/forecast-reader.ts:116-131 | the judged hour is anomalous exactly when its residual is below the 2.5% or above the 97.5% value of the clean residuals before it, normal exactly when between them, without a band exactly when those fall on fewer than 14 days, with the reason |
| ForecastReader.NoVerdictExactly | src/forecast/forecast-reader.ts:113-126 | nothing is judged exactly when no hour is steady, and then the answer is that there is no baseline |
| ForecastReader.BeforeExactly | src/forecast/forecast-reader.ts:114 | the band is learned from the hours strictly before the judged one |
| ForecastReader.LaterHoursLeaveVerdict | src/forecast/forecast-reader.ts:101-132 | storing later parked, unknown or warm-up hours leaves judged hour, band and verdict as they are |
| ForecastReader.StartsLookBack | src/forecast/forecast-reader.ts:112-115 | whether an hour is in warm-up depends on the hours before it alone |
| ForecastReader.JudgedOnce | src/forecast/forecast-reader.ts:112-113 | which hour is judged, and by which band, is determined |
| ForecastReader.SeesWhatIsInView | src/forecast/forecast-reader.ts:188-200 | a reading sees exactly the stored hours over by then and no older than ninety days |
| ForecastReader.JudgeAsOf | src/forecast/forecast-reader.ts:107-132 | the verdict as of a moment is that of the stored hours in its view |
| ForecastReader.UnseenHoursHaveNoSay | src/forecast/forecast-reader.ts:188-200 | stored hours outside the view, wherever they stand among the rows, change neither verdict nor judged hour nor band |
| Backtest.NaiveScale | src/evaluation/backtest-scoring.ts:58-69 | over all the actuals in any listing: the mean absolute one-step change between consecutive ones; nothing without any, or if the series never moved |
| Backtest.ScaleExactly | src/evaluation/backtest-scoring.ts:58-69 | missing exactly when no actual differs from the one a step before; else times the number of such pairs it is the whole way the series went up and down |
| Backtest.ScaleOfAnyListing | src/evaluation/backtest-scoring.ts:58-69 | the scale does not depend on the order the actuals are listed in |
| Backtest.ScalePositive | src/evaluation/backtest-scoring.ts:67-68 | a scale is never zero or negative |
| Backtest.SeasonalKnownAtOrigin | src/evaluation/backtest-scoring.ts:71-79 | the seasonal actual of a step lies at or before the origin, less than one season before it, at the step's own phase |
| Backtest.ScoreTrace | src/evaluation/backtest-scoring.ts:87-115 | one trace adds exactly its points' marks to the running totals |
| Backtest.ScoreSeries | src/evaluation/backtest-scoring.ts:81-117 | the scoring loops add up one mark for every point and every empty trace |
| BacktestLeads.LeadExactly | src/evaluation/backtest-scoring.ts:81-117 | at every lead: n counts the steps with an actual and both baselines, the intervals those with both bounds, the covered those whose actual lies between them; each absolute sum adds up the distances of guess and actual, each scaled sum is that in units of the scale |
| BacktestLeads.CoverageInRange | src/evaluation/backtest-scoring.ts:110-113 | covered, intervals, steps and forecasts at a lead are each at most the next |
| BacktestLeads.ReasonExactly | src/evaluation/backtest-scoring.ts:87-100 | each reason counts exactly the steps it is the first to apply to, in the order the source asks |
| Backtest.ScoreOfBoth | src/evaluation/backtest-scoring.ts:81-132 | scoring two lists of traces together is scoring each and merging, for every lead and exclusion |
| Backtest.ScoreOfAnyOrder | src/evaluation/backtest-scoring.ts:81-132 | the order of the traces does not matter |
| Backtest.MergeAssociates | src/evaluation/backtest-scoring.ts:119-132 | merging scores is associative |
| Backtest.MergeCommutes | src/evaluation/backtest-scoring.ts:119-132 | merging scores is commutative and an empty score changes nothing |
| Backtest.BaselineTiesWithItself | src/evaluation/backtest-scoring.ts:101-113 | a model that forecasts as a baseline does ties with it at every lead; one that is always right has no error |
| Backtest.EveryStepAccounted | src/evaluation/backtest-scoring.ts:81-117 | scored steps and the four per-step exclusions add up to all points; empty_forecast counts the empty traces |
| Backtest.SeriesPool.MergeInto | src/evaluation/backtest-scoring.ts:119-132 | merging in place is the merge of the two |
| Backtest.SeriesPool.Add | src/evaluation/evaluation.service.ts:402-407 | pooling a series counts it and merges its leads |
| Backtest.Overall | src/evaluation/evaluation.service.ts:411-416 | all leads in one line: each lead once, in some order |
| Backtest.PooledTotal | src/evaluation/evaluation.service.ts:411-416 | and it is what the scored steps amount to, in whatever order |
| BacktestUnits.ScaleScales | src/evaluation/backtest-scoring.ts:58-69 | in another unit and from another zero the naive scale changes by the unit, and is missing exactly when it was |
| BacktestUnits.ScoreHasNoUnit | src/evaluation/backtest-scoring.ts:81-117 | mapping actuals, forecasts and bounds by x -> c*x+d (c > 0) keeps all counts and scaled sums and multiplies absolute sums by c |
| AnomalyStates.Tally | src/evaluation/evaluation.service.ts:353-373 | the three tallies add up to the in-window residuals, and with the band cached per UTC day each is judged by the band learned afresh from before its own midnight |
| AnomalyStates.StateExactly | src/evaluation/evaluation.service.ts:353-373 | a residual is anomalous exactly when it is below the 2.5% or above the 97.5% value of the clean residuals before its UTC midnight, without a band exactly when those fall on fewer than 14 days |
| AnomalyStates.InStateExactly | src/evaluation/evaluation.service.ts:353-373 | the residuals tallied in a state are exactly those of the window in it, each as often as it is read |
| AnomalyStates.ReadersRuleExactly | src/evaluation/evaluation.service.ts:331-373 | the three tallies are those of the steady in-window residuals, which the reader would judge, exactly when every in-window residual is steady |
| AnomalyStates.ParkedHourCounted | src/evaluation/evaluation.service.ts:365-373 | a concrete history in which a parked hour is tallied anomalous and no steady hour is |
| AnomalyStates.Stretches | src/evaluation/evaluation.service.ts:375-381 | the stretches are the first and last hours of groups whose gaps are at most a step, cut exactly where a gap is longer |
| AnomalyStates.OneGrouping | src/evaluation/evaluation.service.ts:375-381 | there is one such grouping |
| IncrementalRollup.FullExactly | src/forecast/forecast.service.ts:265-293 | stored and newly read hours are the full rollup of the context exactly when no hour of it up to the newest stored one has changed since |
| IncrementalRollup.ReadsExactly | src/forecast/forecast.service.ts:265-290 | a pass reads afresh exactly the whole hours of its context that come after the newest stored one |
| IncrementalRollup.PassKeeps | src/forecast/forecast.service.ts:265-293 | storing the new hours and purging the old keeps what is stored equal to what was read |
| IncrementalRollup.IncrementalIsFull | src/forecast/forecast.service.ts:265-296 | after any history of forecast, skipped and failed passes with no late reading at or before the newest stored hour, the context is the full rollup |
| IncrementalRollup.SignalRollup.NewestBucket | src/forecast/forecast.service.ts:271-275 | the newest stored hour, if any |
| IncrementalRollup.SignalRollup.Prepare | src/forecast/forecast.service.ts:265-296 | a pass reads exactly the unread hours and builds its context from those and the stored ones |
| IncrementalRollup.SignalRollup.Run | src/forecast/forecast.service.ts:265-296 | and stores them, purges, or leaves all as it was, by what became of it |
| ForecastPass.QueueSorts | src/forecast/forecast.service.ts:128-133 | the work is the owed candidates, alerted first, then oldest forecast, equals as they came |
| ForecastPass.OwedExactly | src/forecast/forecast.service.ts:128-131 | owed are exactly those never forecast, forecast by another model, alerted since, or at least four hours old, each as often as listed |
| ForecastPass.QueueByUrgency | src/forecast/forecast.service.ts:132-133 | of two in the queue the earlier has an alert if the later has, and among equals the older forecast or none |
| ForecastPass.OneQueue | src/forecast/forecast.service.ts:132-133 | no other order is by urgency and keeps equals as they came |
| ForecastPass.Prepare | src/forecast/forecast.service.ts:136-149 | those begun within the budget are a prefix of the order; every one after it is skipped as budget_exhausted; the rest are prepared, skipped or found not owed |
| ForecastPass.EveryReached | src/forecast/forecast.service.ts:139-149 | each candidate reached is prepared, skipped or dropped |
| ForecastPass.WriteTenant | src/forecast/forecast.service.ts:175-193 | an account's answered forecasts are written, its refused ones added to the skips, all its skips recorded |
| ForecastPass.WriteAll | src/forecast/forecast.service.ts:171-196 | account by account, each prepared signal is written or refused and each skip is recorded once |
| ForecastPass.RunPass | src/forecast/forecast.service.ts:105-203 | forecast, skipped and not-owed add up to the owed candidates in a pass that completes or runs out of budget; a worker failure or wrong weights writes and records nothing |
| WarmStart.Replay | src/forecast/forecast-warm-start.ts:243-258 | past forecasts start at the first origin, every cadence, up to the last with a whole hour to judge, exactly where the context can be built |
| WarmStart.ContextLooksBack | src/forecast/forecast-warm-start.ts:254-257 | a past forecast's context reads nothing from its own hour or later |
| WarmStart.ResidualRows | src/forecast/forecast-warm-start.ts:167-184 | the nested loops produce a row for each judged hour |
| WarmStart.RowsAre | src/forecast/forecast-warm-start.ts:168-183 | a row exists exactly for an hour of an answered past forecast that is over and has an actual |
| WarmStart.HoursJudgedOnce | src/forecast/forecast-warm-start.ts:172-183 | no hour is judged twice |
| WarmStart.JudgedAtItsLead | src/forecast/forecast-warm-start.ts:172-183 | each judged hour is in range, at lead ((t - first)/1h mod 4) + 1, against a forecast whose context lies wholly before it |
| WarmStart.PrepareAll | src/forecast/forecast-warm-start.ts:139-144 | the replays prepared are those of the owed signals reached within the budget, in order |
| WarmStart.ChunksCover | src/forecast/forecast-warm-start.ts:146-149 | the chunks hold every past forecast once, in order, none empty and none above the chunk size |
| WarmStart.JobsExactly | src/forecast/forecast-warm-start.ts:145-146 | every past forecast of every replayed signal is a job, once, under its own number |
| WarmStart.GatheredExactly | src/forecast/forecast-warm-start.ts:147-164 | there are answers to go on with exactly when every chunk was answered by the right weights; then they are what the chunks were answered, full forecasts each |
| WarmStart.AskAll | src/forecast/forecast-warm-start.ts:147-164 | the chunk loop gathers the answers of all chunks, or stops at the first that fails |
| WarmStart.HandleAll | src/forecast/forecast-warm-start.ts:166-185 | every replay is turned into its rows |
| WarmStart.Residuals.InsertOrIgnore | src/forecast/forecast-warm-start.ts:186-190 | rows of hours already stored are ignored |
| WarmStart.Residuals.Write | src/forecast/forecast-warm-start.ts:165-207 | the signals judged are inserted, the empty ones recorded, and both are counted |
| WarmStart.Residuals.Run | src/forecast/forecast-warm-start.ts:133-207 | replay, asking and writing together: all prepared signals are written if every chunk was answered, and nothing is written if any failed; the counts are of the signals and rows written |
| WarmStart.RunJudges | src/forecast/forecast-warm-start.ts:139-185 | what a run writes for a signal: a row exactly for each elapsed hour with an actual of each of its answered forecasts, each hour once, at its lead, with the value its own forecast's answer has there, from a context before its origin |
| WarmStart.LeftOwed | src/forecast/forecast-warm-start.ts:195-231 | a run leaves owed exactly what it did not handle and the signals replayed onto hours that were all stored already |
| WarmStart.OwedShrinks | src/forecast/forecast-warm-start.ts:195-231 | no run makes more signals owed, and fewer are exactly if some owed signal was empty or gained an hour |
| WarmStart.LiveHoursStayOwed | src/forecast/forecast-warm-start.ts:186-231 | a concrete signal whose replayed hours are all held live: nothing is inserted and it stays owed |
| WorkerContract.ValidateResponse | src/forecast/forecast-worker.ts:112-143 | accepted exactly when the header, model, weights digest and timing are right and the answers partition the asked ids, full-length and finite |
| WorkerContract.WrittenAccepted | src/forecast/forecast-worker.ts:112-143 | what a worker writes is accepted exactly when contract, model and a digest of 64 small hexadecimal digits are right, times and values are finite numbers, every forecast is of the asked length and the ids are the asked ones, each once |
| WorkerContract.TickSeries | src/forecast/forecast-worker.ts:126-135 | the first loop accepts exactly full forecasts of distinct asked ids |
| WorkerContract.TickRefused | src/forecast/forecast-worker.ts:136-140 | the second accepts exactly refusals with a reason, of asked ids not yet named |
| WorkerContract.AcceptedAnswersOnce | src/forecast/forecast-worker.ts:106-111 | an accepted answer forecasts or refuses each asked id, never both, and no other |
| Proposals.StepKeeps | src/assistant/assistant-proposal.service.ts:97-147 | every step of any caller, error or crash keeps the lock with one holder and every effect accounted for: decided, lost, or about to be saved |
| Proposals.DecidedForGood | src/assistant/assistant-proposal.service.ts:135-142 | a decision and every answer given are final |
| Proposals.EveryRun | src/assistant/assistant-proposal.service.ts:97-147 | over every interleaving of confirms and rejects: one decision, everybody is told it, effects at most 1 + losses, and with none lost an effect exists exactly when it is applied |
| Proposals.Proposal.DecideLocked | src/assistant/assistant-proposal.service.ts:97-147 | one caller under the lock: the decision it comes to, when it throws, and that its writes are a run of those steps |
| AssistantBudget.StepKeeps | src/assistant/assistant.service.ts:218-245 | admitting, spending and dying keep spent plus what is still in flight within the bound |
| AssistantBudget.SpendBounded | src/assistant/assistant.service.ts:218-245 | over every interleaving a day spends at most limit - 1 + k*most |
| AssistantBudget.BoundReached | src/assistant/assistant.service.ts:111-115 | and for every limit, size and number of requests some run spends exactly that |
| AssistantBudget.Usage.Reserve | src/assistant/assistant.service.ts:218-229 | admitted exactly when the day has no row yet or is below a positive limit |
| AssistantBudget.Usage.Spend | src/assistant/assistant.service.ts:238-245 | the day's tokens grow by the request's, never by less than nothing |
| AssistantBudget.RunCalls | src/assistant/assistant-tools.ts:144-151 | proposals made one after another, each checked against the limit |
| AssistantBudget.MadeExactly | src/assistant/assistant-tools.ts:144-151 | every valid proposal is made until ten have been |
| AssistantBudget.FirstCallsExactly | src/assistant/assistant.service.ts:183 | a round runs its first five calls, or all when there are no more |
| AssistantBudget.MadeAtMost | src/assistant/assistant-tools.ts:144-151 | never exceed ten in an answer |
| AssistantBudget.Converse | src/assistant/assistant.service.ts:170-203 | at most five model calls and twenty tool runs; the proposals are the valid ones among the calls run, up to ten; the answer is the first round without calls or the last, so one is always set; the tokens of every answered round are spent, also on failure |
| FleetImport.PlanMachines | src/fleet-import/fleet-import.service.ts:172-231 | the first loop files every machine row under its fate and collects the machines that will exist |
| FleetImport.PlanLoggers | src/fleet-import/fleet-import.service.ts:233-273 | the second files every logger row |
| FleetImport.MachineFateExactly | src/fleet-import/fleet-import.service.ts:172-231 | a row is in error exactly when a cell is at fault, its site is unknown or closed or its code was listed before; a good row is created exactly when the register lacks it, with its own cells and site; else it is unchanged or in conflict by the machine that is there |
| FleetImport.NamesDiffering | src/fleet-import/fleet-import.service.ts:302-318 | a conflict names exactly the fields whose cell is filled and not what the register has |
| FleetImport.LoggerFateExactly | src/fleet-import/fleet-import.service.ts:242-272 | a logger row is in error exactly when a cell is blank, its logger was listed before or its machine can be found neither in the register nor in the workbook; else the logger decides which of the five it is |
| FleetImport.EveryRowFiled | src/fleet-import/fleet-import.service.ts:154-277 | row by row: its number is in the list of its fate and in no other, and the lists hold as many entries as there are rows |
| FleetImport.OnlyAdds | src/fleet-import/fleet-import.service.ts:107-148 | an import never alters an existing machine; a logger only goes from assigned and free to claimed |
| FleetImport.MachineAgain | src/fleet-import/fleet-import.service.ts:208-230 | on a second upload a machine row made the first time is unchanged if the day of its date exists and a conflict in that field alone if not; every other row is as before |
| FleetImport.LoggerAgain | src/fleet-import/fleet-import.service.ts:242-272 | a logger claimed the first time is already claimed, every other good row is as before |
| FleetImport.NoDifference | src/fleet-import/fleet-import.service.ts:302-318 | a row agrees with a machine exactly when every cell that is not blank is what the register has |
| FleetImport.ReadBack | src/fleet-import/fleet-import.service.ts:302-318 | a machine just created differs from its row exactly in a commissioning date whose day its month lacks |
| CalendarDates.ReadsBackExactly | src/fleet-import/fleet-import.service.ts:190-196 | an accepted date reads back as written exactly when its day exists in its month |
| CalendarDates.TakenExactly | src/fleet-import/fleet-import.service.ts:191-196 | taken for dates are exactly the written days 1 to 31 of the months 1 to 12 |
| CalendarDates.MonthsHaveTheirDays | src/fleet-import/fleet-import.service.ts:312 | the month lengths used are those of the Gregorian calendar, numbered in closed form |
| CalendarDates.ReadsBackAsSameDay | src/fleet-import/fleet-import.service.ts:112-116 | what it reads back as is an existing date of the same year with the same day number |
| CalendarDates.WrittenReads | src/fleet-import/fleet-import.service.ts:191-196 | writing a date and reading its fields gives the fields back |
| CalendarDates.ReadWrites | src/fleet-import/fleet-import.service.ts:302-314 | writing the fields of a well-shaped text gives the text back |
| FleetImport.RolledDateConflicts | src/fleet-import/fleet-import.service.ts:190-230 | a concrete row dated 2025-02-30 is created the first time and conflicts with itself the second |
| FleetImport.SecondApplyIsEmpty | src/fleet-import/fleet-import.service.ts:73-75 | applying a workbook again writes nothing and still has no errors |
| FleetImport.ClaimOfRetired | src/fleet-import/fleet-import.service.ts:249-255 | a free logger can be claimed to a retired machine exactly when the workbook also lists that machine |
| FleetImport.ListingClaimsRetired | src/fleet-import/fleet-import.service.ts:249-255 | a concrete retired machine: its logger is refused alone and claimed to it when the workbook lists the machine, and the plan can be applied |
| FleetImport.FleetRegister.BuildPlan | src/fleet-import/fleet-import.service.ts:154-277 | the plan is a function of register and workbook |
| FleetImport.FleetRegister.CreateMachines | src/fleet-import/fleet-import.service.ts:109-127 | the planned machines are inserted |
| FleetImport.FleetRegister.ClaimLoggers | src/fleet-import/fleet-import.service.ts:131-148 | the planned loggers are claimed, or the claim fails exactly when one was taken meanwhile |
| FleetImport.FleetRegister.Apply | src/fleet-import/fleet-import.service.ts:94-150 | applied exactly when no row is in error and no planned logger was taken; otherwise nothing changes |
| FleetImport.FleetRegister.ApplyAgain | src/fleet-import/fleet-import.service.ts:73-75 | a second apply of an applied workbook succeeds and changes nothing |
| Corridor.FootNearest | src/geofence/geometry.ts:49-51 | the clamped foot is at least as near as any other point of its segment |
| Corridor.DistanceToPath | src/geofence/geometry.ts:42-53 | the loop's best is the least distance to any point of the path, and infinite exactly without a segment |
| Corridor.InsideCorridor | src/geofence/geometry.ts:60 | in the corridor exactly when some point of the path is within half the width |
| Corridor.ReverseKeepsDistance | src/geofence/geometry.ts:38-54 | walking the path the other way changes nothing |
| Corridor.SplitKeepsDistance | src/geofence/geometry.ts:38-54 | nor does writing a point of a segment into the path |

## Left out

- VisitBook.RerunIsBatch: speaks of entry and leave times; `VisitRuns.RerunPlaces` says of each visit exactly when its places are the batch result's.
- GeofenceTracking.GeofenceTracker.TrackAll: stops at the first refused window; what the shift runner does next, in another transaction, is not modelled.
- AnomalyStates.Tally: the per-day statement is for windows starting in or after 1970, since the source marks "no day yet" with day -1; the tallies add up for any window.
- Backtest.Overall: lists each lead once in some order; the source walks a Map in insertion order, which the sums do not depend on.
- Geofence events carry the visit's id, entry, leave and previous leave; zone snapshot, violation, dwell seconds, leave reason and display fields are not part of this model.
- Which points a zone's shape contains is a parameter of the planner: polygons and circles on the sphere are left out, corridors are in `Corridor.dfy`. Pairing latitude with longitude readings per logger is left out.
- The tracker's pass keeps the table, the events and the counts of one machine; the sets it walks are unordered here where the order of rows read from the database is not fixed.
- Row locks, advisory locks, unique indexes and atomic transactions are taken as PostgreSQL provides them; the SQL text, row-level security and connection handling are left out.
- In `Outbox.dfy` a handler's own effects are left out; what is counted is committed deliveries of an event.
- In `Proposals.dfy` a service that refuses a proposal is taken to have done nothing, and the lock is taken to be released with its session.
- Floating-point rounding is left out: averages, quantiles, scales and distances are real numbers. `haversineM`, the projection's cosine and square roots are left out; distances are compared squared.
- The forecasting child process, its time and size limits, the language model and the embedding models are foreign calls; their answers are parameters.
- In `ForecastPass.dfy` what preparing a signal finds is a parameter; the rollup, context and band it uses are modelled in their own files. Residuals of the previous forecast and the daily sample are left out.
- In `WarmStart.dfy` the purge that lets a skip lapse after ninety days is left out, as is a database that fails between two signals' transactions; the residuals are those of one model, one for each signal and hour.
- In `IncrementalRollup.dfy` the readings of an hour are taken as their average; binding segments to loggers is left out. An orderly history keeps its context when it purges, which holds while the context is shorter than the ninety days kept.
- In `FleetImport.dfy` a commissioning date is the text of its cell; of code and hours each row says whether they are well formed. That the date parser takes days up to 31 in every month is how the engine the repository runs on behaves, and is taken as given in `CalendarDates.dfy`. Placement and claim events, roles and wording are left out.
- In `AssistantBudget.dfy` conversation turns, tool results, rounding of token counts and `tidyReply` are left out; a tool that is neither a proposal nor refused is a lookup.
- `timeInZone`, reports by local day, alert and work-order overlap counts, `leadMetrics` and the chart assembled by the reader would add only easy members or time-zone rules.
