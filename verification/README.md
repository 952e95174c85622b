# Failsafe-go, modelled and proved in Dafny

Failsafe-go is a library of resilience policies. Each policy rests on a small state machine or a sliding data
structure, and what it guarantees is a statement about whole runs: no permit is lost, no waiter is overtaken, no rate
is exceeded, a cheap running sum is the sum over the right window. This project models those machines and proves the
statements.

Most components have the same three parts. The state the source guards with a lock is a value (`Sem`, `Permits`,
`Breaker`, `Tracker`, ...), and every operation is a function on it. A class with the source's fields and loops is
proved, method by method, to do what the function says. Lemmas then prove what holds over every call sequence or every
interleaving, against a definition that does not mention the algorithm: the full history, the set of callers, the
sorted levels. Two components have no class: the hedge executor and the counters of an execution are only step systems,
because what matters in them is what happens between the steps of several goroutines. The methods of `AdaptiveLimiter`
call the functions for the change, the computed maximum and the next limit where the source has the expressions inline.

The components and their main theorems:

| files | component | main theorems |
|---|---|---|
| `Prelude.dfy`, `Rings.dfy`, `Division.dfy`, `Rounding.dfy` | shared definitions, circular buffers, quotients, rounding to hundredths | `Rings.Write` |
| `Correlation.dfy`, `CorrelationWindow.dfy` | running sums of the last samples and their covariance | `CauchySchwarz`, `RunWindow`, `HeldPairsRead` |
| `Alignment.dfy`, `Readings.dfy`, `ReadingRange.dfy` | what pairs with a single zero do to the correlation | `SoundExactly`, `CorrelationOfRun`, `ReadingExactly` |
| `MaxWindow.dfy` | sliding maximum over time in a monotonic deque | `MaximumExactly`, `AddReturnsMaximum` |
| `BucketedWindow.dfy`, `CountingStats.dfy` | execution results by time bucket and by count | `TimedStats.Record`, `WindowOfRun`, `CountingStats.SetNext` |
| `Semaphore.dfy` | the resizable FIFO semaphore | `Semaphores.EveryRun`, `ErrorIsFinal`, `BoundedWaiting`, `ServedExactly` |
| `AdaptiveLimiter.dfy` | the adaptive limit that resizes it | `AdaptiveLimits.EveryRun`, `UpdateDirection`, `RiseIsBounded` |
| `SmoothLimiter.dfy` | one permit per interval | `SmoothLimiter.EveryRun`, `RateBound`, `BatchIsSingles` |
| `BurstyLimiter.dfy` | permits per period, with deficits | `CumulativeBound`, `PeriodCapExactly`, `SinglesCapExactly`, `WaitEndsInEarliestPeriod` |
| `CircuitBreaker.dfy` | closed, open and half-open states over counted results | `OpensAtFirstTrip`, `HalfOpenOutcome`, `EarlyDecisionStands`, `FullWindowDecides`, `EpisodeAdmission` with `EpisodeBoundIsReached` |
| `RetryStack.dfy` | retries through a stack of policies | `CallBound`, `CallBoundIsReached`, `EveryRetryIsCalledFor`, `LoneRetryCalls` |
| `Hedge.dfy` | the hedge protocol | `Hedging.EveryRun`, `TimerExactly`, `EveryNumberOfAttempts`, `RunsAreBounded`, `CoordinatorProgresses` |
| `Budget.dfy` | retry budget and execution counters | `Budgets.EveryRun`, `ExecutionCounters.EveryRun` |
| `LevelTracker.dfy` | quantiles of recorded priority levels | `LevelTracker.GetLevel` |
| `UsageTracker.dfy` | least-recently-used users and fair levels | `UsageTracking.EveryRun`, `FairLevels`, `EveryLevel` |

`dafny verify dfyconfig.toml` checks the whole project.

Some statements one might expect are false of the code. Each has a concrete counterexample and the exact condition under
which it holds:

- A cap on the permits that become ready in one period of the bursty limiter fails with single requests after a repaid
  deficit (`PeriodCapDoesNotHold`) and with one large request (`BatchBreaksCap`). It holds over a run exactly when every
  request fits in the room left in the period it is ready in (`PeriodCapExactly`); for single requests, exactly when
  none is granted out of the credit above a period's permits (`SinglesCapExactly`).
- The sliding maximum can miss a live value when times go back (`EarlierTimeLosesMaximum`). Whatever the values, it is
  right exactly when every entry still live at the end was followed only by live entries and was live at each of those
  additions (`MaximumExactly`); times that never go back are a special case.
- A correlation outside [-1, 1] follows a pair with a single zero (`MisalignedPairBreaksCorrelation`). Samples and
  cross-sum are right, whatever the values, for exactly the patterns of zeroes that `SoundExactly` describes. And over
  every run the reading is in [-1, 1], whatever the values, for exactly those patterns and the ones that leave too few
  samples to read anything but zero (`ReadingExactly`).
- The half-open conditions to open and to close can both hold with rounded failure rates (`RateConditionsMayClash`,
  exactly when: `RateDecision`), and a full half-open window can decide nothing (`IndecisiveConfiguration`, exactly when:
  `FullWindowDecides`).

The comment on `CorrelationWindow.Add` promises zero below a coefficient of variation of one percent; `CorrelationOfRun`
says exactly when zero is read.

Clocks, random choices, user functions, cancellations, budget decisions and the platform's `sqrt` and `log10` are
inputs: every theorem is for all of them, given that `sqrt` is a square root and that `log10` of a count is not
negative. Floating-point numbers are reals; durations and times are integers.

## Model

| member | source | states |
|---|---|---|
| `Rings.Write` | internal/util/windows.go:41-49 | Overwriting the slot at the head of a circular buffer makes its contents, oldest first, the last `capacity` of the old contents followed by the new element; what is overwritten in a full buffer is the oldest |
| `Rings.LastNSlides` | internal/util/windows.go:41-49 | Sliding one element at a time keeps exactly the last n of the whole history |
| `Rings.CountSlides` | internal/util/stats.go:42-66 | How the number of occurrences of each value changes when the window slides: one out if the oldest is that value and the window is full, one in |
| `CorrelationWindows.MovingSum.constructor` | internal/util/windows.go:22-24 | An empty window of the given capacity |
| `CorrelationWindows.MovingSum.Store` | internal/util/windows.go:41-49 | The ring's contents become the last `capacity` samples |
| `CorrelationWindows.MovingSum.Add` | internal/util/windows.go:28-53 | Zeroes change nothing; else the window slides, the running sum and sum of squares stay those of the window, and the evicted sample is returned exactly when the window was full |
| `CorrelationWindows.MovingSum.CalculateCV` | internal/util/windows.go:57-70 | The mean, variance and coefficient of variation by their definitions over the window, though computed from running sums |
| `CorrelationWindows.MovingSum.Reset` | internal/util/windows.go:73-81 | The window is empty again |
| `CorrelationWindows.CorrelationWindow.constructor` | internal/util/windows.go:95-101 | Two empty windows of one capacity |
| `CorrelationWindows.CorrelationWindow.Update` | internal/util/windows.go:107-123 | Both windows slide and the cross-sum gives up the evicted pair and takes the new one |
| `CorrelationWindows.CorrelationWindow.Add` | internal/util/windows.go:107-144 | Infinite samples leave the window as it was and read zero; a NaN makes every reading zero until the next reset; finite samples are added and the correlation of the new window is read |
| `CorrelationWindows.CorrelationWindow.Correlate` | internal/util/windows.go:125-143 | The reading from running sums is the reading defined on the windows' samples |
| `CorrelationWindows.CorrelationWindow.Reset` | internal/util/windows.go:147-151 | Both windows are empty and the cross-sum is zero |
| `Correlation.SumSlides` | internal/util/windows.go:28-53 | The sum of the slid window is the old sum less the evicted sample plus the new one |
| `Correlation.DotSlides` | internal/util/windows.go:112-123 | The same for the sum of products of two windows that slide together |
| `Correlation.CauchySchwarz` | internal/util/windows.go:125-143 | The squared sum of products is at most the product of the sums of squares, for all samples |
| `Correlation.VarianceFromSums` | internal/util/windows.go:57-70 | Mean of squares less square of mean is the variance by definition |
| `Correlation.VarianceNonNegative` | internal/util/windows.go:57-70 | No variance is negative |
| `Correlation.CovarianceFromSums` | internal/util/windows.go:125-143 | The covariance from the cross-sum is the mean product of deviations |
| `Correlation.CovarianceBound` | internal/util/windows.go:125-143 | covariance² ≤ varX · varY for every window |
| `Correlation.RunWindow` | internal/util/windows.go:107-123 | Over every run of pairs that are zero together, the windows hold exactly the last `capacity` non-zero pairs and the cross-sum is theirs |
| `Correlation.HeldPairsRead` | internal/util/windows.go:125-143 | A window with the samples and cross-sum of some pairs reads their Pearson coefficient, in [-1, 1], or zero before the warmup or with too little variation |
| `Alignment.ContentsExactly` | internal/util/windows.go:28-53 | After every run the windows hold the last `capacity` non-zero pairs if and only if none of those has a single zero |
| `Alignment.SoundHolds` | internal/util/windows.go:107-123 | If moreover one coordinate was zero throughout up to the last pair with a single zero, the cross-sum is that of the windows: every evicted product was the pair's own |
| `Alignment.VariedDrifts` | internal/util/windows.go:117-123 | Otherwise changing the one coordinate of that last pair leaves the windows as they are and moves the cross-sum by its multiple |
| `Alignment.SoundExactly` | internal/util/windows.go:107-123 | Samples and cross-sum are right for all values with a given pattern of zeroes if and only if the pattern is sound in that sense |
| `Readings.SoundReading` | internal/util/windows.go:103-144 | Every run with a sound pattern reads the Pearson coefficient of the last non-zero pairs, in [-1, 1], or zero |
| `Readings.CorrelationOfRun` | internal/util/windows.go:103-144 | After every run of pairs that are zero together the reading is in [-1, 1], and it is the Pearson coefficient of the last `capacity` non-zero pairs exactly past warmup with enough variation, else zero |
| `ReadingRange.RunKeeps` | internal/util/windows.go:28-53 | After every run each window holds the last `capacity` non-zero values of its coordinate |
| `ReadingRange.AllPartneredAligned` | internal/util/windows.go:28-53 | When every sample in the windows has its partner there, the last non-zero pairs are aligned |
| `ReadingRange.CrossSumAtMost` | internal/util/windows.go:117-123 | With no negative samples the cross-sum is at most the sum of all products |
| `ReadingRange.TooFewReadZero` | internal/util/windows.go:125-132 | With fewer than two samples in a window, or before the warmup, zero is read |
| `ReadingRange.ReadingExactly` | internal/util/windows.go:103-144 | For every run, capacity and warmup: the reading is in [-1, 1] for all values with the run's pattern of zeroes if and only if the pattern is sound or leaves fewer than two samples in a window or fewer than the warmup in the first |
| `Correlation.PearsonInUnit` | internal/util/windows.go:103-106 | The Pearson coefficient is in [-1, 1] |
| `Correlation.ReadIsPearson` | internal/util/windows.go:125-143 | What is read is the Pearson coefficient when the warmup is over and both windows vary by one percent, and zero otherwise |
| `Correlation.ReadVariations` | internal/util/windows.go:114-137 | The two coefficients of variation read are the windows' own, each in its place, or zero before there are enough samples |
| `Correlation.MisalignedPairBreaksCorrelation` | internal/util/windows.go:107-144 | Three pairs, the last with a single zero, after which the reading is -5 |
| `MaxWindows.MaxWindow.constructor` | internal/util/windows.go:167-169 | Nothing recorded |
| `MaxWindows.MaxWindow.Add` | internal/util/windows.go:177-194 | The two trimming loops and the append, as a function of the old deque, and the head returned |
| `MaxWindows.MaxWindow.Value` | internal/util/windows.go:197-202 | The head of the deque, or zero without a window |
| `MaxWindows.MaxWindow.Reset` | internal/util/windows.go:205-209 | A configured window forgets everything |
| `MaxWindows.DropExpiredKeeps` | internal/util/windows.go:178-184 | Trimming the front leaves a suffix whose first entry is live, and everything trimmed was expired |
| `MaxWindows.DropExpiredMembers` | internal/util/windows.go:178-184 | No live entry is trimmed, and where live entries come last nothing expired stays |
| `MaxWindows.DropDominatedKeeps` | internal/util/windows.go:186-189 | Trimming the back leaves a prefix whose last value is above the new one, and everything trimmed was not |
| `MaxWindows.DropDominatedMembers` | internal/util/windows.go:186-189 | Where values fall along the deque, exactly the entries with a value above the new one stay |
| `MaxWindows.AddKeepsInv` | internal/util/windows.go:177-194 | An addition that is live whenever an earlier entry is, and expires none, keeps: values fall along the deque, live entries come last, and every live entry of the history is covered by a live one no smaller |
| `MaxWindows.EveryRun` | internal/util/windows.go:177-194 | That invariant, and only live entries in the deque, after every history whose times are in order |
| `MaxWindows.OrderedReturnsMaximum` | internal/util/windows.go:176-194 | After every such history Add returned the maximum of the live values |
| `MaxWindows.OutOfOrderLosesMaximum` | internal/util/windows.go:177-194 | At any other times there are values for which it does not |
| `MaxWindows.MaximumExactly` | internal/util/windows.go:176-194 | At given times, Add returns the maximum of the live values for every choice of values if and only if the times are in order |
| `MaxWindows.AddReturnsMaximum` | internal/util/windows.go:176-194 | With times that never go back Add returns the maximum of all values added since the reset with a time later than now - window |
| `MaxWindows.EarlierTimeLosesMaximum` | internal/util/windows.go:177-194 | Three additions with a time that goes back, after which a live larger value is missed |
| `BucketedWindows.TimedStats.constructor` | internal/util/stats.go:121-145 | Empty buckets that represent no events |
| `BucketedWindows.TimedStats.ExpireBuckets` | internal/util/windows.go:233-247 | The head moves to the running maximum of the clock's bucket, and buckets and summary represent the same events as seen from there; no subtraction underflows |
| `BucketedWindows.TimedStats.Record` | internal/util/stats.go:175-183 | The result joins the history, each in the bucket of the running maximum of the clock, and buckets and summary are those of the last `BucketCount` buckets of it; under a non-decreasing clock the summary counts every result of age at most (BucketCount - 1) · BucketNanos and none of age BucketCount · BucketNanos or more |
| `BucketedWindows.TimedStats.RecordSuccess` | internal/util/stats.go:180-183 | The same for one success |
| `BucketedWindows.TimedStats.RecordFailure` | internal/util/stats.go:175-178 | The same for one failure |
| `BucketedWindows.TimedStats.Reset` | internal/util/windows.go:249-255 | No results, head zero |
| `BucketedWindows.AfterNext` | internal/util/windows.go:236-244 | Moving the lower edge of the window one bucket takes away exactly that bucket's events |
| `BucketedWindows.ExpireOne` | internal/util/windows.go:238-242 | Clearing one slot and subtracting it represents the same history one bucket later |
| `BucketedWindows.ExpireAll` | internal/util/windows.go:237-243 | After `BucketCount` slots are cleared the head may jump any distance |
| `BucketedWindows.RecordOne` | internal/util/stats.go:175-183 | Adding to the head slot and the summary represents the history with one more event |
| `BucketedWindows.TotalUpdate` | internal/util/windows.go:238-242 | What changing one bucket does to the total of all buckets |
| `BucketedWindows.AgeInBuckets` | internal/util/windows.go:233-247 | An age of at most (BucketCount - 1) · BucketNanos is inside the last buckets, one of at least BucketCount · BucketNanos outside |
| `BucketedWindows.ChronologicalHead` | internal/util/windows.go:234-244 | Under a non-decreasing clock the head is the bucket of the last event |
| `BucketedWindows.WindowByAge` | internal/util/windows.go:233-247 | The counted totals lie between those of the events no older than (BucketCount - 1) · BucketNanos and those younger than BucketCount · BucketNanos |
| `BucketedWindows.WindowOfRun` | internal/util/windows.go:233-247 | The same for every chronological run, at its last event; `Record` states it of the summary |
| `CountingStatistics.CountingStats.constructor` | internal/util/stats.go:31-35 | An empty ring |
| `CountingStatistics.CountingStats.SetNext` | internal/util/stats.go:42-66 | The bits in order are the last `size` results, the counters are theirs, and the value overwritten is returned, or -1 while the ring is not full |
| `CountingStatistics.CountingStats.Counts` | internal/util/stats.go:68-85 | Executions, failures and successes of the window |
| `CountingStatistics.CountingStats.Reset` | internal/util/stats.go:102-108 | No results |
| `CountingStatistics.SuccessesAndFailures` | internal/util/stats.go:68-92 | Successes and failures add up to the window |
| `CountingStatistics.CountGrows` | circuitbreaker/circuitstates.go:153-176 | Further results never lower a count while none is evicted |
| `Rounding.RoundMonotone` | internal/util/util.go:227-229 | Rounding to hundredths keeps order |
| `Rounding.RoundInUnit` | internal/util/util.go:227-229 | Rounding keeps a ratio in [0, 1] |
| `Semaphores.DynamicSemaphore.constructor` | internal/util/semaphore.go:26-28 | No permits in use, no one waiting |
| `Semaphores.DynamicSemaphore.Acquire` | internal/util/semaphore.go:32-96 | The locked start of a call: a permit if one is free, else an error when no wait is allowed, else the end of the queue |
| `Semaphores.DynamicSemaphore.TryAcquire` | internal/util/semaphore.go:114-123 | A permit exactly when one is free |
| `Semaphores.DynamicSemaphore.DrainWaiter` | internal/util/semaphore.go:99-111 | True exactly when the waiter was already woken; else it leaves the queue and nothing else changes |
| `Semaphores.DynamicSemaphore.WakeAndAcquire` | internal/util/semaphore.go:161-165 | The head of the queue is woken with a permit |
| `Semaphores.DynamicSemaphore.Release` | internal/util/semaphore.go:127-142 | A permit goes back and at most one waiter is woken; an unmatched release is refused |
| `Semaphores.DynamicSemaphore.SetSize` | internal/util/semaphore.go:145-157 | The wake loop and the new size |
| `Semaphores.ReleasedShape` | internal/util/semaphore.go:127-142 | A release wakes zero or one waiter, from the head, and none only if the queue is empty or the semaphore is over its size |
| `Semaphores.WokenUpToShape` | internal/util/semaphore.go:145-157 | The wake loop takes waiters from the head, a permit each, and stops only at the new size or an empty queue |
| `Semaphores.ResizedShape` | internal/util/semaphore.go:145-157 | A resize leaves waiters only if the permits in use fill the new size |
| `Semaphores.StepKeepsInv` | internal/util/semaphore.go:32-165 | Every locked step of every call keeps: no lost wakeup, first-in first-out, conservation of permits, waiting calls queued or already granted, peak bound |
| `Semaphores.RunKeepsInv` | internal/util/semaphore.go:32-165 | So does every run from any such state |
| `Semaphores.EveryRun` | internal/util/semaphore.go:32-165 | In every interleaving: waiters only when used ≥ size; the grants followed by the queue are the arrivals that did not give up, in order; used is the number of calls granted and not released; used never exceeds the largest size set |
| `Semaphores.RunPeak` | internal/util/semaphore.go:145-157 | The peak is the largest size ever set |
| `Semaphores.GrantingStepFits` | internal/util/semaphore.go:127-165 | Every step that grants leaves used ≤ size |
| `Semaphores.GrantedInArrivalOrder` | internal/util/semaphore.go:32-57 | Of two calls that did not give up, the later is granted only after the earlier |
| `Semaphores.ImmediateGrantOvertakesNoOne` | internal/util/semaphore.go:114-123 | A call granted at once finds an empty queue |
| `Semaphores.ErrorIsFinal` | internal/util/semaphore.go:61-111 | A call that returned an error holds no permit and is never woken, queued or granted at any later point of any run |
| `Semaphores.GiveUpOutcome` | internal/util/semaphore.go:99-111 | A call whose timeout or cancel fires keeps its permit if it was woken first, else fails holding none |
| `Semaphores.BoundedWaiting` | internal/util/semaphore.go:127-165 | While the size stays at f or above, the call at place k of the queue that does not give up has its permit after used - f + 1 + k releases, whatever else arrives, gives up or is resized |
| `Semaphores.ServedExactly` | internal/util/semaphore.go:127-142 | With no one giving up and no resize it is granted by exactly that release, with f the size |
| `Semaphores.NewCall` | internal/util/semaphore.go:32-96 | Any new call can be made: with room it has a permit at once; without, it joins the end of the queue if it may wait and fails holding nothing if not |
| `Semaphores.WokenCanReturn` | internal/util/semaphore.go:51-57 | A call that was woken can return, holding a permit it can release |
| `AdaptiveLimits.AdaptiveLimiter.constructor` | adaptivelimiter/adaptivelimiter.go:384-407 | Limit and semaphore start at the initial limit, with no permit in use, no one waiting and nothing in the stabilisation window: the start of every run |
| `AdaptiveLimits.AdaptiveLimiter.UpdateLimit` | adaptivelimiter/adaptivelimiter.go:576-659 | For whatever the semaphore answered about being full before, the new limit, the stabilisation window and the resized semaphore as functions of the old ones and the signals, keeping minLimit ≤ limit ≤ maxLimit and size = floor(limit) |
| `AdaptiveLimits.AdaptiveLimiter.Reset` | adaptivelimiter/adaptivelimiter.go:535-548 | Limit and size are the initial limit and the stabilisation window is empty |
| `AdaptiveLimits.NextLimitBounds` | adaptivelimiter/adaptivelimiter.go:596-644 | From a limit in range an update stays in range, moves by at most the logarithmic step of the old limit, and a rise ends at or below the computed maximum |
| `AdaptiveLimits.NextLimitExactly` | adaptivelimiter/adaptivelimiter.go:596-644 | The three cases of an update: a step down to no less than the minimum when told to decrease or above the computed maximum; a step up to no more than both maxima; no change |
| `AdaptiveLimits.ActKeepsInv` | adaptivelimiter/adaptivelimiter.go:576-659 | Updates, resets and semaphore steps in any order keep the limit in range, the size its floor, and the semaphore's own invariant |
| `AdaptiveLimits.RunKeepsInv` | adaptivelimiter/adaptivelimiter.go:535-659 | So does every run |
| `AdaptiveLimits.EveryRun` | adaptivelimiter/adaptivelimiter.go:535-659 | In every reachable state minLimit ≤ limit ≤ maxLimit, size = floor(limit), and no more than maxLimit permits are in use |
| `AdaptiveLimits.RunDeque` | adaptivelimiter/adaptivelimiter.go:610-614 | In every run the stabilisation window is that of the inflights reported since the last reset |
| `AdaptiveLimits.RiseIsBounded` | adaptivelimiter/adaptivelimiter.go:576-659 | Every update of every run moves the limit by at most the logarithmic step of the old one, and a rise ends at or below the maximum computed from the largest inflight reported since the reset within the stabilisation window, for all times at which the window can tell it, or from the reported inflight without a window |
| `AdaptiveLimits.UpdateDirection` | adaptivelimiter/adaptivelimiter.go:576-683 | Every update of every run: a queue above six steps, congestion (full, with one of the three correlation conditions), or a limit above the computed maximum lowers the limit by the step, down to the minimum; else a queue below three steps raises it by the step as far as both maxima allow; else it stays |
| `AdaptiveLimits.LimitFollowsGradient` | adaptivelimiter/adaptivelimiter.go:578-609 | Of two updates that differ in the gradient only, the slower responses leave no higher limit |
| `AdaptiveLimits.MaxLimitExactly` | adaptivelimiter/adaptivelimiter.go:705-717 | The computed maximum is the given function, or the inflight times the factor, less the decay for each order of magnitude, but no less than the floor |
| `AdaptiveLimits.MaxLimitDecays` | adaptivelimiter/adaptivelimiter.go:705-717 | With a decay it lies between floor and factor, and what each inflight allows never grows with their number |
| `AdaptiveLimits.CallsBetweenUpdates` | adaptivelimiter/adaptivelimiter.go:384-407 | Between updates any run of semaphore calls is a run of the limiter with the same outcome and the limit untouched |
| `SmoothLimiter.SmoothStats.constructor` | ratelimiter/ratelimiterstats.go:14-29 | The first permit is free at time zero |
| `SmoothLimiter.SmoothStats.AcquirePermits` | ratelimiter/ratelimiterstats.go:31-55 | The wait, or -1 beyond the maximum wait, and the next free time, as a function of the old one |
| `SmoothLimiter.SmoothStats.Reset` | ratelimiter/ratelimiterstats.go:57-62 | The next free time is zero |
| `SmoothLimiter.AcquireInSlots` | ratelimiter/ratelimiterstats.go:31-55 | A request takes the first n free intervals, not before the current one, and is ready in the last of them |
| `SmoothLimiter.WaitsForLastSlot` | ratelimiter/ratelimiterstats.go:31-55 | The wait is exactly the time to the start of the last interval taken, and a maximum wait rejects exactly the longer ones, changing nothing |
| `SmoothLimiter.StepKeepsInv` | ratelimiter/ratelimiterstats.go:31-55 | Each call keeps: the next free time is a multiple of the interval and does not decrease; grants own disjoint intervals, each ready in its last |
| `SmoothLimiter.EveryRun` | ratelimiter/ratelimiterstats.go:31-55 | The same after every call sequence, whatever the clock readings |
| `SmoothLimiter.NextFreeNeverDecreases` | ratelimiter/ratelimiterstats.go:31-55 | No run ever takes the next free time back |
| `SmoothLimiter.OneGrantPerSlot` | ratelimiter/ratelimiterstats.go:31-55 | Grants ready within a range of intervals are no more than the intervals |
| `SmoothLimiter.RateBound` | ratelimiter/ratelimiterstats.go:31-55 | In every run at most k + 1 grants become ready in any half-open window of k intervals |
| `SmoothLimiter.FirstPermitIsFree` | ratelimiter/ratelimiterstats.go:31-55 | The first single request is ready at once, whenever it comes |
| `SmoothLimiter.BatchIsSingles` | ratelimiter/ratelimiterstats.go:31-55 | One request for n permits waits as long as the last of n single requests and leaves the same state |
| `BurstyLimiter.BurstyStats.constructor` | ratelimiter/ratelimiterstats.go:64-77 | A full period is available |
| `BurstyLimiter.BurstyStats.AcquirePermits` | ratelimiter/ratelimiterstats.go:79-120 | The wait, or -1 beyond the maximum wait, and the new permits and period, as a function of the old ones |
| `BurstyLimiter.BurstyStats.Reset` | ratelimiter/ratelimiterstats.go:122-128 | A full period from period zero |
| `BurstyLimiter.PeriodsAheadIsLeast` | ratelimiter/ratelimiterstats.go:98-106 | The div/mod arithmetic gives the least number of periods whose permits cover a deficit |
| `BurstyLimiter.ReadyPeriodIsEarliest` | ratelimiter/ratelimiterstats.go:98-106 | The period a request waits for covers it and no earlier one does |
| `BurstyLimiter.ReadyInItsPeriod` | ratelimiter/ratelimiterstats.go:98-112 | Call time plus wait lies in that period, at its start when there is a wait |
| `BurstyLimiter.CreditedCreditBy` | ratelimiter/ratelimiterstats.go:79-92 | Crediting a deficit for elapsed periods does not change what any period can cover |
| `BurstyLimiter.StepKeepsInv` | ratelimiter/ratelimiterstats.go:79-120 | Each call at a time not before the last keeps: granted permits never outrun the credit of their ready period, and ready times are in order |
| `BurstyLimiter.EveryRun` | ratelimiter/ratelimiterstats.go:79-120 | The same after every chronological call sequence |
| `BurstyLimiter.ReadyTimesNeverDecrease` | ratelimiter/ratelimiterstats.go:79-120 | Ready times never decrease from one grant to a later one |
| `BurstyLimiter.CumulativeBound` | ratelimiter/ratelimiterstats.go:79-120 | The permits ready before the end of period k total at most periodPermits · (k + 1) |
| `BurstyLimiter.PeriodCapDoesNotHold` | ratelimiter/ratelimiterstats.go:79-96 | Two single requests at one permit a period, ten idle periods, and two more that are ready in the same period |
| `BurstyLimiter.BatchBreaksCap` | ratelimiter/ratelimiterstats.go:98-119 | One request for five permits, all ready in the period that completes them |
| `BurstyLimiter.NoWaitExactly` | ratelimiter/ratelimiterstats.go:79-120 | No wait if and only if the credited permits cover the request |
| `BurstyLimiter.PeriodCapExactly` | ratelimiter/ratelimiterstats.go:79-120 | Over every run with requests of any size, no period makes more than its permits ready if and only if every request, when made, is turned away or fits in the room left in the period it is ready in |
| `BurstyLimiter.FreshPeriodFits` | ratelimiter/ratelimiterstats.go:98-119 | In a period nothing else is ready in, a request fits if and only if it is for no more than the permits of a period |
| `BurstyLimiter.SinglesLoad` | ratelimiter/ratelimiterstats.go:79-120 | Over every run of single requests the permits ready in each period still open follow from available permits, period and surplus |
| `BurstyLimiter.SinglesCapExactly` | ratelimiter/ratelimiterstats.go:79-120 | Over every run of single requests, no period makes more than its permits ready if and only if no request is granted out of a surplus, the credit above a period's permits on entering it |
| `BurstyLimiter.WithoutSurplusCapHolds` | ratelimiter/ratelimiterstats.go:86-96 | If no single request finds more credit than a period's permits, every period keeps its cap |
| `BurstyLimiter.SurplusBreaksCap` | ratelimiter/ratelimiterstats.go:86-96 | From any run of single requests that leaves more credit than a period's permits, that many requests and one more break the cap |
| `BurstyLimiter.GrantedAtOnceExactly` | ratelimiter/ratelimiterstats.go:79-120 | What one request can be granted at once in a later period stays within its permits if and only if there was no deficit or the periods before it did not more than repay it |
| `BurstyLimiter.BatchIsSinglesBursty` | ratelimiter/ratelimiterstats.go:79-120 | One request for n permits waits as long as the last of n single requests and leaves the same state, from any state and at any time |
| `BurstyLimiter.WaitEndsInEarliestPeriod` | ratelimiter/ratelimiterstats.go:79-120 | The wait ends in the earliest period whose accumulated credit covers the request |
| `BurstyLimiter.MaxWaitOnlyRejects` | ratelimiter/ratelimiterstats.go:107-133 | A maximum wait rejects exactly the requests that would wait longer, taking no permits from them, and changes no other |
| `CircuitBreakers.CircuitBreaker.constructor` | circuitbreaker/circuitstates.go:35-46 | Closed with no results |
| `CircuitBreakers.CircuitBreaker.Open` | circuitbreaker/circuitbreaker.go:295-333 | An open breaker stays as it is; any other keeps its results, with the computed or the configured delay from now |
| `CircuitBreakers.CircuitBreaker.Close` | circuitbreaker/circuitbreaker.go:295-333 | A closed breaker stays as it is; any other closes with no results |
| `CircuitBreakers.CircuitBreaker.HalfOpen` | circuitbreaker/circuitbreaker.go:295-333 | A half-open breaker stays as it is; any other half-opens with no results and `capacity` permits |
| `CircuitBreakers.CircuitBreaker.TryAcquirePermit` | circuitbreaker/circuitstates.go:98-104 | Grants by state, half-opening an open breaker whose delay has passed |
| `CircuitBreakers.CircuitBreaker.RecordResult` | circuitbreaker/circuitstates.go:153-184 | The result joins the window, the thresholds decide the next state, and a half-open breaker that stays so gets a permit back |
| `CircuitBreakers.CircuitBreaker.Reset` | circuitbreaker/circuitbreaker.go:403-408 | Closed with no results |
| `CircuitBreakers.CountDecision` | circuitbreaker/circuitstates.go:153-182 | With count thresholds, open and close conditions never hold together, and one holds once the window is full |
| `CircuitBreakers.EarlyDecisionStands` | circuitbreaker/circuitstates.go:153-182 | A decision before the window is full is the one reached after all `capacity` trials, whatever their outcomes |
| `CircuitBreakers.RateIsPercent` | internal/util/stats.go:72-92 | The rounded rate is the nearest whole percentage, in integer arithmetic |
| `CircuitBreakers.PercentsAddUp` | internal/util/stats.go:72-92 | The two rounded percentages total 100, or 101 exactly when both fall half way |
| `CircuitBreakers.RateDecision` | circuitbreaker/circuitstates.go:164-170 | With a rate threshold, undecided if and only if the window is not full; then both conditions hold if and only if the rates fall half way and the failure rate is at the threshold within a hundredth |
| `CircuitBreakers.RateConditionsMayClash` | circuitbreaker/circuitstates.go:164-170 | One failure in 200 with a threshold of one percent: both conditions hold at once |
| `CircuitBreakers.FullWindowDecides` | circuitbreaker/circuitstates.go:115-182 | Every full half-open window decides if and only if the threshold in use lies within its capacity and half-open allows as many trials as it is out of |
| `CircuitBreakers.UsualConfigurationsDecide` | circuitbreaker/circuitstates.go:115-182 | Count and rate thresholds in their own capacity are such configurations |
| `CircuitBreakers.IndecisiveConfiguration` | circuitbreaker/circuitstates.go:115-182 | A configuration with an execution threshold of 5 and 3 failures out of 10: three successes in five decide nothing, and no trials ever close it |
| `CircuitBreakers.EpisodeConserves` | circuitbreaker/circuitstates.go:138-184 | In every configuration, during a half-open episode permits left plus executions admitted equal capacity plus results recorded |
| `CircuitBreakers.EpisodeIsShort` | circuitbreaker/circuitstates.go:153-184 | Where full windows decide, an episode records fewer than `capacity` results |
| `CircuitBreakers.EpisodeAdmission` | circuitbreaker/circuitstates.go:138-184 | In every configuration admitted minus recorded never exceeds capacity, stale results included; where full windows decide no episode admits more than 2 · capacity - 1 |
| `CircuitBreakers.EpisodeBoundIsReached` | circuitbreaker/circuitstates.go:138-184 | With every count or rate threshold some episode admits exactly 2 · capacity - 1 |
| `CircuitBreakers.HalfOpenOutcome` | circuitbreaker/circuitstates.go:153-184 | Over every sequence of requests and results of a fresh half-open breaker with count or rate thresholds: half-open exactly while no results so far decide; on the first that do, closed and empty if they hold the successes that close it, else open from that result's time for the computed delay or the configured one |
| `CircuitBreakers.DecisionCounts` | circuitbreaker/circuitstates.go:153-176 | The thresholds as counts of successes and failures, or whole percentages of a full window |
| `CircuitBreakers.OpensWhenOutOfReach` | circuitbreaker/circuitstates.go:157-161 | With a success threshold, opening means that no further trials could reach it |
| `CircuitBreakers.ClosesWhenOutOfReach` | circuitbreaker/circuitstates.go:171-174 | Without one, closing means that no further trials could reach the failure threshold |
| `CircuitBreakers.RecordedWindow` | internal/util/stats.go:42-66 | After any results the closed breaker's window is the last min(n, capacity) of them |
| `CircuitBreakers.OpensAtFirstTrip` | circuitbreaker/circuitstates.go:61-71 | Counting results, the breaker is closed if and only if no prefix of them trips it, and otherwise opened at the time of exactly the first that does, for the delay computed for it or the configured one |
| `CircuitBreakers.TripMeansFailures` | circuitbreaker/circuitstates.go:61-71 | With count thresholds, a prefix trips if and only if its last `capacity` results hold failureThreshold failures |
| `CircuitBreakers.TripMeansRate` | circuitbreaker/circuitstates.go:61-71 | With a failure rate and an execution threshold, a prefix trips if and only if its last results are as many as the threshold and their rounded share of failures is at the rate or above |
| `CircuitBreakers.ClosedAdmitsEverything` | circuitbreaker/circuitstates.go:56-58 | While its results keep a new breaker closed it grants every request, and neither requests nor explicit closes change what it counts |
| `CircuitBreakers.MovesTakeEffect` | circuitbreaker/circuitbreaker.go:295-333 | Whatever a new breaker has been through, a reset makes it new, and explicit moves take it where they say, leaving it alone if it is there |
| `CircuitBreakers.OpenUntilDelay` | circuitbreaker/circuitstates.go:98-107 | Whatever is requested or recorded before the delay has passed, an open breaker stays open and grants nothing |
| `CircuitBreakers.FirstRequestHalfOpens` | circuitbreaker/circuitstates.go:98-104 | The first request after the delay is granted and leaves a fresh half-open state with one permit taken |
| `RetryStack.Execution.constructor` | executor.go:233-259 | One attempt, no retries, no layer has failed |
| `RetryStack.Execution.ApplyLayer` | executor.go:253-259 | Running the stack from layer i inwards |
| `RetryStack.Execution.RetryLayer` | retrypolicy/retryexecutor.go:28-97 | The retry loop, whose turns are bounded by the failures the layer may still count |
| `RetryStack.Execution.JudgeResult` | retrypolicy/retryexecutor.go:45-95 | What one turn makes of a result and whether the loop goes on |
| `RetryStack.Execution.OnFailure` | retrypolicy/retryexecutor.go:100-127 | A failure costs its layer one of the retries it has left, all of them past maxDuration, and no other layer any; retries are exceeded exactly when none is left |
| `RetryStack.ApplyPaid` | policy/policyexecutor.go:48-69 | From any state: each call of the user function is paid for by an attempt, and attempts plus retries left never grow |
| `RetryStack.JudgePaid` | retrypolicy/retryexecutor.go:45-95 | A turn that goes round again costs its layer one retry |
| `RetryStack.LoopPaid` | retrypolicy/retryexecutor.go:28-97 | The same as `ApplyPaid` for a whole retry loop |
| `RetryStack.CallBound` | retrypolicy/retryexecutor.go:28-127 | Through every stack, in every world, the user function is called at most 1 + m_1 + ... + m_n times, and attempts = 1 + retries |
| `RetryStack.ApplySpent` | policy/policyexecutor.go:48-69 | When every layer sees only failures and nothing interferes, every retry left inside is spent on a call |
| `RetryStack.JudgeSpent` | retrypolicy/retryexecutor.go:45-95 | In such a world a turn spends one retry or none is left |
| `RetryStack.LoopSpent` | retrypolicy/retryexecutor.go:28-97 | The same as `ApplySpent` for a whole retry loop |
| `RetryStack.CallBoundIsReached` | retrypolicy/retryexecutor.go:28-127 | In such a world the calls are exactly 1 + m_1 + ... + m_n |
| `RetryStack.EveryRetryIsCalledFor` | retrypolicy/retryexecutor.go:38-95 | Through any stack and in any world every retry answers to a failure that does not abort, is not past the maximum duration and meets no cancellation, and every call after the first to one that the budget also lets through; where only retry policies are stacked and none runs out, each such result has its retry and its call |
| `RetryStack.SuccessIsNotRetried` | retrypolicy/retryexecutor.go:54-57 | With no failures and no layer answering in place of the next, the function is called once, nothing is retried and no failure is counted, through any stack |
| `RetryStack.BlockedCallsNothing` | policy/policyexecutor.go:48-58 | Where a policy always answers in place of the layer inside it, the function is never called, however often the layers around it retry |
| `RetryStack.LoneRetryCalls` | retrypolicy/retryexecutor.go:38-127 | A lone retry policy with limit m makes exactly k calls, where the k-th result is the first that is a success, aborts, is too late, is canceled or is let down by the budget, or k = m + 1; its counters follow |
| `Hedging.StepKeepsAccounted` | hedgepolicy/hedgeexecutor.go:27-126 | Every started attempt is running or its one result is in the channel or received |
| `Hedging.StepKeepsAnswering` | hedgepolicy/hedgeexecutor.go:41-55 | While the coordinator waits it has received nothing final; what it decides on is final, or the last of all |
| `Hedging.StepKeepsInv` | hedgepolicy/hedgeexecutor.go:27-126 | Every step of coordinator, attempts, timer and parent keeps both |
| `Hedging.MeasureDecreases` | hedgepolicy/hedgeexecutor.go:57-126 | Every step lowers a natural number |
| `Hedging.RunKeepsInv` | hedgepolicy/hedgeexecutor.go:27-126 | The invariant over every run, whose length the measure bounds |
| `Hedging.EveryRun` | hedgepolicy/hedgeexecutor.go:27-126 | In every interleaving at most maxHedges + 1 attempts start, no attempt waits to send its result, and unless the parent is canceled the answer is a cancellable result, or else the last received after every started attempt completed with none cancellable |
| `Hedging.CanceledOnlyByParent` | hedgepolicy/hedgeexecutor.go:108-111 | The cancellation result is returned only if the parent was found canceled |
| `Hedging.RunsAreBounded` | hedgepolicy/hedgeexecutor.go:57-126 | No run takes more than 6 · (maxHedges + 1) + 5 steps |
| `Hedging.CoordinatorProgresses` | hedgepolicy/hedgeexecutor.go:41-126 | Attempts can always finish, and once they have, the coordinator has a step until it returns |
| `Hedging.TimerExactly` | hedgepolicy/hedgeexecutor.go:57-106 | While the coordinator waits after a start, the hedge timer can fire if and only if that start was allowed, had a delay, was not the last one there may be, and nothing final was received |
| `Hedging.FiredTimerHedges` | hedgepolicy/hedgeexecutor.go:57-106 | After the timer fires, an uncanceled parent and an allowed start put exactly one more attempt to run; a denied start none |
| `Hedging.EveryNumberOfAttempts` | hedgepolicy/hedgeexecutor.go:57-126 | For every n from 1 to maxHedges + 1 some run starts exactly n attempts |
| `Hedging.DeniedStartIsLast` | hedgepolicy/hedgeexecutor.go:63-67 | After a start the budget denies, or one with a negative delay, no attempt starts any more |
| `Hedging.CanceledParentAnswers` | hedgepolicy/hedgeexecutor.go:108-111 | A parent found canceled is answered with its cancellation |
| `Budgets.Budget.constructor` | budget/budget.go:99-110 | Both counters are zero and no one uses the budget |
| `Budgets.Budget.RecordExecution` | budget/budget.go:112-114 | One atomic step of the interleaving model, after which the counters are still what the executions using the budget hold and 0 ≤ inflight ≤ executions |
| `Budgets.Budget.ReleaseExecution` | budget/budget.go:116-118 | The same for an execution that leaves or completes giving back a permit |
| `Budgets.Budget.TryAcquirePermit` | budget/budget.go:120-142 | Granted if and only if below the minimum concurrency or inflight ≤ maxRate · executions; a permit granted above that concurrency means the executions inflight were at most that share of all that are counted; then it is the two atomic steps of taking a permit, else nothing changes |
| `Budgets.Budget.ReleasePermit` | budget/budget.go:131-134 | The two atomic steps of giving back a permit, after which the counters are still what the executions hold and in order |
| `Budgets.PermitRoundTrip` | budget/budget.go:120-134 | A permit taken and given back leaves counters and executions as they were |
| `Budgets.ExecutionRoundTrip` | budget/budget.go:112-118 | An execution that comes and goes leaves the counters as they were |
| `Budgets.RetryHoldsItsPermit` | retrypolicy/retryexecutor.go:38-95 | A retry's permit stays with its execution, which takes no other until it has given it back |
| `Budgets.HedgeHandsOnItsPermit` | hedgepolicy/hedgeexecutor.go:57-88 | A hedge's permit goes to the attempt it starts, which gives it back; the execution may take another |
| `Budgets.StepKeepsInv` | budget/budget.go:112-134 | Every single atomic increment or decrement of any execution keeps the counters equal to their base plus what the executions hold |
| `Budgets.RunKeepsInv` | budget/budget.go:112-134 | So does every interleaving |
| `Budgets.EveryRun` | retrypolicy/retryexecutor.go:33-95 | At every atomic step of any set of executions 0 ≤ inflight ≤ executions, and both return to their starting values once all have finished |
| `ExecutionCounters.StepKeepsInv` | execution.go:184-198 | Every atomic increment keeps attempts ahead of retries and hedges by one and the threads between two increments |
| `ExecutionCounters.RunKeepsInv` | execution.go:262-280 | So does every interleaving |
| `ExecutionCounters.EveryRun` | execution.go:184-280 | attempts ≥ 1 + retries + hedges, with equality if and only if no thread is between increments, and completed executions never exceed attempts |
| `ExecutionCounters.CountersCount` | execution.go:184-280 | Each counter counts its own kind of operation and nothing else |
| `ExecutionCounters.IncrementsComplete` | execution.go:184-280 | A begun retry or hedge can be completed and leaves a fresh attempt, and an unused attempt calls the function once, is answered by a policy, or passes on |
| `LevelTracking.LevelTracker.constructor` | priority/priority.go:124-129 | No levels recorded |
| `LevelTracking.LevelTracker.UpdateCounts` | priority/priority.go:135-143 | Every level's count becomes its count in the slid window |
| `LevelTracking.LevelTracker.RecordLevel` | priority/priority.go:131-151 | The window is the last `windowSize` recorded levels and the counts are theirs |
| `LevelTracking.LevelTracker.GetLevel` | priority/priority.go:153-180 | For any quantile q over n levels, the k-th element of every sorted arrangement of the recorded levels, where k = max(1, ceil(q · n)), or zero if there are not k |
| `LevelTracking.CountsAreNumBelow` | priority/priority.go:169-176 | Adding up counts level by level counts the recorded levels below |
| `LevelTracking.SortedNumBelow` | priority/priority.go:169-176 | At least k elements are below l if and only if the k-th smallest is |
| `LevelTracking.StopsAtKthSmallest` | priority/priority.go:153-180 | The level the scan stops at is the k-th element of every sorted arrangement of the window |
| `LevelTracking.TargetInWindow` | priority/priority.go:162-167 | For 0 < q ≤ 1, k is the ceiling of q · n and lies in 1..n |
| `UsageTracking.UsageTracker.constructor` | priority/usage.go:74-85 | No users |
| `UsageTracking.UsageTracker.EvictOldest` | priority/usage.go:193-199 | The back of the list leaves both list and map |
| `UsageTracking.UsageTracker.RecordUsage` | priority/usage.go:87-108 | The user is at the front, active now, with the total given; a new user in a full tracker displaces the oldest |
| `UsageTracking.UsageTracker.ReadUser` | priority/usage.go:156-164 | A user without usage who has been idle too long is removed; any other is updated |
| `UsageTracking.UsageTracker.ReadUsages` | priority/usage.go:156-164 | The loop over the map, in any order, leaves the users who are not stale and collects the positive usages |
| `UsageTracking.UsageTracker.Calibrate` | priority/usage.go:148-178 | Stale users go and every other user's quantile is its rank among the active users, whatever the order of iteration |
| `UsageTracking.UsageTracker.GetLevel` | priority/usage.go:110-134 | In a tracker whose ranks are in [0, 1], a level within the priority's range, and never below that of a user who outranks this one |
| `UsageTracking.EveryLevel` | priority/usage.go:110-134 | In every run, with any uses since the last calibration, all ranks are in [0, 1] and every level is in its priority's range, for known users and others |
| `UsageTracking.PrioritiesPartLevels` | priority/priority.go:53-59 | The tracked levels are parted among the priorities, a hundred each, the higher priority above the lower |
| `UsageTracking.SortSorts` | priority/usage.go:166-168 | Sorting orders the usages and changes no count |
| `UsageTracking.SearchCountsBelow` | priority/usage.go:186-188 | Binary search finds the number of usages below |
| `UsageTracking.PositiveCounts` | priority/usage.go:156-164 | The collected usages below any bound are as many as the users with them |
| `UsageTracking.QuantileIsRank` | priority/usage.go:181-191 | The quantile computed by search is the fraction of active users with less usage, rounded |
| `UsageTracking.EvictsLeastRecent` | priority/usage.go:193-199 | Whoever is evicted was used before everyone who stays |
| `UsageTracking.EveryRun` | priority/usage.go:87-199 | After every run with maxUsers ≥ 1, map and list hold the same users, in order of most recent use, at most maxUsers of them |
| `UsageTracking.UseChangesOneUser` | priority/usage.go:87-108 | A use changes its own user only, whose rank stays as the last calibration set it, or is none for a new user; a user is displaced only by a new one in a full tracker, and it is the least recently used |
| `UsageTracking.CalibrateDropsStale` | priority/usage.go:148-178 | A user survives calibration if and only if it has usage or has been active since the cutoff |
| `UsageTracking.CalibratedUser` | priority/usage.go:170-177 | Every surviving user's quantile is its rank among the survivors |
| `UsageTracking.MoreUsageHigherRank` | priority/usage.go:181-191 | Ranks grow with usage and stay in [0, 1] |
| `UsageTracking.FairLevels` | priority/usage.go:110-178 | Right after calibration a user with at least as much usage never gets a higher level, and every level is in its priority's range |
| `UsageTracking.LevelsFollowRanks` | priority/usage.go:110-134 | The lightest active user gets the priority's highest level, and ranks two hundredths apart get different levels |

## Left out

- LevelTracking.LevelTracker.RecordLevel: levels outside 0..499, for which the source panics, are excluded.
- MaxWindows.MaxWindow.Value: a configured window that is still empty, for which the source panics, is excluded.
- CorrelationWindows.CorrelationWindow.constructor: capacity zero, with which the first addition panics, is excluded, as it is for the other rings.
- UsageTracking.UsageTracker.RecordUsage: the user's bucketed usage window is not modelled; the total it reports is an input, here and in calibration.
- BurstyLimiter.EveryRun: calls are in the order of their clock readings; the smooth limiter's theorems do not need that.
- Semaphores.EveryRun: a release by a caller that holds no permit, while others hold some, is not a step of a run.
- RetryStack.CallBound: unlimited retries (maxRetries -1) have no bound and are not modelled; delays, backoff and jitter only decide how long a turn takes.
- Hedging.EveryRun: the coordinator's nested loops are steps of one state machine rather than loops, because attempts run between any two of them.
- Budgets.Budget.ReleasePermit: only an execution that holds a permit gives one back, as the executors do; the source would let the counters go negative.
- Budgets.Budget.TryAcquirePermit: reads both counters together; in the interleavings of `Budgets.EveryRun` the decision is arbitrary, so torn reads are covered there.
- Floating-point rounding: arithmetic is on reals.
- Machine overflow, except in the breaker's unsigned subtraction of thresholds, which wraps.
- State-change and limit-change listeners, which the source calls with the lock released in the middle of a transition.
- The time-based closed breaker as a whole: its statistics are the bucketed window proved here, and its thresholds the rate thresholds proved here for counted results.
- The t-digest, moving medians and moving averages that feed the adaptive limit, and when a recorded sample triggers an update: their outputs are arbitrary signals.
- Queueing and prioritised limiters, throttlers and prioritizers: random rejection over the components modelled here.
- Timeout, bulkhead, fallback and cache policies: one compare-and-swap, channel or branch each; in the retry stack they are layers that call the inner layer at most once.
- Builders, logging, events, contexts, error matching and reflection, and the HTTP and gRPC adapters.
- The standard library's sort and binary search are functions proved to sort and to search.
