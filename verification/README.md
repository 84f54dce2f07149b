# A verified model of RLAAS

RLAAS decides whether a request may proceed under a rate-limiting policy: it matches the request to a
policy, builds a counter key, and lets one of several algorithms read and update a counter store. This
project models the parts of it that carry state, arithmetic or interleaving, and proves what they
promise over whole runs:

| file | what it models |
|---|---|
| `StoreModel.dfy`, `MemoryStore.dfy` | the sharded in-memory counter store, against one flat map |
| `Common.dfy` | the unit of time and optional values |
| `Buckets.dfy`, `BucketCas.dfy`, `BucketCasLimits.dfy`, `BucketEvaluators.dfy` | token bucket and leaky bucket: sequential runs, overlapping evaluations, where their bound ends, the retry loops |
| `Calendar.dfy`, `Windows.dfy` | windows, weeks and calendar months in UTC |
| `WindowCas.dfy`, `WindowEvaluators.dfy` | fixed window and quota under concurrency |
| `SlidingLog.dfy` | the sliding log |
| `SlidingCounter.dfy`, `SlidingCounterProgress.dfy`, `SlidingCounterLimits.dfy`, `SlidingCounterEvaluator.dfy` | the sliding window counter under concurrency: its bound, what a failed swap means, where the bound ends, and its evaluator |
| `Leases.dfy` | concurrency leases, the release closure and the lease registry |
| `PolicyCache.dfy` | cached policies, eviction, singleflight loading |
| `CircuitBreaker.dfy` | the breaker around Redis |
| `Region.dfy`, `RegionAllocator.dfy` | splitting a limit over regions, and region health |
| `Model.dfy`, `Text.dfy`, `Keys.dfy`, `EvaluatorKeys.dfy`, `Matcher.dfy` | policy scopes, counter keys, matching and selection |
| `PolicyHistory.dfy` | policies with audit log, versions and rollback |

Each component has two layers. The first is a value-level step function, with a run over any sequence of
events where the component has state; the theorems are about these. The second is the code: classes,
loops and in-place updates whose contracts say that they do exactly what the step functions say.

## How things are modelled

- Times and durations are integer nanoseconds. `float64` is `real`, `math.Round` is floor(x + 1/2) on the
  nonnegative values it is applied to, conversions to integers drop the fraction. Integers are unbounded.
- A Go zero `time.Time` in an expiry field is `Never`.
- Clock readings are parameters. One reading serves one bucket or window evaluation; the sliding log has
  two, the evaluator's and the store's. A sweep may use a reading that is out of date.
- SHA-1 and the shard hash are arbitrary functions. Library sorts are insertion sorts, stable where the
  source asks for a stable sort. Map iteration order is an arbitrary choice.
- Store calls do not fail.
- In the retry loops, `gaps` stands for the other clients: it says what they write between this evaluation's
  store calls, attempt by attempt. For the buckets that is any value to either key, at each of the three
  points in between.
- The concurrent machines (`BucketCas`, `WindowCas`, `SlidingCounter`, `Leases`, `PolicyCache`,
  `CircuitBreaker`) take one critical section per step and admit every interleaving.

## Where the code and its promises part

Each of these is a lemma with the exact input, next to the theorem that holds.

- `ExpiryInvisible`: the two-hour ttl on bucket keys is harmless exactly when an idle gap longer than the
  ttl refills the bucket anyway; with a slow enough rate it hands the burst out again. `ChargedBound` says
  by how much per expiry, and `BusyBound` that nothing is lost without one, at every rate.
- `OverlappingBound` holds for overlapping bucket evaluations as long as every successful swap has read the
  timestamp of the last charge and none later than its own clock. A swap compares the level only, so nothing
  enforces that, and each way around it is a run of the machine that breaks the bound. `NewKeyUnbounded`: a token
  bucket without a timestamp ignores its level, so any number of evaluations is admitted at full capacity before
  the first timestamp lands. `IdleKeyUnbounded`: either bucket refills once per evaluation that reads between
  another's swap and its timestamp. `EqualLevelBreaksBound`: a charge of exactly what flowed in leaves the level
  as it was and goes unnoticed. `ClockBackBreaksBound`: a timestamp written by a slow clock counts flow twice.
- `TieBreaksDuality`: token bucket and leaky bucket agree on every run exactly when no charge lands midway
  between two thousandths; both round such a tie up, in opposite directions.
- `LateSwapOvercharges`: an evaluation that outlives its window's counter charges the window a second time.
- `WindowInTimeIff`, `LongMonthOvercharges`: a monthly counter lives 30 days, so in every month of 31 days, and
  in no other window, a monthly limit or quota can be charged twice inside the month.
- `MonthBoundIff`: the sliding counter looks for the previous month 30 days back, so its bound holds in a month
  if and only if the month before had 30 days; and, while evaluations are still out and charges count at their
  clock readings, only if the month itself does not have 31 (`SlowMonthUnbounded`).
- `StaleStampBreaksBound`, `EarlySweepBreaksBound`: the sliding log is exact while stamps keep lock order. For
  every policy one stamp that is a nanosecond older than a request or a sweep before it passes the limit.
- `HintAdmittedIff`: the sliding log's retry hint is an estimate; the lemma says when a retry at it succeeds.
- `LateSwapBreaksBound`: at every window boundary, an evaluation that swaps after its window has ended breaks
  the sliding counter's bound.
- `NonpositiveWindowUnbounded`: a nonpositive window gives the sliding counter no bound at all.
- `ExpiryBreaksConservation`: a step breaks lease conservation if and only if it meets a counter that expired
  with leases still out.
- `EnterLoadsIff`, `LateEntrantLoadsAgain`: the comment at `internal/store/cache/policy_cache.go:157` promises
  exactly one load per namespace; the code gives one load at a time, whatever the cache holds by then.
- `CapKeptIff`, `EmptyNamespacePins`: the empty namespace is never evicted, and once its entry is the
  oldest, nothing is.
- `RefusedIffWaiting`: the half-open probe limit (`internal/store/counter/redis/store.go:57`) counts
  successes, so a half-open breaker refuses nobody.
- The comment at `internal/region/allocator.go:193` says an all-unhealthy allocator splits evenly; the code
  splits by weight, and so does the model.

## Model

| member | source | states |
|---|---|---|
| `StoreModel.ShardingInvisible` | internal/store/counter/memory/store.go:54-238 | For every shard count, hash and timed run of store calls with sweeps anywhere, even with stale sweep clocks, the sharded lazily-expiring store gives the same replies as one flat map that never deletes |
| `StoreModel.RunAgrees` | internal/store/counter/memory/store.go:54-307 | The agreement of sharded and flat store is kept over any run, from any agreeing pair |
| `StoreModel.StepAgrees` | internal/store/counter/memory/store.go:54-195 | One call gives the same reply in both stores and leaves them indistinguishable to every later reader of every key |
| `StoreModel.StepOwnKey` | internal/store/counter/memory/store.go:54-217 | On its own key a locked shard operation shows later readers what the flat reference shows, evictions included |
| `StoreModel.StepOtherKey` | internal/store/counter/memory/store.go:54-238 | A call never changes what any reader sees under another key, in the same shard or not |
| `StoreModel.SweepAgrees` | internal/store/counter/memory/store.go:284-307 | A sweep is invisible to every reader at or after the clock |
| `StoreModel.ShardsByHash` | internal/store/counter/memory/store.go:230-238 | Keys share a shard exactly when their hashes do, modulo the number of shards |
| `StoreModel.StepEffect` | internal/store/counter/memory/store.go:68-104 | What a Get, Set or CompareAndSwap leaves visible from then on, key by key |
| `StoreModel.LeaseEffect` | internal/store/counter/memory/store.go:165-195 | What a lease call leaves visible from then on, key by key, and that it leaves the counters alone |
| `StoreModel.ReadBack` | internal/store/counter/memory/store.go:54-116 | Told by replies alone: a Set is read back until its ttl is over, an Increment adds, a swap succeeds exactly on the value read, a write without ttl lasts as long as what it replaces, a Delete leaves zero |
| `StoreModel.LeaseBack` | internal/store/counter/memory/store.go:165-195 | A lease is granted below the limit and counted for its ttl, refused at the limit with the count, and given back one at a time, never below zero |
| `StoreModel.NothingExpiredStays` | internal/store/counter/memory/store.go:107-116 | A sweep leaves no entry and no log that had expired, and a call none under its own key |
| `StoreModel.SortedSorts` | internal/store/counter/memory/store.go:340 | Sorting the stamps gives an ascending permutation of them |
| `StoreModel.SortedKeeps` | internal/store/counter/memory/store.go:340 | Sorting an ascending log changes nothing |
| `MemoryStore.MemoryStore.constructor` | internal/store/counter/memory/store.go:37-51 | A new store has one empty shard or as many as asked for |
| `MemoryStore.MemoryStore.GetValueLocked` | internal/store/counter/memory/store.go:199-206 | Reads the live value and drops an expired one |
| `MemoryStore.MemoryStore.GetLeaseLocked` | internal/store/counter/memory/store.go:210-217 | Reads the live lease count and drops an expired one |
| `MemoryStore.MemoryStore.Get` | internal/store/counter/memory/store.go:68-74 | Implements the store step Get on the key's shard and no other |
| `MemoryStore.MemoryStore.Set` | internal/store/counter/memory/store.go:77-87 | Implements the store step Set |
| `MemoryStore.MemoryStore.Increment` | internal/store/counter/memory/store.go:54-65 | Implements the store step Increment, keeping the old expiry when the ttl is not positive |
| `MemoryStore.MemoryStore.CompareAndSwap` | internal/store/counter/memory/store.go:90-104 | Implements the store step CompareAndSwap, its reply included |
| `MemoryStore.MemoryStore.Delete` | internal/store/counter/memory/store.go:107-116 | Implements the store step Delete over values, logs and leases |
| `MemoryStore.MemoryStore.AcquireLease` | internal/store/counter/memory/store.go:165-182 | Implements the store step AcquireLease, with its three replies |
| `MemoryStore.MemoryStore.ReleaseLease` | internal/store/counter/memory/store.go:185-195 | Implements the store step ReleaseLease |
| `MemoryStore.MemoryStore.CheckAndAddTimestamps` | internal/store/counter/memory/store.go:312-346 | Implements the locked trim, count, check and record as one step |
| `MemoryStore.MemoryStore.Sweep` | internal/store/counter/memory/store.go:284-307 | Every shard is swept with the one clock reading |
| `MemoryStore.TrimInPlace` | internal/store/counter/memory/store.go:317-325 | The in-place compaction leaves exactly the stamps at or after the cutoff, in order |
| `MemoryStore.DropExpired` | internal/store/counter/memory/store.go:289-298 | The deletion loop leaves exactly the unexpired entries |
| `MemoryStore.DropLogs` | internal/store/counter/memory/store.go:299-304 | The deletion loop removes exactly the logs whose expiry has passed, with their expiries |
| `Buckets.TokenConfig` | internal/algorithm/tokenbucket/tokenbucket.go:40-55 | Whatever the policy leaves out, capacity and refill rate are positive, unless the rate has to be computed from a window of no length and a limit of zero or more, when it is not a finite number |
| `Buckets.LeakyConfig` | internal/algorithm/leakybucket/leakybucket.go:43-51 | Whatever the policy leaves out, capacity and leak rate are positive |
| `Buckets.TokenRefill` | internal/algorithm/tokenbucket/tokenbucket.go:48-55 | A configured rate flows in per second; without one a window refills the limit exactly; with neither, one unit a second |
| `Buckets.TokenBurst` | internal/algorithm/tokenbucket/tokenbucket.go:40-46 | A new token bucket admits the burst and not one more; without a burst the limit, without either one |
| `Buckets.LeakyLimit` | internal/algorithm/leakybucket/leakybucket.go:43-51 | A new leaky bucket admits the limit and not one more, and leaks the configured rate per second, or one |
| `Buckets.LeakyTtl` | internal/algorithm/leakybucket/leakybucket.go:53-57 | The ttl is twice the window, but at least two hours |
| `Buckets.TokenTtlCovers` | internal/algorithm/tokenbucket/tokenbucket.go:57-60 | For a bucket that refills its limit once a window, key expiry changes no run if and only if the window is at most two hours |
| `Buckets.ClockBackIgnored` | internal/algorithm/tokenbucket/tokenbucket.go:79-83 | A clock behind the last charge decides as if it stood at it |
| `Buckets.RemainingIsHeadroom` | internal/algorithm/tokenbucket/tokenbucket.go:85-114 | The remaining count reported is the headroom left, rounded down; a denied leaky bucket reports none |
| `Buckets.DecideByHeadroom` | internal/algorithm/tokenbucket/tokenbucket.go:73-92 | Both buckets admit exactly the costs that fit in the headroom, and a charge takes its cost from it up to half a thousandth |
| `Buckets.HeadroomGrows` | internal/algorithm/tokenbucket/tokenbucket.go:79-83 | Between charges headroom never shrinks and grows at most at the rate |
| `Buckets.HeadroomFills` | internal/algorithm/leakybucket/leakybucket.go:77-81 | Once charged, a bucket refills at the full rate until it is full |
| `Buckets.EvaluateFits` | internal/algorithm/tokenbucket/tokenbucket.go:62-114 | One evaluation over stored keys: cost plus remaining headroom is at most the headroom before, plus rounding, plus one expiry's loss if it found the keys expired |
| `Buckets.ExpiryLoses` | internal/algorithm/tokenbucket/tokenbucket.go:60 | Keys found expired give back at most what the ttl did not refill, and unexpired ones nothing |
| `Buckets.ChargedBound` | internal/algorithm/tokenbucket/tokenbucket.go:34-119 | Over every interval of every sequential run of either bucket, at every rate and ttl, the cost charged is at most capacity plus rate times length, plus half a thousandth per charge, plus the loss of each charge that found its keys expired |
| `Buckets.BusyBound` | internal/algorithm/tokenbucket/tokenbucket.go:34-119 | A bucket never left idle past its ttl has the plain bound, however slow its rate |
| `Buckets.ShortRunBusy` | internal/algorithm/tokenbucket/tokenbucket.go:60 | Any run that fits into one ttl is such a run |
| `Buckets.LateTimestampRefills` | internal/algorithm/tokenbucket/tokenbucket.go:73-108 | A bucket that looks full, a token bucket without a timestamp included, admits every cost up to its capacity, and to a reader between that swap and its timestamp it looks full again |
| `Buckets.EqualLevelHidesCharge` | internal/algorithm/leakybucket/leakybucket.go:89-105 | A charge of exactly what flowed in leaves the level unchanged, and an evaluation that read before it sees that much more headroom than there is |
| `Buckets.ExpiryInvisible` | internal/algorithm/tokenbucket/tokenbucket.go:57-60 | Key expiry never changes an outcome of any run if and only if the ttl refills the bucket |
| `Buckets.RunIgnoresExpiry` | internal/algorithm/leakybucket/leakybucket.go:53-57 | With a refilling ttl, a run with expiring keys equals the run with keys kept for ever |
| `Buckets.ShortTtlRefills` | internal/algorithm/tokenbucket/tokenbucket.go:60 | For every configuration with a shorter ttl, the run in which expiry turns a denial into an admission |
| `Buckets.RetryBounds` | internal/algorithm/tokenbucket/tokenbucket.go:85-88 | Before the truncated wait what is missing has not flowed in; after it, it has |
| `Buckets.RetryAfterTight` | internal/algorithm/leakybucket/leakybucket.go:83-87 | After a denial every earlier retry is denied, every later one admitted, and a cost above capacity never is |
| `Buckets.ComplementRounds` | internal/algorithm/leakybucket/leakybucket.go:89 | Rounding a level and its complement loses nothing unless the level is midway, when it gains one |
| `Buckets.DualStep` | internal/algorithm/leakybucket/leakybucket.go:72-89 | Complementary buckets decide alike, and stay complementary if and only if the charge is not a tie |
| `Buckets.DualRun` | internal/algorithm/leakybucket/leakybucket.go:60-108 | Complementary buckets give the same outcomes over any run without ties |
| `Buckets.TokenLeakyDuality` | internal/algorithm/leakybucket/leakybucket.go:34-112 | From fresh keys, a leaky bucket and a token bucket of equal size and rate decide every request of every tie-free run alike, with the same hints |
| `Buckets.TieBreaksDuality` | internal/algorithm/tokenbucket/tokenbucket.go:92 | A run with one tie after which the two buckets decide differently |
| `Buckets.OlderTimestampRefills` | internal/algorithm/tokenbucket/tokenbucket.go:79-83 | A timestamp older than the last charge adds exactly the flow in between, up to a full bucket |
| `BucketCas.OverlappingBound` | internal/algorithm/tokenbucket/tokenbucket.go:62-114 | Under every interleaving of any number of evaluations whose successful swaps have read the last charge's timestamp, and none later than their clock, the charges are those of a sequential run and keep its bound over every interval |
| `BucketCas.RunKeeps` | internal/algorithm/leakybucket/leakybucket.go:62-108 | In every state so reached the charges could have been made one after another, and the level in the store is the one they would leave, whatever has become of the timestamp |
| `BucketCas.StepsAreStoreSteps` | internal/algorithm/tokenbucket/tokenbucket.go:64-108 | The machine's reads, swaps and timestamps are the flat store's calls on the two keys, with the same replies, and stay in step with it; a denial calls nothing |
| `BucketCasLimits.OneByOneClean` | internal/algorithm/tokenbucket/tokenbucket.go:62-114 | Evaluations that follow one another in clock order, any number of them, are such a run |
| `BucketCasLimits.NewKeyUnbounded` | internal/algorithm/tokenbucket/tokenbucket.go:74-108 | For every token bucket and every n: n overlapping evaluations of a new key are all charged at one instant, each up to the full capacity |
| `BucketCasLimits.IdleKeyUnbounded` | internal/algorithm/leakybucket/leakybucket.go:63-105 | For both buckets and every n: after an idle time that fills the bucket, n overlapping evaluations are all charged at one instant |
| `BucketCasLimits.EqualLevelBreaksBound` | internal/algorithm/leakybucket/leakybucket.go:89-105 | For both buckets: a run in which no timestamp is outstanding when anybody reads or swaps, and two evaluations each take what flowed in once |
| `BucketCasLimits.ClockBackBreaksBound` | internal/algorithm/tokenbucket/tokenbucket.go:79-108 | For both buckets: a run without any overlap, one clock reading going back, that charges more than the bound |
| `BucketEvaluators.AttemptsDecide` | internal/algorithm/tokenbucket/tokenbucket.go:62-118 | Whatever the others write to either key at any point, the loop decides as one undisturbed evaluation of the pair it read, two numbers that were in the store, or lost every swap to a write of the level |
| `BucketEvaluators.QuietAttempt` | internal/algorithm/tokenbucket/tokenbucket.go:64-115 | Left alone, one pass of the loop is the evaluation that the bound is about |
| `BucketEvaluators.Refill` | internal/algorithm/tokenbucket/tokenbucket.go:73-83 | Computes the tokens at this instant, for a new key, a clock gone back and the cap alike |
| `BucketEvaluators.Leak` | internal/algorithm/leakybucket/leakybucket.go:72-81 | Computes the level at this instant likewise |
| `BucketEvaluators.ReadBoth` | internal/algorithm/tokenbucket/tokenbucket.go:64-71 | Reads the level and then the timestamp, with the others writing in between, and itself changes nothing any reader can see |
| `BucketEvaluators.Commit` | internal/algorithm/tokenbucket/tokenbucket.go:94-108 | Charges if and only if the level is the one read, whatever has become of the timestamp, and leaves its own timestamp over any written after the swap |
| `BucketEvaluators.TryToken` | internal/algorithm/tokenbucket/tokenbucket.go:64-115 | One pass of the loop: its outcome and the bucket it leaves, given what the others did meanwhile |
| `BucketEvaluators.TryLeaky` | internal/algorithm/leakybucket/leakybucket.go:63-108 | The same for the leaky bucket |
| `BucketEvaluators.EvaluateToken` | internal/algorithm/tokenbucket/tokenbucket.go:57-119 | The whole retry loop against any writes of others to its two keys: the outcome, the bucket left in the store, and nothing else changed |
| `BucketEvaluators.EvaluateLeaky` | internal/algorithm/leakybucket/leakybucket.go:40-112 | The same for the leaky bucket, with its ttl rule |
| `Windows.Cost` | internal/algorithm/common/common.go:59-67 | The policy's cost, else the request's, else one |
| `Windows.EffectiveLimit` | internal/algorithm/fixedwindow/fixedwindow.go:41-44 | The limit used is the configured one, or one |
| `Windows.MaxRetries` | internal/algorithm/fixedwindow/fixedwindow.go:13-20 | The configured number of attempts, or five |
| `Windows.DefaultWindows` | internal/algorithm/common/common.go:10-56 | Unset and unrecognised windows are the minutes of the clock, daily windows and quotas without a period the days of the calendar, a parsed duration its own multiples, and one of no length the instant itself |
| `Windows.EndIsFirstOutside` | internal/algorithm/common/common.go:45-56 | The end of a window is the first instant that lies in another one |
| `Windows.WeekStart` | internal/algorithm/common/common.go:32-43 | The calendar week computed by weekday is plain truncation to seven days |
| `Windows.WindowsTile` | internal/algorithm/common/common.go:32-56 | Apart from months, windows lie on a grid of one length: two starts are equal or at least that far apart, and the previous window begins one length earlier |
| `Windows.WindowsPartition` | internal/algorithm/common/common.go:32-56 | Windows of every kind, months included, cut time into half-open pieces: each instant lies in its own window, and exactly its instants share its start |
| `Windows.WindowLength` | internal/algorithm/common/common.go:10-56 | A window is as long as its duration, except that a month has its own 28 to 31 days |
| `Windows.PreviousMonthIff` | internal/algorithm/slidingcounter/slidingcounter.go:49-50 | The previous month began 30 days before this one if and only if it had 30 days |
| `Windows.EpochIsJanuary` | internal/algorithm/common/common.go:35 | The calendar puts the start of January 1970 at time zero |
| `Calendar.MonthUnique` | internal/algorithm/common/common.go:35 | Every day lies in exactly one month |
| `Calendar.MonthOrder` | internal/algorithm/common/common.go:35 | Months follow one another, 28 to 31 days each |
| `Calendar.YearBegin` | internal/algorithm/common/common.go:35 | Counting month by month gives the leap-year rule |
| `WindowCas.CasSafety` | internal/algorithm/fixedwindow/fixedwindow.go:50-71 | Under every interleaving of any number of evaluations a window's counter is the sum of the costs of exactly those told "allowed", each once, and never passes the limit, up to one ttl after the window's start |
| `WindowCas.IntervalBound` | internal/algorithm/fixedwindow/fixedwindow.go:35-72 | Under every interleaving the cost charged in any interval no longer than the window, over all windows together, is at most twice the limit |
| `WindowCas.IntervalReached` | internal/algorithm/fixedwindow/fixedwindow.go:35-72 | At every window boundary after time zero, a run charges exactly twice the limit within one nanosecond |
| `WindowCas.SwapIffQuiet` | internal/algorithm/fixedwindow/fixedwindow.go:61-68 | A swap succeeds exactly when nobody committed to the window since the read: equal counts cannot hide a change |
| `WindowCas.CounterExact` | internal/algorithm/fixedwindow/fixedwindow.go:51-54 | Up to one ttl after its window's start a counter has not expired and reads as the sum of its ledger |
| `WindowCas.RunKeeps` | internal/algorithm/fixedwindow/fixedwindow.go:50-71 | The protocol invariant holds in every reachable state |
| `WindowCas.ContentionNeedsCommits` | internal/algorithm/fixedwindow/fixedwindow.go:71 | "Contention" is reported only if at least as many other evaluations committed to the window meanwhile as there are retries |
| `WindowCas.ContentionUnreachable` | internal/algorithm/quota/quota.go:53-74 | With more retries than the limit contention is never reported |
| `WindowCas.StepsAreStoreSteps` | internal/algorithm/fixedwindow/fixedwindow.go:47-64 | The machine's reads and swaps are the flat store's calls on the window key, with the same replies, and stay in step with it |
| `WindowCas.WindowKeysDiffer` | internal/algorithm/fixedwindow/fixedwindow.go:47 | Different windows of one policy key have different store keys |
| `EvaluatorKeys.WindowKeysAreStoreKeys` | internal/algorithm/fixedwindow/fixedwindow.go:47 | The window keys of a policy's limit key are the full store keys that unique decoding is about |
| `WindowCas.LateSwapOvercharges` | internal/algorithm/fixedwindow/fixedwindow.go:61 | For every policy with a positive window: an evaluation begun inside the window and finished after the counter's ttl charges the window twice its limit |
| `WindowCas.WindowInTimeIff` | internal/algorithm/common/common.go:23-24 | The ttl covers every instant of the window if and only if the window is not a month of 31 days |
| `WindowCas.LongMonthOvercharges` | internal/algorithm/quota/quota.go:43-65 | In every month of 31 days two evaluations, each at one instant of that month, charge it twice its limit |
| `WindowEvaluators.AttemptsSafe` | internal/algorithm/fixedwindow/fixedwindow.go:50-71 | Whatever the others charge in the gaps, the counter stays within the limit, a commit adds the cost on top of theirs, and giving up means they charged once per attempt |
| `WindowEvaluators.NeverGivesUp` | internal/algorithm/quota/quota.go:53-74 | With more retries than the limit the loop always decides |
| `WindowEvaluators.AttemptsAccounted` | internal/algorithm/fixedwindow/fixedwindow.go:50-71 | The loop stops at the first attempt that no longer fits or in whose gap nobody charged, all earlier ones having been lost, and leaves the others' charges with its own cost on top in the second case only |
| `WindowEvaluators.VerdictAccounted` | internal/algorithm/fixedwindow/fixedwindow.go:56-71 | So the verdict, given the others' charges: within, the remaining count is what the limit leaves of the counter; else nothing was added; left alone, it is the plain test of the count |
| `WindowEvaluators.ChargeLoop` | internal/algorithm/fixedwindow/fixedwindow.go:50-71 | The loop over the real store ends as specified and changes only the window's key |
| `WindowEvaluators.EvaluateFixedWindow` | internal/algorithm/fixedwindow/fixedwindow.go:35-72 | From what the store shows before and after: left alone, within exactly when the old count and the cost fit; under any charges by others, within means the new count is the limit less the remaining count and includes this cost, and otherwise this call added nothing; a charge lives one window length; reset time and wait end at the next window |
| `WindowEvaluators.EvaluateQuota` | internal/algorithm/quota/quota.go:34-75 | The same for a quota, over its period, a day when unset |
| `SlidingLog.LogRefinesHistory` | internal/algorithm/slidinglog/slidinglog.go:32-65 | Over every run, overlapping evaluations and sweeps included, in which stamps keep lock order, every count and decision is the one taken from the complete history of charges |
| `SlidingLog.RequestTracks` | internal/store/counter/memory/store.go:312-346 | One check answers as the full history would and keeps every stamp that a cutoff from its own stamp on can see |
| `SlidingLog.SweepTracks` | internal/store/counter/memory/store.go:299-304 | A sweep drops only logs no later cutoff can see into |
| `SlidingLog.RollingWindowBound` | internal/algorithm/slidinglog/slidinglog.go:32-65 | For every instant the cost of the requests told "allowed" with stamps in the window ending there is within the limit |
| `SlidingLog.StaleStampBreaksBound` | internal/algorithm/slidinglog/slidinglog.go:53-65 | For every policy: a denied request trims the log, and a request stamped one nanosecond earlier that comes after it is charged on top of a full window |
| `SlidingLog.EarlySweepBreaksBound` | internal/store/counter/memory/store.go:299-304 | For every policy: a sweep past the log's expiry makes room for a request stamped one nanosecond earlier that comes after it |
| `SlidingLog.HistoryIsCharged` | internal/algorithm/slidinglog/slidinglog.go:32-65 | The reference history is exactly the stamps of the requests told "allowed" |
| `SlidingLog.RetryAdmittedIff` | internal/algorithm/slidinglog/slidinglog.go:54-57 | A retry after a denial is admitted if and only if the cost fits the limit and the oldest stamps by which the log was over have left the window |
| `SlidingLog.HintAdmittedIff` | internal/algorithm/slidinglog/slidinglog.go:98-107 | The same at the hint itself |
| `SlidingLog.RetryAfter` | internal/algorithm/slidinglog/slidinglog.go:98-107 | The hint is positive for a denied request, and within the window when the cost alone would fit |
| `SlidingLog.HintIsShare` | internal/algorithm/slidinglog/slidinglog.go:98-107 | The hint is the window's share that the excess is of the count, rounded down; a second if that is nothing, a whole window for an empty log |
| `SlidingLog.Evaluate` | internal/algorithm/slidinglog/slidinglog.go:32-65 | The decision and the shard left behind are those of the store step with the policy's effective limit and window |
| `SlidingCounter.ErrorBound` | internal/algorithm/slidingcounter/slidingcounter.go:37-104 | Under every interleaving of any number of evaluations that do not swap after their window has ended, for every instant, past or future, and whether charges count at their clock readings or at their swaps, the cost charged in the trailing window is at most limit + P * e / W and below twice the limit, P being the true previous count, which is what an evaluator reads from then on |
| `SlidingCounter.RunKeeps` | internal/algorithm/slidingcounter/slidingcounter.go:72-103 | Exact counters, charges that fit with the final previous count, and previous counts that are final when read hold in every reachable state |
| `SlidingCounter.NewChargeFits` | internal/algorithm/slidingcounter/slidingcounter.go:79-88 | What the window holds after a swap fits with what the true previous count carries at the evaluator's own clock reading, although it read that count only once, before its retries |
| `SlidingCounter.OldChargeFits` | internal/algorithm/slidingcounter/slidingcounter.go:67-88 | No later charge spoils that for an earlier one: the previous window's count is already final |
| `SlidingCounter.UntilFits` | internal/algorithm/slidingcounter/slidingcounter.go:79-88 | At every instant, what the window has been charged by then fits with what the previous one carries then, whatever is charged later |
| `SlidingCounter.CommitEval` | internal/algorithm/slidingcounter/slidingcounter.go:67-70 | No evaluation can have read the previous count before the last charge to that window |
| `SlidingCounter.CounterExact` | internal/algorithm/slidingcounter/slidingcounter.go:86 | The doubled ttl keeps a counter exact for two window lengths |
| `SlidingCounter.CarriedFades` | internal/algorithm/slidingcounter/slidingcounter.go:61-65 | The weight of the previous window never grows, is never negative, and is zero after one length |
| `SlidingCounterProgress.SwapIffQuiet` | internal/algorithm/slidingcounter/slidingcounter.go:86-102 | A swap in time succeeds exactly when nobody has charged the window since the read |
| `SlidingCounterProgress.ChargedOnce` | internal/algorithm/slidingcounter/slidingcounter.go:37-104 | Under every interleaving an evaluation is told "allowed" if and only if it has been charged, exactly once, with its cost, window and clock reading |
| `SlidingCounterProgress.ContentionNeedsCharges` | internal/algorithm/slidingcounter/slidingcounter.go:72-104 | "Contention" is reported only if at least as many other evaluations charged the window meanwhile as there are retries |
| `SlidingCounterProgress.ContentionUnreachable` | internal/algorithm/slidingcounter/slidingcounter.go:72-104 | With more retries than the limit contention is never reported |
| `SlidingCounter.InvBound` | internal/algorithm/slidingcounter/slidingcounter.go:37-104 | The bound holds at every instant, past or future, wherever the trailing window reaches back no further than the window looked up |
| `SlidingCounterLimits.LateSwapBreaksBound` | internal/algorithm/slidingcounter/slidingcounter.go:85-88 | For every policy and every window boundary: an interleaving with one swap after the boundary that puts twice the limit into the trailing window |
| `SlidingCounterLimits.MonthBoundIff` | internal/algorithm/slidingcounter/slidingcounter.go:48-50 | For a monthly policy, over all interleavings without late swaps, the bound holds at every instant of a month if and only if the month before had 30 days and, when charges count at clock readings, the month does not have 31; and at every instant by which the run is over if and only if the month before had 30 days |
| `SlidingCounterLimits.SlowMonthUnbounded` | internal/algorithm/slidingcounter/slidingcounter.go:61-88 | In every month of 31 days after one of 30, an evaluation that begins with the month and reads on its last day is charged in full on top of a full previous month |
| `SlidingCounterLimits.SlowEvaluationUnbounded` | internal/algorithm/slidingcounter/slidingcounter.go:61-88 | The same wherever a window outlasts its length |
| `SlidingCounterLimits.MisalignedUnbounded` | internal/algorithm/slidingcounter/slidingcounter.go:49-53 | Wherever the previous window does not begin one length earlier, the full limit is charged on its last instant and again one nanosecond later |
| `SlidingCounterLimits.UnreadForgotten` | internal/algorithm/slidingcounter/slidingcounter.go:49-53 | Whatever the window kind, a charge in a window that is neither the current one nor the one a length back is not counted at all |
| `SlidingCounterLimits.NonpositiveWindowUnbounded` | internal/algorithm/slidingcounter/slidingcounter.go:43-46 | With a nonpositive window the evaluator charges the full limit at each of n instants of one minute, for every n |
| `SlidingCounterLimits.StepIsRun` | internal/algorithm/slidingcounter/slidingcounter.go:37-104 | An evaluation at one instant is a run of the machine, with the same counters, charges and answer |
| `SlidingCounterEvaluator.EvaluateIsStep` | internal/algorithm/slidingcounter/slidingcounter.go:37-104 | What the evaluator promises is, left alone, exactly that step: allowed when it charges, exceeded when not, with the step's counters in the store |
| `SlidingCounterEvaluator.StepsAreStoreSteps` | internal/algorithm/slidingcounter/slidingcounter.go:67-88 | The machine's reads and swaps are the flat store's calls on the counter keys, with the same replies, and stay in step with it |
| `SlidingCounterEvaluator.CounterKeysInjective` | internal/algorithm/slidingcounter/slidingcounter.go:52-53 | Different windows of one policy key have different counter keys |
| `EvaluatorKeys.CounterKeysAreStoreKeys` | internal/algorithm/slidingcounter/slidingcounter.go:52-53 | The counter keys of a policy's limit key are those full store keys too |
| `SlidingCounterEvaluator.AttemptsFit` | internal/algorithm/slidingcounter/slidingcounter.go:72-103 | However much the others charge in the gaps, this evaluation never takes the counter above its own budget, is refused only when it no longer fits, and gives up only after one raise per attempt |
| `SlidingCounterEvaluator.BudgetExact` | internal/algorithm/slidingcounter/slidingcounter.go:79-80 | The weighted test on reals is an integer limit on the current count |
| `SlidingCounterEvaluator.WeighPrevious` | internal/algorithm/slidingcounter/slidingcounter.go:61-65 | Computes the weighted previous count, never with a negative weight |
| `SlidingCounterEvaluator.EstimateLoop` | internal/algorithm/slidingcounter/slidingcounter.go:72-103 | The retry loop against any raises by others ends as specified and changes only the current counter |
| `SlidingCounterEvaluator.Evaluate` | internal/algorithm/slidingcounter/slidingcounter.go:37-104 | The decision with its remaining count and times, and the counter left in the store, with the source's keys, defaults and ttl |
| `SlidingCounterEvaluator.DecisionMeans` | internal/algorithm/slidingcounter/slidingcounter.go:72-104 | From what the store shows before and after: left alone, allowed exactly when the weighted estimate is within the limit; under any raises, allowed means the counter grew by this cost on top of theirs and the remaining count is what the estimate leaves, else this call added nothing; a charge lives two lengths; times point one length past the window's start |
| `SlidingCounterEvaluator.ResetIsNextWindow` | internal/algorithm/slidingcounter/slidingcounter.go:81-103 | Apart from months, that is the first instant of the next window |
| `Leases.LeaseConservation` | internal/store/counter/memory/store.go:165-195 | In every reachable state without expiry the lease count of a key is the leases registered plus those acquired and not yet registered plus those popped and not yet released, and within the limit |
| `Leases.ReleaseOnce` | internal/adapter/http/controlplane.go:80-99 | However often and from however many handlers an id is released, it frees one slot |
| `Leases.ReleaseFindsSlot` | internal/store/counter/memory/store.go:190-193 | The guard that keeps the counter from going negative never acts |
| `Leases.RoundTripRestores` | internal/adapter/http/controlplane.go:80-99 | Whatever let a request through, its acquire, registration, pop and release can be made in turn, leave every lease count and the registry as they were, and free a slot exactly if they took one |
| `Leases.ExpiryBreaksConservation` | internal/store/counter/memory/store.go:165-217 | From any state that satisfies the law, a step keeps it for every key if and only if it does not meet a counter that expired with leases still out |
| `Leases.AcquireKeepsIff` | internal/store/counter/memory/store.go:165-182 | An acquire keeps the count right if and only if the counter it finds has not expired, or stood at zero |
| `Leases.ReleaseKeepsIff` | internal/store/counter/memory/store.go:185-195 | A release does if and only if the counter it finds has not expired, or counted this slot alone |
| `Leases.StepConserves` | internal/adapter/http/controlplane.go:149-188 | Each single step of a handler keeps the count |
| `Leases.StepIds` | internal/adapter/http/controlplane.go:80-99 | Each step keeps every lease id in at most one place |
| `Leases.StepsAreStoreSteps` | internal/store/counter/memory/store.go:165-195 | The machine's acquire and release are the flat store's, and a slot is owed exactly when the store granted one |
| `Leases.LeaseRegistry.Pop` | internal/adapter/http/controlplane.go:91-99 | Hands out the closure and forgets the id, or reports that there is none |
| `Leases.EngineLimit` | internal/engine/evaluator/engine.go:80-86 | The configured concurrency, else the limit, else one |
| `Leases.StartConcurrencyLease` | internal/engine/evaluator/engine.go:80-116 | A slot is taken, visible for the lease's ttl, exactly when one is free; only then is there one to give back; shadow mode allows anyway; the slots left are reported |
| `Leases.RunRelease` | internal/engine/evaluator/engine.go:108-110 | Runs the closure: the visible count falls by one, never below zero, or nothing happens |
| `PolicyCache.OneLeader` | internal/store/cache/policy_cache.go:165-190 | In every reachable state a namespace has at most one loader at work, and an entry in the table exactly while it has one |
| `PolicyCache.WaitersGetLeadersOutcome` | internal/store/cache/policy_cache.go:166-189 | Every caller that joined a load returns the result or error of that load's single loader call |
| `PolicyCache.WaitersWake` | internal/store/cache/policy_cache.go:168-182 | No waiter is stranded: its load is finished and it can return, or its leader can still take a step towards that |
| `PolicyCache.LoadCompletes` | internal/store/cache/policy_cache.go:166-190 | In every reachable state, once a loader returns, its leader's own steps lead to its return with that outcome, every waiter can then return the same, and the namespace is free again |
| `PolicyCache.LateEntrantLoadsAgain` | internal/store/cache/policy_cache.go:157-176 | For every namespace and configuration: a caller that missed loads again although the entry has been filled meanwhile and is fresh |
| `PolicyCache.EnterLoadsIff` | internal/store/cache/policy_cache.go:165-176 | In every reachable state a caller past its miss loads if and only if nobody is at work on the namespace, and waits if and only if somebody is, whatever the cache holds |
| `PolicyCache.RunKeeps` | internal/store/cache/policy_cache.go:159-190 | The singleflight invariant holds in every reachable state |
| `PolicyCache.HitsAreFresh` | internal/store/cache/policy_cache.go:76-96 | Over every run, a hit returns policies that were put under that namespace no longer than one ttl ago |
| `PolicyCache.WriteThenGet` | internal/store/cache/policy_cache.go:76-138 | What Set or a leader puts under a namespace is what Get returns for one ttl and no longer, however often the cache is swept, until it is written, invalidated or evicted |
| `PolicyCache.ItemsLeft` | internal/store/cache/policy_cache.go:87-138 | A sweep leaves exactly what is still found, an invalidated namespace is not found, and a Set touches its own namespace and its victim only |
| `PolicyCache.StepsClear` | internal/store/cache/policy_cache.go:98-138 | A sweep step leaves exactly the namespaces still found at its clock reading, an Invalidate step all but its own |
| `PolicyCache.CapKeptIff` | internal/store/cache/policy_cache.go:87-96 | A Set keeps the cache within its cap if and only if it did not need to evict or the entry found was not the empty namespace's |
| `PolicyCache.EmptyNamespacePins` | internal/store/cache/policy_cache.go:140-155 | Once the empty namespace's entry is the oldest, any sequence of later Sets is kept in full, whatever the cap |
| `PolicyCache.MemoryPolicyCache.constructor` | internal/store/cache/policy_cache.go:54-73 | An empty cache with positive ttl and cap |
| `PolicyCache.MemoryPolicyCache.Get` | internal/store/cache/policy_cache.go:76-84 | A hit exactly while the entry is fresh |
| `PolicyCache.MemoryPolicyCache.Set` | internal/store/cache/policy_cache.go:87-96 | Stores the entry and evicts, if over the cap, an entry none is older than |
| `PolicyCache.MemoryPolicyCache.Sweep` | internal/store/cache/policy_cache.go:129-138 | Keeps exactly the fresh entries |
| `PolicyCache.MemoryPolicyCache.EvictOldestLocked` | internal/store/cache/policy_cache.go:140-155 | The scan finds an entry none is older than, in any iteration order, and removes it unless its name is empty |
| `PolicyCache.MemoryPolicyCache.JoinOrLead` | internal/store/cache/policy_cache.go:166-175 | The locked section takes the machine's Enter step: it leads or waits, on the same load, as the machine does |
| `CircuitBreaker.BreakerSafety` | internal/store/counter/redis/store.go:222-280 | Over every run, with reports arriving in any state: openings lie more than the delay apart, nothing passes within the delay after an earlier opening, and failures and probes stay below their thresholds |
| `CircuitBreaker.PassesAccounted` | internal/store/counter/redis/store.go:286-300 | Over every run, the calls let through are those reported, in success or failure, plus those in flight |
| `CircuitBreaker.RefusedIffWaiting` | internal/store/counter/redis/store.go:222-241 | In every reachable state a call is refused if and only if the breaker is open and the delay is not over |
| `CircuitBreaker.ThresholdOpens` | internal/store/counter/redis/store.go:261-270 | From every reachable closed state, the failures missing to the threshold and no fewer, with calls asking in between, open the breaker as of the last report, and calls are refused until the delay is over |
| `CircuitBreaker.SuccessResets` | internal/store/counter/redis/store.go:255-257 | A success reported while closed makes it take the whole threshold again |
| `CircuitBreaker.ProbeFailureOpens` | internal/store/counter/redis/store.go:272-278 | One failure while half-open opens it at once |
| `CircuitBreaker.FailedCallsOpen` | internal/store/counter/redis/store.go:261-300 | That many calls failing one after another are all let through and do open it |
| `CircuitBreaker.StaysShut` | internal/store/counter/redis/store.go:222-280 | Until the delay is over no report and no call changes an open breaker or passes it |
| `CircuitBreaker.ProbesCounted` | internal/store/counter/redis/store.go:244-254 | While half-open, the successes missing and no fewer close it, with calls asking in between |
| `CircuitBreaker.Recovers` | internal/store/counter/redis/store.go:222-258 | From every reachable open state, the delay and then the configured number of successful calls close the breaker with a clean count |
| `CircuitBreaker.ProbesClose` | internal/store/counter/redis/store.go:244-258 | From every half-open state the missing number of successes closes it |
| `CircuitBreaker.StepKeeps` | internal/store/counter/redis/store.go:222-280 | Every step keeps the breaker's invariant |
| `CircuitBreaker.CircuitBreaker.constructor` | internal/store/counter/redis/store.go:100-114 | A new breaker is closed with no failures; five failures, ten seconds and two probes unless configured |
| `CircuitBreaker.CircuitBreaker.AllowCall` | internal/store/counter/redis/store.go:222-241 | Answers and moves as the Allow step |
| `CircuitBreaker.CircuitBreaker.Success` | internal/store/counter/redis/store.go:244-258 | Moves as the success step |
| `CircuitBreaker.CircuitBreaker.Failure` | internal/store/counter/redis/store.go:261-280 | Moves as the failure step |
| `CircuitBreaker.CircuitBreaker.Do` | internal/store/counter/redis/store.go:286-300 | A refused call reports nothing; an admitted one reports its own result once |
| `Region.ProportionalSplit` | internal/region/allocator.go:22-53 | A positive limit over usable regions is given away exactly: floors to all but the last by name, and to the last its floor and at most one unit per other region more |
| `Region.OrderIndependent` | internal/region/allocator.go:38 | With distinct names the split does not depend on the order of the input |
| `Region.SplitInNameOrder` | internal/region/allocator.go:38-51 | With distinct names the shares come in name order, so the rest goes to the greatest name |
| `Region.RegionShare` | internal/region/allocator.go:39-51 | Each region's share lies between its proportion rounded down and that plus the number of others, so the clamp at zero never acts |
| `Region.SharesExact` | internal/region/allocator.go:39-52 | The loop's running total makes the shares add up to the limit |
| `RegionAllocator.FilterUsable` | internal/region/allocator.go:26-33 | Keeps exactly the named regions of positive weight and adds up their weights |
| `RegionAllocator.AssignShares` | internal/region/allocator.go:39-52 | The loop hands out the specified shares |
| `RegionAllocator.AllocateGlobalLimit` | internal/region/allocator.go:22-53 | Computes the specified split, empty for a nonpositive limit or no usable region |
| `RegionAllocator.AllocatedRegions` | internal/region/allocator.go:26-52 | A region has a share if and only if the limit is positive and the region has a name and a positive weight |
| `RegionAllocator.AllocatorInvariant` | internal/region/allocator.go:107-219 | After any sequence of heartbeats, checks, drains and restores the allocations are the split over the regions not unhealthy, or over all when none is left; they sum to the limit, exactly the usable regions taking part hold a share, and no unhealthy region does while another is up |
| `RegionAllocator.UnhealthyIff` | internal/region/allocator.go:107-219 | After any run a configured region is marked unhealthy if and only if it was drained, or a check found it silent for longer than the ttl, and it has sent no heartbeat and has not been restored since, whatever other regions did |
| `RegionAllocator.StepKeeps` | internal/region/allocator.go:129-219 | Each operation leaves allocations that match the health table, also those that skip the rebalance |
| `RegionAllocator.DynamicAllocator.constructor` | internal/region/allocator.go:107-126 | All regions start healthy and the limit is split over them |
| `RegionAllocator.DynamicAllocator.RebalanceLocked` | internal/region/allocator.go:184-198 | The allocations become the split for the current health |
| `RegionAllocator.DynamicAllocator.Heartbeat` | internal/region/allocator.go:129-140 | Implements the heartbeat step, reviving an unhealthy region |
| `RegionAllocator.DynamicAllocator.CheckHealth` | internal/region/allocator.go:144-158 | The loop marks exactly the silent regions, in any order, and rebalances exactly when there was one |
| `RegionAllocator.DynamicAllocator.DrainRegion` | internal/region/allocator.go:201-208 | Implements the drain step |
| `RegionAllocator.DynamicAllocator.RestoreRegion` | internal/region/allocator.go:211-219 | Implements the restore step |
| `Keys.KeysEqualIff` | internal/key/builder.go:32-92 | Two full store keys of one prefix are equal if and only if they scope the same fields with the same sanitised values, carry the same tag hash or none, and end in the same algorithm and window |
| `Keys.KeysUnique` | internal/key/builder.go:32-92 | Equal store keys come from equal parts, so algorithms, windows and policies collide only through sanitising or the hash |
| `Keys.StoreKeys` | internal/algorithm/tokenbucket/tokenbucket.go:57-58 | The keys all the evaluators write from their limit key are the full keys that these two lemmas are about |
| `Keys.RenderInjective` | internal/key/builder.go:34-38 | The rendered fields determine names and values |
| `Keys.Sanitize` | internal/key/builder.go:85-92 | A sanitised value is never empty and holds neither colon nor space |
| `Keys.SanitizeKeeps` | internal/key/builder.go:85-92 | It has the value's length and every character of it but spaces and colons, which become underscores, as does an empty value |
| `Keys.ValuesTellKeys` | internal/key/builder.go:32-92 | Two requests whose values of a scoped field differ and need no sanitising never share a store key |
| `Keys.FieldsTellKeys` | internal/key/builder.go:32-64 | Nor do two policies of which only one scopes the field |
| `Keys.TagTextInjective` | internal/key/builder.go:67-80 | The hashed text determines the required names and the request's values of them |
| `Keys.TagsTellKeys` | internal/key/builder.go:60-82 | Requests whose required tags differ share a key only if two different texts have digests that begin with the same eight bytes |
| `Keys.HexParses` | internal/key/builder.go:81 | Reading the printed digest back, two lower-case hexadecimal digits a byte, gives its bytes |
| `Keys.HexInjective` | internal/key/builder.go:81 | Different bytes print differently |
| `Keys.HashTags` | internal/key/builder.go:67-82 | Hashes the required tags in sorted order with the request's values |
| `Keys.Build` | internal/key/builder.go:32-64 | Builds the specified key: the prefix, the scoped fields in order, and the tag hash when tags are scoped |
| `Text.DecimalInjective` | internal/algorithm/fixedwindow/fixedwindow.go:47 | Different integers print differently, signs included |
| `Matcher.WinnerOrderIndependent` | internal/engine/matcher/matcher.go:53-72 | With distinct ids the winner does not depend on the order of the policies, comes before every other, and outranks it in score, then priority, then id |
| `Matcher.WinnerOutranks` | internal/engine/matcher/matcher.go:57-71 | The winner's score is no less than any matched policy's; with equal scores its priority is not; with equal priorities its id is not |
| `Matcher.ScoreCounts` | internal/engine/matcher/matcher.go:93-103 | The score is ten times the number of fields the scope names plus the number of its tags |
| `Matcher.MatchesScopeIff` | internal/engine/matcher/matcher.go:75-90 | A scope matches exactly the requests that have its value in every field it names and in every tag |
| `Matcher.MatchingExact` | internal/engine/matcher/matcher.go:27-35 | Matching keeps a policy exactly if it matches, and keeps the order: it splits wherever the list does |
| `Matcher.SortedHead` | internal/engine/matcher/matcher.go:57-71 | The stable sort puts the policies in order and the winner first |
| `Matcher.SortedPermutes` | internal/engine/matcher/matcher.go:57-70 | The sort neither loses nor duplicates a policy |
| `Matcher.BestIsMaximal` | internal/engine/matcher/matcher.go:57-71 | No matched policy comes before the winner |
| `Matcher.BestIsFirst` | internal/engine/matcher/matcher.go:57-71 | Among equals the one that came first wins |
| `Matcher.BeforeOrder` | internal/engine/matcher/matcher.go:57-70 | The comparison is a strict order whose only ties are equal ids |
| `Matcher.KeyAgreement` | internal/engine/matcher/matcher.go:75-90 | All requests that match a policy build one and the same counter key |
| `Matcher.MatchTags` | internal/engine/matcher/matcher.go:79-83 | True exactly when every required tag has its value, a missing one counting as empty |
| `Matcher.Match` | internal/engine/matcher/matcher.go:27-50 | Returns exactly the matching policies, in input order |
| `Matcher.SpecificityScore` | internal/engine/matcher/matcher.go:93-103 | Ten per scoped field and one per tag |
| `Matcher.SelectWinner` | internal/engine/matcher/matcher.go:53-72 | Sorts the slice in place and returns the earliest maximum, which outranks every policy given, or nothing for no policies |
| `PolicyHistory.ReplayMatches` | internal/store/policy/file/store.go:74-131 | After any run from an empty file, replaying the audit log gives exactly the current policies, every entry's old value is what the log before it gives, and versions are numbered 1 to n, the last being the current policy |
| `PolicyHistory.HistoryAppendOnly` | internal/store/policy/file/store.go:74-131 | No operation rewrites or drops an audit entry or a version |
| `PolicyHistory.ListedAuditsReplay` | internal/store/policy/file/store.go:145-159 | The entries listed for one policy are enough to reconstruct it |
| `PolicyHistory.RollbackTwice` | internal/adapter/http/controlplane.go:344-360 | Two rollbacks without a version restore the policy list, for every existing policy |
| `PolicyHistory.RollbackAfterDelete` | internal/adapter/http/controlplane.go:479-495 | A deleted policy comes back as the version before its last, and as its last only on a second rollback |
| `PolicyHistory.RollbackRestores` | internal/adapter/http/controlplane.go:326-372 | A rollback makes the requested version current, or the one before the last, deleted or not, as a new version, and changes no other policy; without such a version it changes nothing |
| `PolicyHistory.ActionsMatch` | internal/store/policy/file/store.go:74-131 | Over every run an entry tells of a deletion exactly when it has no new value, and its new value carries its id |
| `PolicyHistory.OneEntryEach` | internal/store/policy/file/store.go:74-131 | Each upsert, deletion and successful rollback leaves one entry, about its own policy |
| `PolicyHistory.StepKeeps` | internal/store/policy/file/store.go:74-131 | Each operation keeps log, versions and policies consistent |
| `PolicyHistory.UpsertLookup` | internal/store/policy/file/store.go:74-107 | An upsert changes the lookup of its own id and of no other |
| `PolicyHistory.DeleteLookup` | internal/store/policy/file/store.go:110-131 | A delete makes its own id unknown, changes no other, and the policy it logs is the one that was current |
| `PolicyHistory.FileStore.GetPolicyById` | internal/store/policy/file/store.go:56-71 | Finds the first policy with the id, or none |
| `PolicyHistory.FileStore.UpsertPolicy` | internal/store/policy/file/store.go:74-107 | Implements the upsert step: policy list, audit entry and next version together |
| `PolicyHistory.FileStore.DeletePolicy` | internal/store/policy/file/store.go:110-131 | Implements the delete step |
| `PolicyHistory.FileStore.ListPolicyAudit` | internal/store/policy/file/store.go:145-159 | Lists the policy's entries in order |
| `PolicyHistory.FileStore.RollbackPolicy` | internal/adapter/http/controlplane.go:326-372 | Upserts the selected snapshot under the policy's id, or reports that there is none |
| `PolicyHistory.SelectVersionForRollback` | internal/adapter/http/controlplane.go:479-495 | Finds the requested version, else the one before the last, else none |

## Left out

- ChargedBound: sequential evaluations; overlapping ones are in `OverlappingBound`.
- OverlappingBound: interleavings in which every successful swap has read the last charge's timestamp, and none later than its own clock; `NewKeyUnbounded`, `IdleKeyUnbounded`, `EqualLevelBreaksBound` and `ClockBackBreaksBound` break the bound without it. No key expiry.
- BucketCas.RunKeeps: the bucket machine's invariant, for those interleavings.
- ErrorBound: interleavings without late swaps; `LateSwapBreaksBound` shows why. Months are in `MonthBoundIff`.
- IntervalBound: evaluations that finish within one ttl of their window's start, and windows that are not months.
- LogRefinesHistory: stamps in lock order; `StaleStampBreaksBound` and `EarlySweepBreaksBound` show why.
- CasSafety: evaluations that finish within one ttl of their window's start; `LateSwapOvercharges` and `LongMonthOvercharges` show why.
- ResetIsNextWindow: windows that are not months; a monthly reset time is 30 days after the month's start, as the code has it.
- TokenConfig: what the token bucket does with a rate that is not a finite number.
- StartConcurrencyLease: the concurrency branch only; choosing the policy and the failure modes are not modelled.
- RollbackPolicy: reading the versions and upserting are one step; the source does them in two.
- OrderIndependent: region names are distinct; the source's sort is not stable for equal names.
- Time zones other than UTC, and with them days that are not 24 hours long.
- 64-bit overflow of counters, products and durations, and the rounding of float64 beyond the half-thousandths it is asked for.
- Errors returned by a store, the three tries at writing a bucket timestamp, and fail-open and fail-closed handling.
- The rewriting of an over-limit decision by the policy's action, and shadow mode outside leases: they relabel a decision and change no state.
- The concurrency evaluator behind `/check`, which takes a slot and leaves it to expire.
- The sliding log's fallback over separate trim, count and add calls, and the store's `AddTimestamp`, `CountAfter` and `TrimBefore`.
- The Redis, PostgreSQL and Oracle stores; of Redis only the circuit breaker is modelled, with each method atomic.
- Policy filtering by validity period, rollout percentage and enablement, and the parsing of match expressions, which are an arbitrary predicate here.
- Audit ids, timestamps and JSON encoding of the policy file; the file is taken to hold the payload.
- `RegionalOverflow`, `HealthStatus`, HTTP and gRPC adapters, authentication, metrics, analytics and invalidation messages: plain relays or reports.
