# Verified model of the trading engine's guarding components

The engine admits, counts and accounts for orders with a handful of small stateful
components. This project models each of them as a class (or, where the original is
an expression, as functions) and proves what they guarantee over whole runs. `dafny
verify dfyconfig.toml` checks everything.

| file | component |
|---|---|
| `TokenBuckets.dfy`, `RateLimiter.dfy` | the token bucket and the two-level rate limiter with refund |
| `Lru.dfy`, `IdempotencyStore.dfy` | the idempotency store: LRU list, its map/deque/counter form, its log |
| `MapSums.dfy`, `Portfolio.dfy` | the average-cost ledger, equity, peak, metrics |
| `RiskEngine.dfy` | the ten pre-trade checks and the engine that runs them |
| `StoreRuns.dfy`, `UntidyDeques.dfy`, `Residency.dfy` | how long the store holds a key, on consistent fields and on others |
| `CircuitBreaker.dfy`, `ExecutionTrace.dfy`, `StoreTrace.dfy`, `ReopenedStore.dfy`, `ExecutionManager.dfy` | the breaker, what a trace of the execution loop implies for breaker, limiter and store, a trace that goes wrong, the loop itself |
| `Strategy.dfy` | signal hysteresis with cooldowns and gate, and the plain filter |
| `OrderStateMachine.dfy`, `OrderTracker.dfy` | the life of an order, and the tracker that mirrors it |
| `RollingWindow.dfy` | the ring buffer and the relative strength index |
| `Text.dfy`, `Journal.dfy` | lines, fields and numerals; the journal's printer, parser and replay |
| `DropOldestQueue.dfy` | the bounded queue that drops its oldest message |
| `Numbers.dfy` | shared arithmetic |

How things are modelled:

- Floating point is `real`. Clocks are arguments: every reading the code takes is a
  parameter of its own, and readings do not go back. Machine integers are unbounded.
- Each guarded method runs under one lock in the original and is one atomic method here.
- A class whose promise is about its past carries that past in a ghost field (what was
  admitted, marked, filled, sent). Its `Valid()` says that the real fields are where
  that history leads, and its methods say how the history grows. Theorems about every
  run are then lemmas about histories.
- Text is counted in characters, each standing for one byte.
- What lies outside is a parameter: broker replies, log contents, consumer steps.
- Token counts, rates, deadbands, and the price and quantity of an approved trade are
  taken non-negative where a theorem needs it; a negative count would mint tokens.

Where the code does not keep what one would expect, the exact condition is proved:

- The ledger equals the cash account only up to the costs of fills that cross through
  zero and of positions that count as flat without being empty (`Portfolio.LedgerExact`,
  `Portfolio.CrossingIsInexact`, `Portfolio.DustIsInexact`).
- The position check ignores the side (`Risk.PositionCheckSoundForSells`, `Risk.SellPastTheLimit`).
- A gated entry has already moved the signal machine, so its exit comes out alone
  (`Strategy.EntriesAreAnswered`, `Strategy.ExitWithoutEntry`).
- Loading a log counts the bytes of overwritten lines, for as long as the store lives
  (`Idempotency.LoadedStaysOver`), and ranks keys by their first line
  (`Idempotency.LoadedRanksByFirstLine`); an oversized mark empties the store
  (`Lru.OversizedMarkEmptiesStore`).
- A store reopened on its own log can lose an intent that was just submitted, and the loop
  submits it again (`ReopenedStore.ReopenedStoreResubmits`); exactly the stores with a tidy
  deque, or room for one key, do not (`StoreTrace.AtMostOnceExactly`).
- A snapshot line is read with its data as timestamp (`Journal.SnapshotReadsBackOnlyAsNumeral`).
- Writing a status past the state machine (`Tracking.OrderTracker.UpdateStatus`).

## Model

| member | source | states |
|---|---|---|
| `TokenBuckets.LevelDecidesWindows` | crates/execution/src/rate_limiter.rs:23-38 | For every log of admissions in time order and every count: the lazily refilled counter covers the count if and only if every window that ends now, from whatever earlier instant, holds no more than burst + rate × length together with the count. |
| `TokenBuckets.LevelAdvances` | crates/execution/src/rate_limiter.rs:33-38 | Refilling in two steps leaves what refilling once leaves, so idle and refused calls have no effect on later decisions. |
| `TokenBuckets.LogExtends` | crates/execution/src/rate_limiter.rs:23-31 | Consuming takes exactly the amount off the level, and keeps a log legal exactly when the amount fitted. |
| `TokenBuckets.FitsInFigures` | crates/execution/src/rate_limiter.rs:33-38 | The window rule in figures: in every window that ends now, what came through beyond the burst, times 10^9, is at most the rate times the window's nanoseconds. |
| `TokenBuckets.NoWindowOverflows` | crates/execution/src/rate_limiter.rs:23-38 | Over a whole run, between any two instants, no more is let through than burst + rate × time between them. |
| `TokenBuckets.TokenBucket.constructor` | crates/execution/src/rate_limiter.rs:12-20 | A new bucket is full and has let nothing through. |
| `TokenBuckets.TokenBucket.Refill` | crates/execution/src/rate_limiter.rs:33-38 | The counter is again the level of everything let through, now at the new time. |
| `TokenBuckets.TokenBucket.TryConsume` | crates/execution/src/rate_limiter.rs:23-31 | Answers yes if and only if every window ending now has room; a yes is logged, a no leaves the log alone. |
| `TokenBuckets.TokenBucket.Refund` | crates/execution/src/rate_limiter.rs:82-83 | Giving back what was just taken restores the bucket as if the request had never been made. |
| `RateLimiting.RateLimiter.constructor` | crates/execution/src/rate_limiter.rs:64-70 | A new limiter has let nothing through. |
| `RateLimiting.RateLimiter.EntryOrInsert` | crates/execution/src/rate_limiter.rs:78-80 | A bucket made late agrees with one that had been full since the start: the symbol's share of the log is still empty. |
| `RateLimiting.RateLimiter.ConsumeForSymbol` | crates/execution/src/rate_limiter.rs:78-86 | The second level decides by the windows of its symbol alone and leaves every other symbol's bucket as it was. |
| `RateLimiting.RateLimiter.TryConsume` | crates/execution/src/rate_limiter.rs:73-90 | Admits if and only if the windows of both levels have room, where both are computed from the requests that passed both; late creation, refills and refunds change no decision. |
| `RateLimiting.RateLimiter.NoWindowOverflows` | crates/execution/src/rate_limiter.rs:57-90 | Over the life of the limiter neither level lets more through any window than its rate allows. |
| `Lru.BytesInFigures` | crates/core/src/idempotency.rs:13-18 | The bytes counted are the length of all keys and results, and 64 for each entry. |
| `Lru.KeepIsLongestFittingPrefix` | crates/core/src/idempotency.rs:111-131 | What survives making room is the longest prefix in recency order that fits both budgets: the shortest suffix is evicted. |
| `Lru.KeepDropsLast` | crates/core/src/idempotency.rs:120-130 | Popping the least recent entry of a list that does not fit does not change what is kept in the end. |
| `Lru.MarkKeepsInvariant` | crates/core/src/idempotency.rs:179-220 | After any mark keys are distinct and both caps hold (a store of capacity 0 holds one entry). |
| `Lru.AccessKeepsInvariant` | crates/core/src/idempotency.rs:148-177 | A hit moves its entry to the front, evicts nothing when capacity is at least 1, and keeps distinctness and caps. |
| `Lru.RunKeepsInvariant` | crates/core/src/idempotency.rs:148-220 | In every reachable state keys are distinct and both caps hold. |
| `Lru.OversizedMarkEmptiesStore` | crates/core/src/idempotency.rs:191-208 | A mark leaves its key in the store if and only if the entry is no larger than the byte cap; a larger one evicts everything and adds nothing. |
| `Lru.InclusionMark` | crates/core/src/idempotency.rs:179-220 | One mark keeps the smaller store included in the larger, and the byte cap unbinding in both. |
| `Lru.InclusionLookup` | crates/core/src/idempotency.rs:148-177 | One lookup, hit or miss in either store, keeps the smaller included in the larger. |
| `Lru.Inclusion` | crates/core/src/idempotency.rs:111-220 | On every common run in which the larger store's byte cap never binds, the smaller store is a subsequence of the larger in recency order; the smaller store's byte cap does not bind either. |
| `Lru.SmallerStoreIsIncluded` | crates/core/src/idempotency.rs:111-220 | The inclusion theorem for two stores that start empty. |
| `Lru.EvictedOnlyByOthers` | crates/core/src/idempotency.rs:111-220 | A key in the store leaves it only after `capacity` distinct other keys were marked or found. |
| `Lru.MissNeedsCapacityOthers` | crates/core/src/idempotency.rs:148-220 | Between a mark of a key and a later miss of it at least `capacity` distinct other keys were marked or found. |
| `Idempotency.EvictIsKeep` | crates/core/src/idempotency.rs:120-130 | The eviction loop on map, deque and counter yields the representation of the longest fitting prefix; the counter's saturating subtraction never saturates. |
| `Idempotency.DropRepresents` | crates/core/src/idempotency.rs:184-189 | Removing a key's entry, its place in the deque and its bytes represents the list without it. |
| `Idempotency.MoveRepresents` | crates/core/src/idempotency.rs:161-164 | Moving a key to the front of the deque represents the list with its entry first. |
| `Idempotency.ApplyRepresents` | crates/core/src/idempotency.rs:148-252 | On consistent fields every operation, as the code does it on map, deque and counter, does what the list specification does. |
| `Idempotency.RunRepresents` | crates/core/src/idempotency.rs:148-252 | The same over every run of marks and lookups: the three fields refine the list. |
| `Idempotency.LogLineReadsBack` | crates/core/src/idempotency.rs:78-88 | A logged line reads back as its key and result if and only if neither is empty, the key has no space and does not start with white space, and the result does not end with white space. |
| `Idempotency.LinesThatRead` | crates/core/src/idempotency.rs:78-88 | Any line reads as an item if and only if, trimmed, it is key, space and result with no space in the key. |
| `Idempotency.ReadWrittenLog` | crates/core/src/idempotency.rs:78-96 | Reading the whole log gives back every clean item, in the order it was appended. |
| `Idempotency.LogGrows` | crates/core/src/idempotency.rs:133-146 | Appending at the end of the file is what one more fitting mark adds to the log that is read from the front. |
| `Idempotency.LoadOvercounts` | crates/core/src/idempotency.rs:78-96 | Before eviction the counter is over by exactly the bytes of the lines that a later line for the same key replaced. |
| `Idempotency.EvictKeepsExcess` | crates/core/src/idempotency.rs:98-106 | Eviction never changes by how much the counter is over, whatever repeats the deque holds. |
| `Idempotency.LoadedCounter` | crates/core/src/idempotency.rs:75-107 | For every log content: the loaded counter exceeds the map's bytes by the overwritten bytes, so it is right if and only if no key was logged twice. |
| `Idempotency.ApplyOver` | crates/core/src/idempotency.rs:111-252 | From any fields whose keys all have a place in the deque, consistent or not, every operation keeps the counter's excess to the byte, and both caps on what is really held. |
| `Idempotency.LoadedStaysOver` | crates/core/src/idempotency.rs:64-252 | For every log content and every run after loading it: what is held keeps both caps, and the counter stays over by exactly the overwritten bytes. |
| `Idempotency.PoppedHolds` | crates/core/src/idempotency.rs:123-129 | Popping places off the deque loses exactly the keys that have any of those places. |
| `Idempotency.EvictPopsFewest` | crates/core/src/idempotency.rs:120-130 | Eviction pops the fewest places after which both budgets are met, or all. |
| `Idempotency.LoadedRanksByFirstLine` | crates/core/src/idempotency.rs:78-106 | After loading, a key that was logged repeatedly is ranked by its first line while it holds the result of its last: eviction loses exactly the keys that have a line among the oldest ones. |
| `Idempotency.NewestKeyLost` | crates/core/src/idempotency.rs:78-106 | A concrete log of three lines and capacity 1: the key logged last is lost, the other stays, and the counter is over by an entry. |
| `Idempotency.LoadedRepresents` | crates/core/src/idempotency.rs:75-107 | A log without repeated keys loads into a consistent store holding the longest prefix of its entries, newest first, that fits. |
| `Idempotency.LoadedAgrees` | crates/core/src/idempotency.rs:75-107 | The loaded fields represent that prefix if and only if no key was logged twice. |
| `Idempotency.MarkingIsOneEviction` | crates/core/src/idempotency.rs:179-220 | For marks with distinct keys that each fit, evicting at every mark keeps what a single eviction at the end keeps. |
| `Idempotency.ReloadRebuilds` | crates/core/src/idempotency.rs:64-107 | Loading the log of marks that each fit and read back yields the contents, recency order and byte count the marks led to, if and only if no key was marked twice. |
| `Idempotency.IdempotencyStore.ReopeningRebuilds` | crates/core/src/idempotency.rs:51-220 | Of the store itself: loading the file that a persistent store has written since it was new gives back its three fields, if and only if no key was marked twice. |
| `Idempotency.IdempotencyStore.CounterForGood` | crates/core/src/idempotency.rs:64-252 | In every reachable state of every store what is held keeps both caps, and the counter is right if and only if the log it was opened on repeats no key. |
| `Idempotency.IdempotencyStore.WithLimits` | crates/core/src/idempotency.rs:40-49 | A new store is empty and consistent. |
| `Idempotency.IdempotencyStore.NewWithPath` | crates/core/src/idempotency.rs:51-62 | Opening a store on a log yields the loaded fields, consistent if and only if no key repeats. |
| `Idempotency.IdempotencyStore.LoadFromDisk` | crates/core/src/idempotency.rs:64-107 | The line loop followed by one eviction computes the loaded fields for any content. |
| `Idempotency.IdempotencyStore.EvictUntilUnderCap` | crates/core/src/idempotency.rs:111-131 | The loop computes the eviction specified on the three fields, consistent or not. |
| `Idempotency.IdempotencyStore.IsProcessed` | crates/core/src/idempotency.rs:148-177 | On any store, consistent or not: answers whether the map has the key, extends the history by a lookup, and leaves fields and file where the history leads; a consistent store stays consistent and its key moves to the front. |
| `Idempotency.IdempotencyStore.GetResult` | crates/core/src/idempotency.rs:222-252 | On any store: answers the held result of the key, with the same effect on recency. |
| `Idempotency.IdempotencyStore.MarkProcessed` | crates/core/src/idempotency.rs:179-220 | On any store: extends the history by the mark, and fields and file are where it leads; the file gains a line exactly when the entry can fit; a consistent store holds what the list specification says. |
| `Idempotency.IdempotencyStore.Clear` | crates/core/src/idempotency.rs:274-287 | Empties contents, counter and log: whatever the store was, it is consistent again. |
| `MapSums.SumTakesAny` | crates/core/src/portfolio_manager.rs:147-150 | A sum over the positions does not depend on the order the map yields them in. |
| `MapSums.SumUpdate` | crates/core/src/portfolio_manager.rs:105-136 | Replacing one position changes a map-wide sum by the difference of the two values. |
| `Portfolio.FillCost` | crates/core/src/portfolio_manager.rs:105-133 | A fill moves the gap between booked value and cash account by exactly net after × (price − old average) if it crosses zero, plus net × average if it leaves dust, and by nothing else. |
| `Portfolio.StepCost` | crates/core/src/portfolio_manager.rs:105-144 | The same for every event and for the sum over all positions. |
| `Portfolio.RunDiscrepancy` | crates/core/src/portfolio_manager.rs:177-189 | In every reachable state equity is initial plus booked values, the peak is no lower, and the total gap is the sum of the costs of the run. |
| `Portfolio.PositionsFollowEvents` | crates/core/src/portfolio_manager.rs:105-144 | A symbol's net position is what was bought less what was sold, and its mark is the last price since its first fill. |
| `Portfolio.CashFollowsEvents` | crates/core/src/portfolio_manager.rs:124-129 | Total sold less total bought is the cash flow of the fills. |
| `Portfolio.LedgerExact` | crates/core/src/portfolio_manager.rs:105-189 | For every run of fills, prices and reconciled averages: equity = initial + cash flow + Σ net × mark + the costs of crossings, dust and reconciliation. |
| `Portfolio.NoCostInLots` | crates/core/src/portfolio_manager.rs:105-133 | If every fill is a whole number of lots of at least 0.0001 and none crosses zero, the costs are zero and the ledger is exact. |
| `Portfolio.CrossingIsInexact` | crates/core/src/portfolio_manager.rs:117-122 | A concrete run that crosses zero and is off by ten: exactness fails without the condition. |
| `Portfolio.DustIsInexact` | crates/core/src/portfolio_manager.rs:130-133 | A concrete run that sells all but 0.00005 of a unit and is off by what that cost. |
| `Portfolio.PeakIsHighest` | crates/core/src/portfolio_manager.rs:177-189 | The peak is at least every past equity and equals one of them. |
| `Portfolio.ExposuresFollowEvents` | crates/core/src/portfolio_manager.rs:146-175 | Over every run: both exposures start at 0, and each event moves them by the change of its symbol's holding at its mark, the gross exposure counting long and short alike. |
| `Portfolio.OneSymbolExposure` | crates/core/src/portfolio_manager.rs:146-175 | When only one symbol was ever filled, net exposure is what is held of it times its mark, and gross exposure the same without sign. |
| `Portfolio.MetricsAddUp` | crates/core/src/portfolio_manager.rs:146-175 | In every reachable state equity = initial + unrealized + realized, leverage × equity = gross exposure, drawdown × peak = (peak − equity) × 100, never negative and below 100 for positive equity. |
| `Portfolio.FillAtMark` | crates/core/src/portfolio_manager.rs:105-136 | A fill at the price its symbol is marked at moves equity by its crossing and dust costs and nothing else. |
| `Portfolio.PortfolioManager.constructor` | crates/core/src/portfolio_manager.rs:91-102 | A new manager stands at the empty history. |
| `Portfolio.PortfolioManager.Total` | crates/core/src/portfolio_manager.rs:147-150 | Adding up in any order gives the sum. |
| `Portfolio.PortfolioManager.RecalculateEquity` | crates/core/src/portfolio_manager.rs:177-189 | Equity and peak become those of the current positions. |
| `Portfolio.PortfolioManager.FillPosition` | crates/core/src/portfolio_manager.rs:111-133 | The field updates of the three branches compute the specified position. |
| `Portfolio.PortfolioManager.OnFill` | crates/core/src/portfolio_manager.rs:105-136 | The fields are where the history extended by this fill leads. |
| `Portfolio.PortfolioManager.UpdatePrice` | crates/core/src/portfolio_manager.rs:138-144 | The fields are where the history extended by this price leads. |
| `Portfolio.PortfolioManager.SetAvgEntryPrice` | crates/core/src/portfolio_manager.rs:208-214 | The fields are where the history extended by this reconciliation leads. |
| `Portfolio.PortfolioManager.GetMetrics` | crates/core/src/portfolio_manager.rs:146-175 | Returns the metrics of the current state. |
| `Portfolio.PortfolioManager.GetRiskSnapshot` | crates/core/src/portfolio_manager.rs:198-205 | Returns metrics and net positions of one and the same state. |
| `Risk.FillGrossExactly` | crates/core/src/portfolio_manager.rs:105-136 | A fill of either side at the mark changes gross exposure by the change of the position's size times the price, exactly. |
| `Risk.FillGross` | crates/risk/src/risk_checks.rs:227-234 | A fill of either side at the mark raises gross exposure by no more than the quantity × price the exposure check adds. |
| `Risk.ApprovedTradeKeepsLimits` | crates/risk/src/risk_checks.rs:212-256 | A trade within the four portfolio checks that fills at its price, without crossing or dust, leaves equity, peak and drawdown alone, and the resulting portfolio keeps the position, exposure, leverage and drawdown limits: any buy, and any sell whose quantity does not have the opposite sign of the position. |
| `Risk.DecisionInFigures` | crates/risk/src/risk_checks.rs:94-165 | For every decision, in the figures of request, snapshot and limits: it names the first of the ten checks that fails and is configured (by its name) to veto, or approves if there is none. |
| `Risk.ReasonInWords` | crates/risk/src/risk_checks.rs:167-282 | A rejection gives the reason of its check and no warnings; an approval has index 14 and no reason. |
| `Risk.WarningsInFigures` | crates/risk/src/risk_checks.rs:105-121 | The warnings of an approval are the texts of the checks that fail and are configured advisory, in order, in figures. |
| `Risk.ApprovalPassesPortfolioChecks` | crates/risk/src/risk_checks.rs:126-129 | An approval with those checks at Veto means that none of the four fired. |
| `Risk.ApprovedFillKeepsLimits` | crates/risk/src/risk_checks.rs:94-165 | The two together, from the decision to the ledger, for every reachable portfolio with positive equity and for either side. |
| `Risk.PositionCheckSoundForSells` | crates/risk/src/risk_checks.rs:212-221 | The position check ignores the side. Whatever the limit, a buy it lets through fills to a position within it; for sells this holds if and only if position × quantity × price is not negative. |
| `Risk.SellPastTheLimit` | crates/risk/src/risk_checks.rs:212-256 | After a sale of 100 at 10 from nothing, a request for 100 more passes all four portfolio checks, and selling it breaks the position limit. |
| `Risk.RiskEngine.constructor` | crates/risk/src/risk_checks.rs:74-84 | A new engine has approved nothing and counted no order. |
| `Risk.RiskEngine.CheckOrderRate` | crates/risk/src/risk_checks.rs:194-210 | Fires if and only if some window ending now has no room for one more order; otherwise counts the order. |
| `Risk.RiskEngine.Weigh` | crates/risk/src/risk_checks.rs:105-121 | A finding leads to a veto, a warning or nothing, as its severity says. |
| `Risk.RiskEngine.EngineChecks` | crates/risk/src/risk_checks.rs:122-125 | The first four checks, in order; an order-rate token is taken exactly when no earlier check vetoes and there is room. |
| `Risk.RiskEngine.PortfolioChecks` | crates/risk/src/risk_checks.rs:126-129 | The four portfolio checks on one snapshot, in order. |
| `Risk.RiskEngine.MarketChecks` | crates/risk/src/risk_checks.rs:133-156 | Volatility and spread, in order. |
| `Risk.RiskEngine.Remember` | crates/risk/src/risk_checks.rs:158 | An approved id joins the set; with repeats at Veto no id is approved twice in any run. |
| `Risk.RiskEngine.Check` | crates/risk/src/risk_checks.rs:94-165 | Approves if and only if no check with severity Veto fires; a rejection names the first one that does; warnings are the advisory findings in order; approvals are remembered, once each while repeats are vetoed. |
| `Risk.RiskEngine.OrdersRationed` | crates/risk/src/risk_checks.rs:194-210 | Whatever the engine has checked, in no window did more orders pass the rate check than one second's worth and the rate × length, in figures. |
| `Risk.RiskEngine.ApprovedOnce` | crates/risk/src/risk_checks.rs:158-182 | With repeats at Veto, or not configured, no id was ever approved twice. |
| `Breakers.CircuitBreaker.constructor` | crates/gateway/src/circuit_breaker.rs:26-37 | A new breaker is closed with no failures. |
| `Breakers.CircuitBreaker.RecordSuccess` | crates/gateway/src/circuit_breaker.rs:47-57 | Closes, sets the failures to 0, clears the flag and keeps the stamp. |
| `Breakers.CircuitBreaker.RecordFailure` | crates/gateway/src/circuit_breaker.rs:59-73 | Counts the failure; opens with the time stamped at the threshold or from half-open, and stays closed otherwise. |
| `Breakers.CircuitBreaker.Trip` | crates/gateway/src/circuit_breaker.rs:75-83 | Opens with a full count. |
| `Breakers.CircuitBreaker.CanExecute` | crates/gateway/src/circuit_breaker.rs:85-105 | Refuses exactly while open and less than (cooldown + 1) ms after the stamp; an admission turns open into half-open and nothing else changes. |
| `Breakers.CircuitBreaker.Reset` | crates/gateway/src/circuit_breaker.rs:107-112 | Closes, sets the failures to 0, clears the flag and keeps the stamp. |
| `ExecutionTrace.CooledDownMeansPeriod` | crates/gateway/src/circuit_breaker.rs:91-94 | A breaker has cooled down if and only if cooldown + 1 whole milliseconds have passed. |
| `ExecutionTrace.BreakerCounts` | crates/gateway/src/circuit_breaker.rs:47-105 | After every legal trace, successes included: the count is the number of failures since the last success, the breaker has left Closed if and only if that is at least the threshold (and at least 1), and it is stamped with the last of them. |
| `ExecutionTrace.RefusedExactly` | crates/gateway/src/circuit_breaker.rs:85-105 | Along every legal trace a decision is refused if and only if there were threshold failures since the last success and the last of them is less than (cooldown + 1) ms ago. |
| `ExecutionTrace.SuccessCloses` | crates/gateway/src/circuit_breaker.rs:47-57 | Whatever came before, a success leaves the breaker closed with no failures. |
| `ExecutionTrace.FailuresOnly` | crates/gateway/src/circuit_breaker.rs:59-105 | In every run against a broker that always fails: the count is the number of failures, the breaker leaves Closed at the threshold, and each later failure is a period after the one before. |
| `ExecutionTrace.OpensAtThreshold` | crates/gateway/src/circuit_breaker.rs:59-73 | In every such run the breaker is closed exactly while failures are fewer than the threshold, and opens at the threshold-th. |
| `ExecutionTrace.AttemptsAreSpaced` | crates/execution/src/execution_manager.rs:120-143 | After the first opening every attempt starts at least (cooldown + 1) ms after the previous failure, although half-open admits every call. |
| `ExecutionTrace.AttemptsAreBounded` | crates/execution/src/execution_manager.rs:120-143 | Attempts by any time t are at most threshold + (t − first opening) / ((cooldown + 1) ms). |
| `ExecutionTrace.LogsAreLegal` | crates/execution/src/execution_manager.rs:223-229 | Along every legal trace what each level of the limiter let through is in time order, and each of it fitted when it came. |
| `ExecutionTrace.CallsWereAdmitted` | crates/execution/src/execution_manager.rs:223-280 | In any window, decisions that reached the broker are among those both levels let through. |
| `ExecutionTrace.BrokerIsRationed` | crates/execution/src/execution_manager.rs:223-280 | Along every legal trace and in any window of the clock, no more decisions reach the broker than the global rate allows, and for one symbol no more than its own rate. |
| `ExecutionTrace.CallsAreCounted` | crates/execution/src/execution_manager.rs:223-280 | The calls that are rationed are the decisions of the trace that were submitted or failed, stamped within the window; for a symbol, those of that symbol. |
| `StoreTrace.IntentKeysDiffer` | crates/execution/src/execution_manager.rs:234 | Different intents have different store keys. |
| `StoreTrace.TraceUses` | crates/execution/src/execution_manager.rs:234-238 | Along a trace the keys used in the store are exactly those of submitted and duplicate intents. |
| `StoreRuns.MarkPops` | crates/core/src/idempotency.rs:179-220 | On any fields whose held keys have a place: marking a key that is not held pops a full deque down to the last place of a held key and no further, and loses the keys that have a place there. |
| `StoreRuns.RunUnderLarger` | crates/core/src/idempotency.rs:111-131 | A byte cap that does not bind during a run may as well be larger: eviction is by slots alone. |
| `UntidyDeques.Doomed` | crates/core/src/idempotency.rs:111-220 | A held key with a stale place behind which others have none is pushed out by new keys before they fill the slots the others leave. |
| `UntidyDeques.UntidyLapses` | crates/core/src/idempotency.rs:111-252 | Every deque that is not tidy has a run that loses a key after its mark before `capacity` other keys were used. |
| `Residency.RunTrails` | crates/core/src/idempotency.rs:111-252 | From tidy fields, over every run in which the byte cap does not bind, the three fields stay those of the list, apart from places of lost keys at the very back. |
| `Residency.RationsExactly` | crates/core/src/idempotency.rs:111-252 | For the fields of any store, however loaded and used: a marked key stays until `capacity` other keys were marked or found, over all such runs, if and only if the capacity is at most 1 or the deque is tidy (a held key has one place; places of keys not held are all at the back, and then the store is full). |
| `Residency.StoreIsReachable` | crates/core/src/idempotency.rs:51-107 | Every store that was opened and used through its operations has such fields. |
| `Residency.FreshLogIsTidy` | crates/core/src/idempotency.rs:64-107 | A log without repeated keys opens to a tidy store. |
| `Residency.TidyByLines` | crates/core/src/idempotency.rs:64-107 | The condition on the log, for every content: among the lines left after the oldest are evicted no surviving key has two, and lines of lost keys come first and fill the store; if nothing is evicted on loading, tidy means that no key was logged twice. |
| `StoreTrace.AtMostOncePerCapacity` | crates/execution/src/execution_manager.rs:212-300 | On any store that rations its keys, in every run with the byte cap not binding: between two successful submissions of one intent at least `capacity` distinct other intents were submitted or found in the store. |
| `StoreTrace.LapseResubmits` | crates/execution/src/execution_manager.rs:212-300 | Any run that loses a marked intent key too soon is a run of the loop that submits an intent again too soon. |
| `StoreTrace.AtMostOnceExactly` | crates/execution/src/execution_manager.rs:212-300 | For any store that holds intent keys, as the engine fills it: no run of the loop resubmits an intent too soon if and only if the capacity is at most 1 or the deque is tidy. |
| `ReopenedStore.ReopenedStoreResubmits` | crates/engine/src/engine.rs:663-666 | Concretely, at capacity 2: the loop submits 1, 2, 3, 1 and 4, each missed in the store; the store is reopened on the log it wrote; then 1, 5 and 1 again are all submitted. |
| `Execution.SettlingCall` | crates/execution/src/execution_manager.rs:171-206 | The call that settles is the first that does not fail transiently, or the last allowed. |
| `Execution.ExecutionManager.SubmitWithRetry` | crates/execution/src/execution_manager.rs:160-210 | The loop stops at the settling call, after at most maxRetries calls (one if that is 0) and exactly so many if all fail transiently, returns its reply, and has slept base × (2^(calls − 1) − 1) in all. |
| `Execution.ExecutionManager.Dispatch` | crates/execution/src/execution_manager.rs:231-336 | On any store, consistent or not: a key in it stops the decision; otherwise the broker's final reply decides between marking the key with a success, and a failure; the store and the breaker move as the outcome says. |
| `Execution.ExecutionManager.ExecuteDecision` | crates/execution/src/execution_manager.rs:212-336 | Invalid symbols stop first, then requests without room in the limiter's windows; only the rest reach the store and the broker. |
| `Execution.ExecutionManager.Handle` | crates/execution/src/execution_manager.rs:123-140 | Approval, kill switch and breaker stand before execution, in that order. |
| `Execution.ExecutionManager.Process` | crates/execution/src/execution_manager.rs:122-141 | Every turn of the loop extends the trace by one outcome and leaves limiter, breaker and store, whatever log the store was opened on, where the trace says. |
| `Execution.ExecutionManager.OutcomeInFigures` | crates/execution/src/execution_manager.rs:120-336 | Which outcome an arrival leads to: unapproved, stopped or invalid exactly if it is so; what the limiter was asked and the store was told; the reply that settled the submission, after transient ones only. |
| `Execution.ExecutionManager.RunLoop` | crates/execution/src/execution_manager.rs:120-152 | Decisions are taken in order until the kill switch stops the loop; the outcome at each place is the one its decision leads to, with its own symbol, readings and replies; the trace stays one that limiter, breaker and store allow, so the limiter stops just the decisions its windows have no room for; the rest are drained unexecuted. |
| `Execution.ExecutionManager.AtMostOnce` | crates/execution/src/execution_manager.rs:212-300 | Whatever the manager has done: if the store it was given was tidy or has room for one key, and the byte cap did not bind, the resubmission bound holds. The condition is exact (`StoreTrace.AtMostOnceExactly`). |
| `Execution.ExecutionManager.BrokerRationed` | crates/execution/src/execution_manager.rs:223-280 | Whatever the manager has done: in any window of the clock no more decisions reached the broker than either rate allows. |
| `Execution.ExecutionManager.AttemptsRationed` | crates/execution/src/execution_manager.rs:120-143 | While the broker has always failed, the breaker's bound on attempts holds of whatever the manager has done. |
| `Strategy.SignalInFigures` | crates/strategy/src/strategy_engine.rs:204-313 | A signal is raised if and only if the prediction is no staler than allowed, no less confident than the minimum, more than the cooldown its score calls for has passed since the stamp, and the score is past the threshold of the state: each of the four signals exactly. |
| `Strategy.StepInFigures` | crates/strategy/src/strategy_engine.rs:240-352 | An evaluation leaves the side of its signal and stamps entries and exits apart; a reset leaves no side, an update of the position moves the position, and nothing else changes. |
| `Strategy.StepPays` | crates/strategy/src/strategy_engine.rs:204-313 | One event keeps the account: exits so far × deadband, plus the way back from the entry threshold, are covered by the variation so far. |
| `Strategy.DeadbandBound` | crates/strategy/src/strategy_engine.rs:204-313 | For every sequence of scores, resets and position updates, exits emitted × deadband is at most the total variation of all scores fed in, filtered or not. |
| `Strategy.SignalsAlternate` | crates/strategy/src/strategy_engine.rs:240-313 | Without resets, signals alternate between an entry and the exit that undoes it, and the state is the side that is open. |
| `Strategy.NeverFlips` | crates/strategy/src/strategy_engine.rs:240-313 | No event takes the engine from one side to the other. |
| `Strategy.SignalIsCool` | crates/strategy/src/strategy_engine.rs:228-238 | A signal that passes the cooldown check comes more than its cooldown after the last of its kind, although exits may be judged by the entry cooldown. |
| `Strategy.CooldownsHold` | crates/strategy/src/strategy_engine.rs:228-313 | In every run entries are stamped more than the entry cooldown apart, and exits more than the shorter cooldown apart, resets included. |
| `Strategy.EntriesNeedTime` | crates/strategy/src/strategy_engine.rs:228-313 | Among entries that are a gap apart, the latest one in a window comes a gap after its start for each but the first. |
| `Strategy.EntriesRationed` | crates/strategy/src/strategy_engine.rs:228-313 | In every run and in every window of the clock, entries after the first each take up an entry cooldown of the window. |
| `Strategy.EntriesAreCounted` | crates/strategy/src/strategy_engine.rs:240-313 | The entries counted in a window are the signals that open a side and are stamped within it. |
| `Strategy.GateStopsOnlyEntries` | crates/strategy/src/strategy_engine.rs:204-339 | A signal is held back if and only if it is a Long at or above the long limit or a Short at or below the short one; every exit gets out; a gated entry has still moved the machine and been stamped. |
| `Strategy.EntriesAreAnswered` | crates/strategy/src/strategy_engine.rs:204-352 | In every run: entries returned plus entries gated = exits returned + resets of an open side + one if a side is open; so the gate is the only source of exits without an entry. |
| `Strategy.TallyCounts` | crates/strategy/src/strategy_engine.rs:204-352 | Entries returned, entries gated, resets of an open side and exits returned are the numbers of events, over the whole run, at which that happened. |
| `Strategy.ExitWithoutEntry` | crates/strategy/src/strategy_engine.rs:204-339 | Two concrete predictions: the entry is gated, the exit comes out, and nothing was ever held. |
| `Strategy.AgreesWithFilter` | crates/strategy/src/hysteresis.rs:14-45 | Engine and plain filter move alike on a score if and only if shorts are allowed or none is asked for. |
| `Strategy.OpenStep` | crates/strategy/src/hysteresis.rs:14-45 | One prediction fed to an engine that lets everything through moves it as the filter moves. |
| `Strategy.FilterIsOpenEngine` | crates/strategy/src/hysteresis.rs:14-45 | For every sequence of scores the filter stands where that engine stands, and its returns to neutral are the engine's exits. |
| `Strategy.FilterDeadbandBound` | crates/strategy/src/hysteresis.rs:14-45 | Returns of the filter × deadband are at most the total variation of the scores. |
| `Strategy.HysteresisFilter.Evaluate` | crates/strategy/src/hysteresis.rs:14-45 | Never goes from one side to the other, leaves a side only past the deadband, and moves as the engine's machine does under every configuration with these thresholds, this deadband and shorts allowed. |
| `Strategy.StrategyEngine.constructor` | crates/strategy/src/strategy_engine.rs:168-202 | A new engine stands at the empty history. |
| `Strategy.StrategyEngine.Evaluate` | crates/strategy/src/strategy_engine.rs:204-226 | Returns the emitted signal and leaves the fields where the history leads: a gated entry is lost but has changed the state; nothing comes out of a stale or unconfident prediction, nor past a position limit. |
| `Strategy.StrategyEngine.ApplyHysteresis` | crates/strategy/src/strategy_engine.rs:240-313 | Raises the signal of the state and stamps entries and exits apart. |
| `Strategy.StrategyEngine.UpdatePosition` | crates/strategy/src/strategy_engine.rs:341-344 | Changes the position only. |
| `Strategy.StrategyEngine.ResetHysteresis` | crates/strategy/src/strategy_engine.rs:350-352 | Changes the state only; the stamps stay. |
| `OrderMachine.LivesAreAccepted` | crates/execution/src/order_state_machine.rs:36-60 | Every prefix of a whole life is accepted. |
| `OrderMachine.AcceptedWordsComplete` | crates/execution/src/order_state_machine.rs:36-60 | Every accepted word can be completed to a whole life. |
| `OrderMachine.AcceptedIsLogged` | crates/execution/src/order_state_machine.rs:186-226 | A machine run on a sequence of events logs all of them, that is refuses none, if and only if their word is accepted; and its state is then the last target. |
| `OrderMachine.AcceptedIsPrefixOfLife` | crates/execution/src/order_state_machine.rs:36-60 | The accepted words are exactly the prefixes of Submit·PartialFill*·(FullFill or Cancel), Submit·Reject and Reject. |
| `OrderMachine.MachineTakesLives` | crates/execution/src/order_state_machine.rs:186-226 | So a machine takes a sequence of events without a refusal if and only if it is the beginning of a whole life. |
| `OrderMachine.LogIsChain` | crates/execution/src/order_state_machine.rs:186-226 | For every sequence of events, refused ones included: the log is a chain from Pending to the state with both counters as its length, its events are an accepted word, and Expired and Replaced are never reached. |
| `OrderMachine.TerminalIsFinal` | crates/execution/src/order_state_machine.rs:16-60 | A terminal machine refuses everything, and terminal is the opposite of active. |
| `OrderMachine.LogTellsState` | crates/execution/src/order_state_machine.rs:186-299 | Over every run the state is the one the last accepted event leads to, for each of the seven both ways, the quantity filled is the sum of the logged fills, and reason and time are those of the last event. |
| `OrderMachine.AverageIsVolumeWeighted` | crates/execution/src/order_state_machine.rs:276-299 | For non-negative fills the total is the sum of the logged quantities, and average × total is the sum of quantity × price. |
| `OrderMachine.AverageInFigures` | crates/execution/src/order_state_machine.rs:276-299 | After a fill, average × total is the old average × old total + quantity × price; when nothing is filled in all, the average is the price of a full fill, and 0 otherwise. |
| `OrderMachine.AverageWithinPrices` | crates/execution/src/order_state_machine.rs:276-299 | With a positive total the average lies within any bounds that all fill prices keep, so between the least and the greatest. |
| `OrderMachine.OrderStateMachine.constructor` | crates/execution/src/order_state_machine.rs:160-168 | A new machine is pending with an empty log. |
| `OrderMachine.OrderStateMachine.ApplyEvent` | crates/execution/src/order_state_machine.rs:186-226 | Accepts exactly the allowed transitions; a refused event changes nothing; no order ever expires or is replaced. |
| `OrderMachine.OrderStateMachine.UpdateMetadataForEvent` | crates/execution/src/order_state_machine.rs:276-299 | Updates total, average, reason and time as specified. |
| `Tracking.IndexGrows` | crates/execution/src/order_tracker.rs:65-71 | Adding an order keeps the index listing every symbol's orders once each in creation order if and only if its id is new. |
| `Tracking.ListedOnceEach` | crates/execution/src/order_tracker.rs:65-71 | A symbol's listing has no repeats and holds exactly the ids created for it. |
| `Tracking.ImageTellsLastEvent` | crates/execution/src/order_tracker.rs:120-134 | After every run of a machine the status shown is Filled, Cancelled, Submitted, partly filled or rejected if and only if the last accepted event was that one, with the sum of the logged fills, or the reason given. |
| `Tracking.TransitionShows` | crates/execution/src/order_tracker.rs:104-139 | What an accepted event makes an order show: status, quantity filled and reason, event by event. |
| `Tracking.FillInFigures` | crates/execution/src/order_tracker.rs:177-188 | A reported fill fills a working order for no more than its quantity, at its limit price or 0, and does nothing to any other. |
| `Tracking.OrderTracker.constructor` | crates/execution/src/order_tracker.rs:57-63 | A new tracker is empty and consistent. |
| `Tracking.OrderTracker.AddOrder` | crates/execution/src/order_tracker.rs:65-71 | Stores the order over any other of its id and appends the id to its symbol's list; a right index stays right if and only if the id is new. |
| `Tracking.OrderTracker.CreateOrder` | crates/execution/src/order_tracker.rs:73-102 | Adds a pending order and a machine of its own; all other orders and machines stay. |
| `Tracking.OrderTracker.TransitionOrder` | crates/execution/src/order_tracker.rs:104-139 | Unknown ids and refused events change no order; an accepted event makes status and filled quantity the image of the machine; nothing else changes. |
| `Tracking.OrderTracker.UpdateFill` | crates/execution/src/order_tracker.rs:177-188 | Applies the full or partial fill the report stands for to that order's machine, and touches no other order. |
| `Tracking.OrderTracker.UpdateStatus` | crates/execution/src/order_tracker.rs:170-174 | Bypasses the machine: the tracker stays consistent if and only if the status written is the one the machine shows. |
| `Tracking.OrderTracker.GetOrdersBySymbol` | crates/execution/src/order_tracker.rs:198-207 | Returns that symbol's orders, once each, in creation order. |
| `Tracking.OrderTracker.OpenOrdersCount` | crates/execution/src/order_tracker.rs:209-213 | Counts the machines that are submitted or partly filled. |
| `Text.DecimalReadsBack` | crates/core/src/journal.rs:401 | A printed number reads back as itself over the whole range of 64 bits. |
| `Text.ParsesNumerals` | crates/core/src/journal.rs:401 | A text parses to a number if and only if it is the number's numeral after any leading zeros and one plus sign or none, and fits 64 bits. |
| `Text.SplitNJoins` | crates/core/src/journal.rs:395 | The fields of a split, joined by the separator, are the text; only the last can hold separators. |
| `Text.LinesAre` | crates/core/src/journal.rs:188-201 | How a text falls into lines: at each newline, taking one carriage return along; the last line may lack its newline. |
| `Text.TrimCuts` | crates/core/src/idempotency.rs:79 | Trimming takes white characters off both ends, and all of them. |
| `Text.WhiteCharacters` | crates/core/src/idempotency.rs:79 | The white characters are the 25 of Unicode. |
| `Text.SplitNField` | crates/core/src/journal.rs:395 | The first field of a split is the text before the first separator, and the last keeps its separators. |
| `Journal.LinesThatParse` | crates/core/src/journal.rs:394-456 | Any line is read as an entry if and only if it is tag, subject, a numeral of the timestamp and data between separators, none in the first three; as a snapshot if and only if it is the tag, any field, and data that is itself such a numeral. |
| `Journal.MalformedLines` | crates/core/src/journal.rs:394-456 | Any line that is not read is refused for its first fault: too few fields, no timestamp, an unknown tag, or the wrong number of fields for its tag. |
| `Journal.LineReadsBack` | crates/core/src/journal.rs:394-489 | A printed entry other than a snapshot reads back if and only if its symbol or type has no separator; separators in data do no harm. |
| `Journal.SnapshotReadsBackOnlyAsNumeral` | crates/core/src/journal.rs:444-484 | A printed snapshot reads back if and only if its data is a numeral of its own timestamp without separators. |
| `Journal.ReplayRoundTrip` | crates/core/src/journal.rs:188-201 | Replaying the lines of any sequence of clean entries yields the same sequence. |
| `Journal.FileReadsBack` | crates/core/src/journal.rs:188-201 | An entry alone in a file reads back if and only if it is clean: the conditions of the round trip are exact. |
| `Journal.Replay` | crates/core/src/journal.rs:188-203 | The line loop hands on exactly the entries of the lines that are not blank and parse, and counts them. |
| `Windows.RollingWindow.constructor` | crates/feature/src/feature_engine.rs:142-149 | A new window is empty. |
| `Windows.RollingWindow.Push` | crates/feature/src/feature_engine.rs:151-157 | The buffer holds the last values of the longer history. |
| `Windows.RollingWindow.Values` | crates/feature/src/feature_engine.rs:159-168 | Returns the last min(n, capacity) pushed values in order. |
| `Windows.RollingWindow.Len` | crates/feature/src/feature_engine.rs:170-176 | Returns how many that is. |
| `Windows.RollingWindow.Last` | crates/feature/src/feature_engine.rs:182-190 | Returns the value pushed last. |
| `Windows.MeanOf` | crates/feature/src/feature_engine.rs:192-205 | Returns the mean of the values held, 0 for none. |
| `Windows.MeanInFigures` | crates/feature/src/feature_engine.rs:192-205 | The mean times the count is the sum, and sums add up over any split. |
| `Windows.GainsLessLosses` | crates/feature/src/feature_engine.rs:272-284 | For positive prices, gains less losses over the window telescope to the net price change across it. |
| `Windows.StrengthRange` | crates/feature/src/feature_engine.rs:286-293 | The index lies between 0 and 100. |
| `Windows.StrengthFromMeans` | crates/feature/src/feature_engine.rs:286-293 | The form computed from the two averages is 100 × gains / (gains + losses). |
| `Windows.RSIState.Record` | crates/feature/src/feature_engine.rs:272-284 | Gains and losses move in lockstep over the same changes. |
| `Windows.RSIState.Update` | crates/feature/src/feature_engine.rs:272-294 | Returns the index of the last changes, for any prices, between 0 and 100. |
| `DropOldest.KeptOrLost` | crates/core/src/channel_utils.rs:37-65 | Every message of a history is kept or lost, once. |
| `DropOldest.Queue.constructor` | crates/core/src/channel_utils.rs:37-42 | A new queue of any capacity is empty and has dropped nothing. |
| `DropOldest.Queue.TrySend` | crates/core/src/channel_utils.rs:43-45 | Appends unless full; a channel of capacity 0 delivers to a waiting consumer or refuses. |
| `DropOldest.Queue.TryRecv` | crates/core/src/channel_utils.rs:47-48 | Removes the oldest message, if any. |
| `DropOldest.Queue.Consume` | crates/core/src/channel_utils.rs:47-61 | However often the consumer asks, it is handed the front of the queue in order. |
| `DropOldest.Queue.Receive` | crates/core/src/channel_utils.rs:47-48 | A consumer step between sends keeps all invariants. |
| `DropOldest.Queue.EvictAndSend` | crates/core/src/channel_utils.rs:48-55 | After an eviction the second attempt is never refused, and the counter rises by one. |
| `DropOldest.Queue.TrySendDropOldest` | crates/core/src/channel_utils.rs:37-65 | With the consumer stepping in anywhere: the message is handed back if and only if the consumer emptied a full queue in the first gap, or, at capacity 0, none is waiting; the queue afterwards is determined; delivery stays first in, first out; the counter is the number of evictions; without any delivery the queue is the last `capacity` messages sent (capacity at least 1). |
| `DropOldest.Queue.AllAccountedFor` | crates/core/src/channel_utils.rs:37-65 | Every message sent is exactly one of delivered, queued, evicted or handed back. |

## Left out

- Changing rates, thresholds or cooldowns mid-run: these move the baselines the window theorems are about.
- Reading helpers of the buckets (percentages, near-limit flags): easy.
- Failures of the file system.
- Orders put into the tracker by `add_order` alone, which have no machine: the other tracker operations are modelled for trackers in which every order has one.
- Overflow of `base << attempt` in the retry delay, and of the other 64-bit counters: integers are unbounded here.
- The callbacks `on_fill`, `on_reject` and `on_cancel` of the execution manager: they touch the breaker from outside the loop; fills are booked there as buys whatever the side of the order was.
- The side of an order, lifecycle messages and journal entries written by the execution loop: they do not feed back into its decisions.
- The rules of the symbol validator other than length: the keys the loop makes are decimal numerals, which pass the rest.
- The figures inside the volatility and spread messages, and request and trace ids of a decision.
- `open_orders` and `flat_threshold` of the portfolio: nothing reads them.
- Journal files beyond one, compaction, and the writer thread: replay is modelled for the content of one file.
- Confidence, urgency and size fields of a trade intent: constants. An intent is its signal.
- Averages and ranges of the feature engine (EMA, ATR, standard deviation): no run property of theirs was taken up.
- The sending policies other than drop-oldest, and disconnected channels; the drop-oldest policy of `send_with_policy` is the same sequence of steps as `try_send_drop_oldest`.
- Metrics, heartbeats, tracing, HTTP, configuration watching, thread pinning and recovery after a crash.
