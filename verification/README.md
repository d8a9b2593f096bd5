# Verified model of the trading bot's decision and send logic

This project models the parts of the bot that carry an algorithm or a protocol, and proves what they
keep over every input and every run. One module stands for one source file or one concern of it.

| module | models |
|---|---|
| `UniV2Math`, `UniV2Quote` | constant-product arithmetic with exact floors, multi-hop quotes on a reserve snapshot, the route string |
| `UniV3Path` | the packed path encoding |
| `TokenGraphs`, `TriCycles` | the token graph and the enumeration of directed triangles |
| `SampleWindows`, `RuntimeInvariant` | the two bounded sample deques and the health rules that read them |
| `OrderflowTrace`, `OrderflowRun` | the posts of a submission, and which of its attempts may post |
| `FailureRows` | how failed posts close the gate for later ones |
| `BundleShape`, `FallbackRun` | the order and the turn of a submission's posts, and what a success has sent |
| `PrivateOrderflow` | the gated private send path itself |
| `RouteOrder`, `RelayRouting` | relay order, retries and circuit breakers of the router |
| `RpcReliability`, `FeeEscalation` | the rpc circuit breaker with its retrying caller, and fee selection |
| `SwitchControl`, `RuntimeMonitor` | chain switching by interleaved tasks, and one tick of the monitor |
| `UserRateLimits` | the per-user sliding-window limiter |
| `Sizing`, `Orchestration` | coarse-then-refine sizing through a stateful scorer, and the opportunity funnel |

`BotStates`, `Numbers` and `SortedSets` hold shared vocabulary.

Objects whose methods update fields are classes here, and loops are loops; each such method is proved
against functions of its inputs or of a ghost history. Network answers, operator files, quotes and
clock readings are parameters that may take any value, except that the readings of one clock do not
decrease. A ghost history (posts, samples, records, grants, callbacks) says what happened, and the
real fields are proved to be functions of it.

Where the code does not do what one would expect of it, the model keeps the code, and the exact
condition is proved:

- splitting a trade is harmless for every trade exactly when the input reserve is positive or the
  output reserve is at most one (`UniV2Math.SplitSafeIff`);
- the route string of a quote is read back exactly when no token contains the separator
  (`UniV2Quote.RouteRecoveredIff`), and an encoded path exactly when there is one token more than
  fees (`UniV3Path.DecodeRecoversIff`);
- no post can get past the execution guard exactly when it is enabled and either execution is disabled
  or READY is not an allowed state, because the gate in front of it has just set the state to READY; its
  default allowed states are such a case (`OrderflowTrace.GuardStopsAllIff`);
- every successful bundle submission has sent every transaction exactly when the bundle has a single
  one or there is no public fallback, whatever the endpoints, the limits and the histories are
  (`FallbackRun.SuccessSendsAllIff` over runs, and
  `PrivateOrderflow.PrivateOrderflowManager.FallbackDropsTheRest` for the failing calls);
- `find_tri_cycles` returns one cycle even for a cap of zero or less (`TriCycles.FindTriCycles`);
- the limiter raises on every call exactly when its limit is not positive
  (`UserRateLimits.UserRateLimiter.Allow`);
- after a success another apply for the same target starts exactly when some waiting task takes the
  lock while the latest entry has brought along another effective chain (`SwitchControl.SecondApplyIff`);
- the ready hold survives a failed switch exactly when the failure came from the controller's own
  validation (`RuntimeMonitor.FailedSwitchShowsReadyIff`);
- a flashloan-wrapped transaction is recorded as not using a flashloan exactly when a step after the
  wrapper raised (`Orchestration.TryFlashloan`);
- the size in a plan is the size that was quoted exactly when the first round of the search with a
  top-scoring size has only one and no top-scoring size is larger (`Sizing.TrackedSizeIff`).

The number of failed posts in a row is bounded as long as no counted failure leaves the window or the
deque in between; successes may leave. That is a sufficient condition, and a run that exceeds the bound
when a failure leaves is given (`FailureRows.FailedRowBound`, `FailureRows.LostFailureBreaksBound`).

## Model

| member | source | states |
|---|---|---|
| UniV2Math.OutSpec | adapters/dex_packs/evm_univ2.py:69-78 | for positive amounts and a fee below 100% the output is the greatest integer that does not lower the product with 10,000 - fee taken off the input, and it is zero for everything else |
| UniV2Math.FeeNeverPays | adapters/dex_packs/evm_univ2.py:72-78 | a higher fee never pays more |
| UniV2Math.OutputBelowReserve | adapters/dex_packs/evm_univ2.py:69-78 | the output stays strictly below the output reserve whenever that is positive |
| UniV2Math.OutputMonotone | adapters/dex_packs/evm_univ2.py:69-78 | more input never gives less output |
| UniV2Math.ProductNeverFalls | adapters/dex_packs/evm_univ2.py:69-78 | a trade never lowers reserve_in * reserve_out |
| UniV2Math.HopRoundTrip | adapters/dex_packs/evm_univ2.py:69-78 | out and back on the same reserves returns at most what was put in |
| UniV2Math.SplitNeverPays | adapters/dex_packs/evm_univ2.py:69-78 | with a positive input reserve, selling x and then y on updated reserves totals at most selling x + y at once, floors exact |
| UniV2Math.SplitSafeIff | adapters/dex_packs/evm_univ2.py:69-71 | no split of any trade pays, for given reserves, if and only if reserve_in is positive or reserve_out is at most one |
| UniV2Math.SplittingNeverBeatsOneTrade | adapters/dex_packs/evm_univ2.py:69-78 | the same for any number of parts |
| UniV2Math.ProductOverRun | adapters/dex_packs/evm_univ2.py:69-78 | over any run of trades in both directions the product never falls |
| UniV2Math.NoRunDrainsThePool | adapters/dex_packs/evm_univ2.py:69-78 | no run of trades empties a side of a pool, nor takes from one side without adding to the other |
| UniV2Quote.HopsMirror | adapters/dex_packs/evm_univ2.py:143-159 | the two directions of a pair read the same two reserves, swapped |
| UniV2Quote.MinOutWithinQuote | adapters/dex_packs/evm_univ2.py:81-85 | for any slippage the minimum output is the quote less the tolerance, rounded down but at least one for a positive quote; the whole quote for no tolerance, one unit from 100% on, zero for no quote |
| UniV2Quote.QuoteAlong | adapters/dex_packs/evm_univ2.py:161-185 | hop after hop: each takes the amount of the one before, on the reserves in the order the pair names its tokens; the outputs, the impact of each hop, their average, the slippage minimum, or the error of the first hop without a pair |
| UniV2Quote.QuoteIsHopByHop | adapters/dex_packs/evm_univ2.py:143-173 | the recursive quote is that sequence of hops |
| UniV2Quote.ImpactMeans | adapters/dex_packs/evm_univ2.py:157-158 | a hop's impact is its shortfall against the reserve ratio, or zero |
| UniV2Quote.ImpactsInRange | adapters/dex_packs/evm_univ2.py:157-180 | every hop's impact and the average lie between 0 and 10,000 basis points |
| UniV2Quote.QuoteMonotone | adapters/dex_packs/evm_univ2.py:169-173 | for any path length the quote is monotone in the input |
| UniV2Quote.PathRoundTrip | adapters/dex_packs/evm_univ2.py:169-173 | quoting a path and then its reverse on the same snapshot never returns more than was put in |
| UniV2Quote.SplitOfJoin | adapters/dex_packs/evm_univ2.py:182-207 | splitting the joined route recovers the path when no token contains the separator |
| UniV2Quote.RouteRecoveredIff | adapters/dex_packs/evm_univ2.py:182-207 | and only then, for every non-empty path |
| UniV3Path.EncodePath | adapters/dex_packs/evm_univ3.py:156-162 | the loop yields the packed encoding, or the error of a missing token or a fee that does not fit three bytes |
| UniV3Path.EncodedIsPacked | adapters/dex_packs/evm_univ3.py:156-162 | the i-th address stands at byte 23 * i with its fee behind it, highest byte first, and the last address at the end |
| UniV3Path.DecodeOfEncode | adapters/dex_packs/evm_univ3.py:156-162 | a decoder of 23-byte strides undoes the encoding, for every path length |
| UniV3Path.EncodeOfDecode | adapters/dex_packs/evm_univ3.py:156-162 | and the encoding undoes the decoder |
| UniV3Path.DecodeRecoversIff | adapters/dex_packs/evm_univ3.py:152-162 | an encoded path is recovered if and only if it has one token more than fees, which `_path_cfg` checks |
| UniV3Path.EncodeInjective | adapters/dex_packs/evm_univ3.py:156-162 | different encodable paths have different encodings |
| UniV3Path.UncheckedPathsCollide | adapters/dex_packs/evm_univ3.py:156-162 | without the shape check two different paths encode alike |
| TokenGraphs.TokenGraph.AddEdge | bot/core/graph.py:21-44 | one edge gets the union of venues, the strictly ascending union of its sizes and the positive new ones, and the larger liquidity; all others stay; a blank end changes nothing |
| TokenGraphs.BuildTokenGraph | bot/core/graph.py:59-79 | an edge from a to b exactly if a row names the two, in this order or, if bidirectional, the other; with the enabled venues, exactly the positive sizes of those rows in ascending order, and their largest liquidity or zero |
| TokenGraphs.FactsReadOff | bot/core/graph.py:59-79 | what the facts of the rows describe is what can be read off the rows |
| TokenGraphs.GraphUnique | bot/core/graph.py:59-79 | a set of facts describes at most one graph |
| TokenGraphs.RowOrderIrrelevant | bot/core/graph.py:59-79 | row order and repetition do not matter |
| TokenGraphs.BidirectionalIsSymmetric | bot/core/graph.py:77-78 | with bidirectional rows each edge has its mirror with equal sizes, venues and liquidity |
| TriCycles.NormalizeIsCanonical | bot/core/graph.py:82-84 | normalising gives the rotation that starts with the smallest token |
| TriCycles.ScanLasts | bot/core/graph.py:102-113 | the innermost loop extends the sorted prefix of all eligible cycles, or stops with the cap reached |
| TriCycles.FindTriCycles | bot/core/graph.py:87-114 | the result is the first max_cycles directed triangles in strictly increasing lexicographic order, each written from its smallest token, for those whose smallest token has fewer than max_start_tokens smaller ones in the graph (a cap below one counts as one) |
| TriCycles.StartIff | bot/core/graph.py:52-56 | a token is a start exactly if it is the source or destination of an edge and fewer than max(1, max_start_tokens) such tokens are smaller |
| TriCycles.SmallerCapIsPrefix | bot/core/graph.py:87-114 | a smaller cap gives a prefix of the result of a larger one |
| TriCycles.NoDuplicateRotations | bot/core/graph.py:94-110 | no two listed cycles are rotations of each other |
| TriCycles.NothingMissed | bot/core/graph.py:87-114 | a search that neither cap stops finds a rotation of every directed triangle |
| TriCycles.BothOrientations | bot/core/graph.py:77-114 | on a bidirectional graph an uncapped search finds both orientations of each triangle |
| SampleWindows.WindowUnaffected | bot/core/invariants.py:79-122 | trimming and the length cap leave every rule's window as it is on the last 20,000 samples of the full history |
| SampleWindows.P99Rank | bot/core/invariants.py:85-87 | the percentile is a member of the window with at most 0.01 * (n - 1) + 0.5 samples above it |
| SampleWindows.P99Means | bot/core/invariants.py:83-87 | it is the sample at place k of the sorted window, k being 0.99 * (n - 1) rounded, halves to even |
| SampleWindows.RecentSelects | bot/core/invariants.py:80-93 | a window reads, in order, exactly those of the last 20,000 samples that are not older than its cutoff |
| SampleWindows.CountFailedMeans | bot/core/invariants.py:95 | the failures counted are the places that hold one |
| SampleWindows.DropOldDrops | bot/core/invariants.py:112-121 | trimming takes the front up to the first sample that is not too old |
| RuntimeInvariant.WidestMeans | bot/core/invariants.py:113 | nothing in a rule window or in the last ten minutes is ever too old |
| RuntimeInvariant.DecideMeans | bot/core/invariants.py:54-96 | kill switch, then trading, then drawdown, then the 99th percentile of the latencies in their window, then the share of failed results in theirs, give PANIC, PAUSED, PANIC, DEGRADED, DEGRADED, and nothing of these READY |
| RuntimeInvariant.RuntimeInvariants.Trim | bot/core/invariants.py:112-121 | both deques lose exactly what is older than the widest window |
| RuntimeInvariant.RuntimeInvariants.ObserveRpcLatencyMs | bot/core/invariants.py:34-37 | the history gains one clamped sample and the deque still stands for it |
| RuntimeInvariant.RuntimeInvariants.ObserveTxResult | bot/core/invariants.py:39-42 | the same for results |
| RuntimeInvariant.RuntimeInvariants.RpcP99Ms | bot/core/invariants.py:79-87 | the percentile read is that of the last 20,000 samples ever observed |
| RuntimeInvariant.RuntimeInvariants.TxFailureRate | bot/core/invariants.py:89-96 | the same for the failure rate |
| RuntimeInvariant.RuntimeInvariants.ErrorsLast10m | bot/core/invariants.py:98-101 | the same for the errors of ten minutes |
| RuntimeInvariant.RuntimeInvariants.Evaluate | bot/core/invariants.py:44-77 | the verdict is that of the rules on the full history, whatever was trimmed before |
| OrderflowTrace.AllowedMeans | bot/exec/orderflow.py:73-108 | a post that was allowed was in live mode with the operator trading, no kill switch, and drawdown, p99 and failure rate within limits at its gate |
| OrderflowTrace.GuardStopsAllIff | bot/exec/guard.py:22-36 | a guard lets no post at all through if and only if it is enabled and either execution is disabled or READY is not allowed |
| OrderflowRun.PostsExactlyIff | bot/exec/orderflow.py:579-616 | in every run an attempt posts if and only if the health rules, on the histories left by the posts before it, ask for READY at that attempt and the guard is open then |
| OrderflowRun.NoPostWhileStopped | bot/exec/orderflow.py:579-616 | an attempt at a moment with the kill switch on, the operator not trading or the guard blocking makes no post |
| OrderflowRun.StopIsFinal | bot/exec/orderflow.py:579-616 | a run makes no post from the first of such moments on, for as long as they last, and none at all if they last from the start |
| OrderflowRun.EveryAttemptPosts | bot/exec/orderflow.py:579-703 | with the guard open posts and attempts agree in number, but for one attempt that the operator gate stops |
| OrderflowRun.PostIsAttempt | bot/exec/orderflow.py:579-703 | and the i-th post is that of attempt i + 1 |
| FailureRows.WindowGrows | bot/exec/orderflow.py:685-703 | failed posts in a row reach a later gate as that many more failures in its window, among no more samples than before plus those, as long as no counted failure has left |
| FailureRows.BreaksMeans | bot/core/invariants.py:73-75 | k failures appended to the window make the health rule object if and only if f + k is above the threshold times s + f + k |
| FailureRows.PostAfterFailures | bot/exec/orderflow.py:579-703 | a post after a row of failures means that so many failures do not break the rule |
| FailureRows.FailedRowBound | bot/exec/orderflow.py:579-703 | a row of failed posts is at most k long when k more failures break the rule and no counted failure has left |
| FailureRows.OneFailureFromEmptyWindow | bot/exec/orderflow.py:579-703 | from an empty window and a limit below 100% the row has length one |
| FailureRows.FailuresInSubmission | bot/exec/orderflow.py:841-865 | all failed posts of a single-transaction submission are one row, so at most k of them when k more failures break the rule and none is lost |
| FailureRows.LostFailureBreaksBound | bot/exec/orderflow.py:579-703 | a run of two failed posts where one failure breaks the rule, because the first has left the window before the second gate |
| PrivateOrderflow.PrivateOrderflowManager.OperatorGate | bot/exec/orderflow.py:73-108 | the process-wide state becomes the verdict, and anything but READY blocks |
| PrivateOrderflow.PrivateOrderflowManager.TryEndpointOnce | bot/exec/orderflow.py:579-703 | a post is made exactly when the verdict is READY and the guard open; it leaves one result sample; what the caller hears is decided by the reply |
| PrivateOrderflow.PrivateOrderflowManager.SubmitPrivateTx | bot/exec/orderflow.py:825-872 | the n-th attempt posts if and only if its gate is READY on what the posts before it left and the guard is open at its own moment; only the last attempt can be stopped by the gate, and then the outcome says so; no post at all while the operator stops it; the n-th attempt goes to the endpoint of its place in the rounds, until one accepts; exact attempt count on failure; at most k posts fail when k more failures break the rule at the first gate and none is lost |
| PrivateOrderflow.PrivateOrderflowManager.SubmitPrivateBundle | bot/exec/orderflow.py:707-823 | the same for every attempt of a bundle: each endpoint of kind flashbots or builder once in configured order with the whole bundle (with the guard open, these are the first posts), then max(2, max_retries + 1) rounds over the endpoints of kind rpc in which a transaction is posted only after its predecessor was accepted in that round, then the fallback if it is on and has a url; until a round gets its first transaction through the number of each attempt fixes its stage; a success has sent everything if the bundle has one transaction or there is no fallback; at most builders + rounds * txs * rpcs + 1 attempts, and before giving up at least builders + rounds * rpcs and the fallback, exactly so if no round got its first transaction through |
| PrivateOrderflow.BuildersPicked | bot/exec/orderflow.py:739 | the builders of a bundle are exactly the endpoints of kind flashbots or builder, in configured order |
| PrivateOrderflow.RpcsPicked | bot/exec/orderflow.py:740 | the endpoints of its rounds are exactly those of kind rpc, in configured order |
| FallbackRun.BuildersComeFirst | bot/exec/orderflow.py:741-757 | with the guard open the k-th post goes to the k-th builder with the whole bundle, and later ones to none |
| PrivateOrderflow.PrivateOrderflowManager.Admit | bot/exec/orderflow.py:721-734 | the operator gate decides first, then a mode that is not live |
| PrivateOrderflow.PrivateOrderflowManager.SendRounds | bot/exec/orderflow.py:762-798 | success means that one final round has an accepted post for every raw transaction |
| PrivateOrderflow.PrivateOrderflowManager.TryPublic | bot/exec/orderflow.py:800-815 | at most one more post, to the public endpoint, with the first transaction only |
| PrivateOrderflow.PrivateOrderflowManager.FallbackDropsTheRest | bot/exec/orderflow.py:800-814 | for any endpoints, histories and bundle of two or more, if the guard is open only at the attempt that follows all private ones, the submission itself reports success after one post with the first transaction only |
| BundleShape.TurnsProduct | bot/exec/orderflow.py:765-769 | the attempt bounds are the products they stand for |
| BundleShape.AcceptedInOrder | bot/exec/orderflow.py:766-787 | within a round acceptances follow the order of the transactions |
| BundleShape.UnfinishedMeans | bot/exec/orderflow.py:766-793 | a submission that has not succeeded has completed no round |
| BundleShape.FinishedSendsAllIff | bot/exec/orderflow.py:800-814 | a finished submission has sent every transaction if and only if it was not the fallback on two or more |
| BundleShape.BuilderStep | bot/exec/orderflow.py:741-757 | an attempt at a builder finishes the submission or hands over to the next builder, in the next attempt |
| BundleShape.SendStep | bot/exec/orderflow.py:767-787 | an attempt at an rpc endpoint gets its transaction through or hands over to the next endpoint, in the next attempt |
| FallbackRun.SuccessSendsAllIff | bot/exec/orderflow.py:800-814 | from any limits, histories and clock, every run that succeeds has sent every transaction if and only if the bundle has a single one or there is no public fallback |
| FallbackRun.FallbackAlone | bot/exec/orderflow.py:800-814 | a run that fails to, for any such start, any endpoints and any bundle of two or more: the guard stops all private attempts and lets the public one through |
| FallbackRun.SomeLonelyEnv | bot/exec/orderflow.py:579-616 | the moments of such a run can follow any histories |
| RouteOrder.ComputeRouteSequence | bot/exec/orderflow.py:441-477 | for any rule outcomes the sequence is the configured order stably sorted by rank: CoW for an offchain solver, preferred CoW, preferred flashbots, relays no rule speaks of, then the avoided ones by the last rule against them |
| RouteOrder.RouteUnique | bot/exec/orderflow.py:441-477 | two such sequences are equal |
| RouteOrder.RankMeans | bot/exec/orderflow.py:452-470 | the rank of a relay in plain terms: which preference or which last avoiding rule gives it |
| RelayRouting.Circuit.Record | bot/exec/orderflow.py:220-227 | the count is the number of give-ups since the last success, and the opening time follows from it |
| RelayRouting.StreakMeans | bot/exec/orderflow.py:220-227 | the count is n exactly if the last n marks are give-ups and the one before, if any, is a success |
| RelayRouting.PrivateOrderflowRouter.RunRelay | bot/exec/orderflow.py:347-427 | one run of at most max_retries + 1 submissions that stops at the first success or non-retryable failure, one mark for the circuit, one latency and one result sample each |
| RelayRouting.PrivateOrderflowRouter.TryRelays | bot/exec/orderflow.py:340-427 | relays in sequence, none submitted to while its circuit is open at its turn, stop at the first success |
| RelayRouting.PrivateOrderflowRouter.RouteAndSubmit | bot/exec/orderflow.py:303-437 | the gates decide exactly and leave the verdict as the process-wide state; otherwise the turns follow the sequence, every circuit is told how its relay's turn ended and nothing else, both sample histories gain the samples of every submission in order, and failure means that all relays had a turn |
| RelayRouting.MarksOfTurn | bot/exec/orderflow.py:423-427 | a call marks each circuit that had a turn at most once |
| RelayRouting.ToldMeans | bot/exec/orderflow.py:376-427 | the circuit of a relay with submissions is told once how the last of them ended, and every other circuit nothing |
| RelayRouting.AfterRunMeans | bot/exec/orderflow.py:364-405 | each submission leaves one latency sample, not negative, and one result sample |
| RelayRouting.SubmissionBound | bot/exec/orderflow.py:347-427 | at most max_retries + 1 submissions for every relay that had a turn |
| RpcReliability.RpcCircuitBreaker.Record | bot/exec/engine.py:88-95 | the ring holds exactly the last window_size outcomes and the opening time is a function of all records |
| RpcReliability.OpenUntilMeans | bot/exec/engine.py:88-95 | a record opens the breaker from its time on exactly if it is a failure and, of at least min(10, window_size) latest outcomes, failures make up the threshold; else the opening time stays |
| RpcReliability.RatioNeverFallsOnFailure | bot/exec/engine.py:88-100 | a failure never lowers the ratio, full ring or not |
| RpcReliability.TripsAgain | bot/exec/engine.py:88-95 | after a trip every further failure with no success in between trips again |
| RpcReliability.OpenAfterFailures | bot/exec/engine.py:90-91 | and keeps the breaker open for open_seconds from the last of them |
| RpcReliability.RpcCaller.Call | bot/exec/engine.py:130-176 | no invocation when open on entry, at most retries + 1, and each further one only after a failure that left the breaker closed; each is recorded in order with its outcome and time, except a cancelled one |
| RpcReliability.RpcCaller.OneFailingProbe | bot/exec/engine.py:136-176 | a tripped breaker that has seen no success is probed by one invocation a call |
| FeeEscalation.CostMonotone | bot/exec/engine.py:54-55 | a higher gas price never costs less |
| FeeEscalation.ProfitableMeans | bot/exec/engine.py:54-66 | profitable means that gas, price and native value, none below zero, times 1e-9, and the margin are covered |
| FeeEscalation.FeeAtMeans | bot/exec/engine.py:67-73 | each escalation multiplies the fee by the factor or leaves it, whichever is higher |
| FeeEscalation.EscalationNeverHelps | bot/exec/engine.py:67-73 | escalating never makes an unprofitable trade profitable |
| FeeEscalation.ChooseFeeGwei | bot/exec/engine.py:58-74 | allowed if and only if the initial fee is within the cap and profitable, at step 0; else the least step above the cap, or not profitable if there is none |
| SwitchControl.InvStep | bot/core/switch_controller.py:33-59 | every step of any interleaving keeps: flag iff lock held, at most one callback in flight |
| SwitchControl.OneInFlight | bot/core/switch_controller.py:43-59 | a callback in flight is the last one started, by the lock's holder |
| SwitchControl.TrueMeansSwitched | bot/core/switch_controller.py:50-54 | True means that apply and validate of that target were the last callbacks and both succeeded |
| SwitchControl.EffectiveStep | bot/core/switch_controller.py:33-59 | the effective chain changes only by an entry or by the step that ends a won validation, to its target |
| SwitchControl.ErrorStep | bot/core/switch_controller.py:43-59 | the error is set exactly by a failure and cleared exactly by the next acquisition that applies |
| SwitchControl.LossIsRetried | bot/core/switch_controller.py:43-59 | after a failed or cancelled callback a waiting task that wants another chain than the effective one starts another apply |
| SwitchControl.EffectiveWithoutWin | bot/core/switch_controller.py:33-59 | over any run in which no switch succeeds the effective chain is that of the latest entry |
| SwitchControl.LossesAreRetried | bot/core/switch_controller.py:33-59 | so after any number of losses such a task applies once it has the lock |
| SwitchControl.EveryRun | bot/core/switch_controller.py:33-59 | over every run the invariant holds, and applies equal failures plus successes plus the one in flight |
| SwitchControl.OneApplyAfterFailures | bot/core/switch_controller.py:43-59 | tasks for one target that know of the first success start one apply per failure and one for the success |
| SwitchControl.SecondApplyIff | bot/core/switch_controller.py:34-47 | over every run from a settled controller on, another apply of the same target is started if and only if some waiting task takes the lock while the latest entry has said that another chain is effective |
| SwitchControl.StaleEntryAppliesTwice | bot/core/switch_controller.py:37-47 | a run in which that happens |
| SwitchControl.SwitchController.EnterReconcile | bot/core/switch_controller.py:33-41 | the segment up to the lock is the model's entering step, field by field |
| SwitchControl.SwitchController.EnterLock | bot/core/switch_controller.py:43-51 | the segment from the lock to the apply is the model's acquiring step, field by field |
| SwitchControl.SwitchController.AfterCallback | bot/core/switch_controller.py:51-59 | the segment after a callback, with its except and finally, is the model's ending step, field by field: only a won validation sets the effective chain, only a failure the error |
| RuntimeMonitor.HoldIff | bot/api/main.py:906-932 | a hold is set if and only if the last switch was applied and no check since saw the operator TRADING |
| RuntimeMonitor.ExceptionIff | bot/api/main.py:855-932 | a tick ends elsewhere than the rules ask exactly if its moves reached READY, the operator is not trading, the kill switch is off and the last switch was applied with no check since that saw TRADING; then it ends in READY for PAUSED |
| RuntimeMonitor.FailedSwitchShowsReadyIff | bot/api/main.py:855-932 | a failed switch shows READY if and only if it failed in the controller's validation |
| RuntimeMonitor.TickMeans | bot/api/main.py:855-932 | what a tick logs, the state its switch and its reload reach, and the state it ends in, in plain terms |
| RuntimeMonitor.AppState.TransitionState | bot/api/main.py:449-467 | state machine, process-wide state and paused flag agree afterwards |
| RuntimeMonitor.AppState.ApplyChainTargetOnce | bot/api/main.py:1153-1209 | the hold is the target exactly on success, with the machine in READY, else DEGRADED |
| RuntimeMonitor.AppState.ApplyChainReadyHold | bot/api/main.py:906-932 | the state returned and the hold left, in terms of the log |
| RuntimeMonitor.AppState.MonitorTick | bot/api/main.py:855-885 | a completed tick ends with machine, process-wide state and flag in the state of the rules or of the hold |
| UserRateLimits.AtMostLimit | ops/security.py:47-56 | spaced grants put at most `limit` in any window, also one that does not end at a call |
| UserRateLimits.NextGrant | ops/security.py:55-56 | a full window opens exactly one window after its oldest grant |
| UserRateLimits.UserRateLimiter.Allow | ops/security.py:47-56 | granted exactly when fewer than `limit` of all grants lie in (t - window, t]; a refusal means exactly `limit`; retry_after is exact; other users are untouched; a raise exactly for a non-positive limit |
| UserRateLimits.CountMeans | ops/security.py:47-56 | the count of a window is the number of grants in it, its lower end left out |
| UserRateLimits.UserRateLimiter.WindowsNeverOverfull | ops/security.py:41-56 | in every reachable state every window (T - w, T] holds at most `limit` grants of a user |
| Sizing.LargerPaysIff | core/sizing.py:14-18 | with equal quote fees a larger size is worth no less if and only if the edge covers the fees |
| Sizing.NetProfitMeans | core/sizing.py:14-18 | the profit is the edge on the positive amount less proportional fees, gas and quote fee, none of them below zero |
| Sizing.DedupeHas | core/sizing.py:28-30 | deduplication keeps exactly the positive values |
| Sizing.RefineSizesAround | core/sizing.py:49-56 | a non-empty ascending list of positive sizes |
| Sizing.RefinedAround | core/sizing.py:49-56 | they start at the lower end of the span, which is at most the best size, and stay within the span |
| Sizing.RefinedMeans | core/sizing.py:49-56 | exactly the grid from the rounded lower to the rounded upper end in steps of the rounded gap, with span at least 5%, three points and steps of one, halves rounded to even |
| Sizing.Scorer.ScoreSize | core/orchestrator.py:185-217 | the closure keeps the best score so far and the first size that had it |
| Sizing.PickBest | core/sizing.py:74-80 | the largest size with the highest score |
| Sizing.SearchBestSize | core/sizing.py:59-81 | two ascending rounds: the positive ones of base and spaced sizes, then the grid around the best of them; the result is the largest size with the highest score of all |
| Sizing.SearchMeans | core/sizing.py:59-81 | the same in plain terms, evaluated sizes included |
| Sizing.CoarseHas | core/sizing.py:68-73 | the first round has exactly the positive ones of the base sizes and the spaced ones |
| Sizing.EvaluatedSizes | core/sizing.py:68-81 | all positive base sizes are evaluated and only positive ones |
| Sizing.TrackedProfitIsBestScore | core/orchestrator.py:211-217 | the closure's last profit is the search's best score |
| Sizing.TrackedSizeIff | core/orchestrator.py:211-219 | the tracked size is at most the returned one, and equal if and only if some size is the only top-scoring one of the first round that has one, with no larger one in the other round |
| Sizing.FlatScores | core/orchestrator.py:211-219 | with equal scores the closure keeps the smallest coarse size and the search returns the largest of all |
| Orchestration.PushOrdered | core/orchestrator.py:113-117 | an enqueued item gets its place by priority and then time, whatever the clock said before |
| Orchestration.SizeUp | core/orchestrator.py:219-221 | sizing hands on the size that the search finds with a refinement of five sizes within 30%, and the first size of its score; no candidate beats it; or no candidate is routable |
| Orchestration.GateMeans | core/risk_gates.py:33-54 | each gate's condition, and which of them is the first to fail |
| Orchestration.LoanMeans | core/orchestrator.py:75-86 | a loan is wanted only with a provider, above the inventory, not below the minimum and for a fee less than the profit; the fee is proportional plus gas, neither below zero |
| Orchestration.ThresholdMeans | core/orchestrator.py:222 | below the threshold means below one of the two profit minima |
| Orchestration.TryFlashloan | core/orchestrator.py:233-265 | rejection for a profit after the fee below one of the minima, fee, profit and wrapping are decided exactly, with every exception path |
| Orchestration.OpportunityOrchestrator.Enqueue | core/orchestrator.py:113-118 | the queue gains one item and the funnel stays balanced |
| Orchestration.OpportunityOrchestrator.Pop | core/orchestrator.py:132-142 | no other queued item is ahead of the one popped |
| Orchestration.OpportunityOrchestrator.Process | core/orchestrator.py:150-359 | "ok" means that every gate passed, the simulation passed unless it is a dry run, and the profit, also after the flashloan fee, reaches both minima, for the size that the search finds; every rejection names the gate or the minimum that failed, and every escape its cause; the execution callback runs exactly for a plan that goes out in live mode, once, with the operator and mode of this call and the transaction built for the tracked size |
| Orchestration.OpportunityOrchestrator.PlanSized | core/orchestrator.py:223-359 | the same from the profit threshold on |
| Orchestration.OpportunityOrchestrator.Finish | core/orchestrator.py:267-359 | a plan goes out if and only if it is a dry run or its simulation passed; the callback gets exactly the simulated transaction |
| Orchestration.OpportunityOrchestrator.ProcessNext | core/orchestrator.py:144-148 | the decision, and the callback it may lead to, are about an item that no other is ahead of |
| Orchestration.OpportunityOrchestrator.ProcessDirect | core/orchestrator.py:150-359 | the same for a caller of `process` that bypasses the queue |
| Orchestration.OpportunityOrchestrator.FunnelConserved | core/orchestrator.py:105-148 | seen = queued + rejected + executed if and only if no more calls escaped than came from outside the queue |

## Left out

- HTTP, web3, Redis, Postgres, Discord, file access, metrics and log calls: their results are parameters.
- Real numbers stand for floats: rounding, infinities other than an unroutable score, and NaN are not modelled.
- Tokens, venues and relays are abstract values with the order or equality that the code uses; the text of reasons is reduced to its kind.
- The operator file is taken as already read: a state word in upper case without surrounding blanks, a kill switch and a mode.
- Configured lists (relay order) are taken to be free of duplicates, as they key the clients and circuits.
- Routing rules are taken as the booleans they evaluate to; the legacy `submit` path is not modelled.
- Backoff, jitter and sleeping: only the clock readings around them matter.
- Other tasks that send, or share a breaker or the sample deques, while one submission or call is awaited: each run is taken alone, between runs anything may happen to the clock and the network.
- `log_spaced_sizes` is any list of integers; its logarithms are not modelled.
- The heap is an ordered list; priorities and enqueue times are inputs.
- Orchestration.OpportunityOrchestrator.Enqueue: of two items with equal priority and time the one enqueued first comes first here; in the source their order is the heap's, and it raises if the heap has to compare the items themselves.
- The orchestrator's event deques are unbounded here and carry no times; `snapshot` is not modelled.
- `GraphEdge.metadata`, and sharing of one edge object between callers, are not modelled.
- SwitchControl.SwitchController.AfterCallback: callbacks are abstract, so the extra clearing of the flag by the real apply callback is not modelled, and neither are the start and finish times.
- RuntimeMonitor.AppState.MonitorTick: stated for completed ticks; an exception or cancellation inside a transition is not modelled, and the dex reload is reduced to its transitions.
- Contract addresses, checksums and calldata, chain registries and the table of allowed transitions.
