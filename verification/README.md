# Reward distribution, verified

A Dafny model of the parts of ANYToken-distribution whose correctness is hard to see: splitting reward budgets with
integer arithmetic, settling volume step by step, syncing the chain with concurrent workers and parsers, settling only on
confirmed blocks, finding a block by time, keeping the volume ledger, and sending and recording payouts.

Run `dafny verify dfyconfig.toml` in this directory. The modules, in order of dependence:

| file | what it models |
|---|---|
| `Wrappers.dfy`, `Words.dfy`, `Seqs.dfy`, `Steps.dfy` | missing values, 64-bit wrap-around, slices, equidistant starts |
| `Sums.dfy` | finite sums, the measure of all conservation laws |
| `Rewards.dfy` | `DivideRewards`: rounding down and handing out the remainder |
| `AccountStats.dfy` | `AccountStat` and the reward calculations that update it in place |
| `WeightedSplit.dfy` | conservation and fairness of the two rounding passes together |
| `SortedSlice.dfy` | `Less` and `ConvertToSortedSlice` |
| `VolumeLedger.dfy` | trade logs to keyed records, and windowed aggregation |
| `VolumeSteps.dfy` | step rewards of an exchange, and the steps without volume |
| `ByVolume.dfy` | the by-exchange volume path up to the redispatched rewards |
| `SyncRanges.dfy` | worker ranges, the worker's height loop, and chunk skipping |
| `ParserPipeline.dfy` | feeding goroutines, parsers, tasks and wait groups as a step system |
| `SyncRun.dfy` | a whole synchronisation: the workers' ranges put through the parsers, and the check after it |
| `Stability.dfy` | the configuration check, the endless worker beside its parsers, and the wait for a cycle's end |
| `Settlement.dfy` | settling only on complete data: the endless worker, its parser and the sync record together |
| `CycleSchedule.dfy` | which windows the runner settles |
| `TimestampSearch.dfy` | back-jumps and binary search over block times |
| `SendRun.dfy` | nonces, dust, output lines and totals of a payout run |
| `Dispatch.dfy` | dispatching the rewards of all exchanges, and the volume path up to what is sent |
| `RewardLines.dfy` | printing reward lines and reading them back |

## How the model relates to the code

Big integers are `int`; the `Div` and `Mod` used on them are Euclidean, as Dafny's are. Unset rewards are an `Option`.
Addresses and hashes are numbers (bytes compare as numbers do). `uint64` heights are unbounded naturals, except in
`CycleSchedule.CurCycleStart`, where the source's unsigned subtraction can wrap around and the model does too.
Methods follow the source's loops and are proved against specification functions, about which the lemmas then speak.
The outside world enters as parameters that the results hold for in all cases: chain heads and record queries are lists of
replies, a cursor is any permutation of the matching records, a limited query any reply its limit allows, the network a
function from attempts to replies, and the sort any permutation without inversions between neighbours.
The parser and the sync loop are interleaved step systems; a result about every run covers every interleaving.

## What turned out not to hold, and exactly when it does

- The by-exchange path sends out the adjusted budget, less the units of exchanges without traders, if and only if there is
  nothing to send, or the parts can be formed and every exchange with traders is assigned something
  (`VolumeConservesIff`). It fails in two ways. An exchange that is assigned nothing keeps its traders' step rewards,
  because of the early return at mongodb/types.go:92-94: `EmptyPoolPaysTwice` is an input for which twice the budget is
  sent. And when every exchange with traders has a cap of zero, no parts can be formed and nothing is sent, without an
  error (distributer/byvolume.go:51-54): `EmptyPoolsPayNothing`. Parts can be formed if and only if there is one exchange,
  or weights fit and some exchange with traders has a positive cap (`PartsFormIff`); an exchange is assigned something if
  and only if its share is worth a unit of the budget or stands among those that get the rounding remainder
  (`DividedPositiveIff`, `VolumePartSigns`).
- The confirmation guarantee holds in all runs if and only if the sync record found at the start is not too high for the
  head at the start (`AlwaysStableIff`). `--syncfrom` writes that record without looking at the head.
- On a chain longer than a cycle and the stable height, the first cycle lies on the grid from the configured start if and
  only if the head has passed the start by the stable height (`FirstCycleAlignedIff`). Until then the unsigned
  subtraction wraps, the first cycle begins before the configured start, just below the stable head, and cycles nobody
  configured are settled: with the start at 1000 and the head at 100, from 88 on (`FirstCycleBeforeStart`).
  `FirstCycleOnGridIff` is the condition for all machine integers.
- A quick-mode cycle settles all its windows if and only if the head at its start is not past the end of its first window
  (`CycleSettlesAllIff`). When the two confirmation depths exceed a volume cycle, the first window of every cycle that
  follows a settled one is passed over and never settled (`QuickModeDropsFirstWindow`).
- The volume history is independent of the order of writes if and only if no two records claim one key
  (`ConfluentIffFunctional`). After a fork, one transaction parsed in two blocks gives two records for one key
  (`ForkedTransaction`).
- No full reply to a chunk's query hides a missing height if and only if fewer stored blocks match than the chunk has
  heights, or all its heights are stored (`CountSkipIff`). Unique block numbers are enough (`UniqueCountsRight`); the index
  on them is not unique, and two stored blocks of one height can hide a gap (`ForkHidesGap`).
- Everything a worker parses is confirmed by a real chain head if and only if it has nothing to do, or must ask before
  its first range, or that first range, which ends its depth below its own end, lies below the head known before
  (`AlwaysConfirmedIff`). The workers of endless mode meet this (`DispatchedConfirmed`). With a configured end beyond the
  chain they do not: 971 heights are taken for confirmed before any head is reported (`EndTakenForHead`).
- `Less` is a strict total order when rewards are all set or all unset; otherwise it can run in a circle
  (`MixedRewardsCycle`). The callers never mix them (distributer/option.go:641, distributer/byliquidity.go:140,
  mongodb/api.go:449), so the circle is not reachable today.
- A fully sent file adds up to its total value if and only if no scaled reward is negative (`FileSendsTotalIff`). Scaling by
  -1, which the command accepts (cmd/distribute/sendrewards.go:81), sends nothing of a negative total (`NegativeScaling`).
- Nonces are used one by one, within a list and across the files of a run, if and only if no attempt sees a pending nonce
  ahead of the count the sender has at that attempt (`ListLeavesNoGap`, `RunLeavesNoGap`); a node that counts the sender's
  own pending transactions never reports one (`CountingNodeNeverAhead`).
- Every ended wait finds all blocks below the cycle's end completely parsed if and only if the sync record found at the
  start ends no wait beyond the first block, and no two blocks of one batch of the parser lie more than the distributer's
  depth apart (`AlwaysCompleteIff`). For a worker that follows the chain block by block this takes a depth of
  at least 999 (`FollowingCompleteIff`). The configuration check can leave a depth of 1, and then a cycle is settled while
  its last block is still being parsed (`SettledTooEarly`).
- The averaging branch at mongodb/types.go:183-188 never adds anything (`LeftoverBelowCount`), so the final check of the
  sum never fails.

## Model

| member | source | states |
|---|---|---|
| Rewards.DivideRewards | mongodb/types.go:165-204 | the loops, with the averaging branch and the check of the sum, compute the reference division; the check always succeeds |
| Rewards.LeftoverBelowCount | mongodb/types.go:180-193 | the remainder lies between 0 and the number of entries minus 1, for every sign of budget and shares |
| Rewards.DividedConserves | mongodb/types.go:165-204 | the parts add up to the budget exactly, for all integers with a positive sum of shares |
| Rewards.DividedUnique | mongodb/types.go:173-193 | any rounding that adds up to the budget and favours the front of the list is this division |
| Rewards.DividedFair | mongodb/types.go:174-193 | every part is less than a unit below and at most a unit above its ideal share |
| Rewards.DividedIdempotent | mongodb/types.go:165-193 | dividing again by the parts gives the same parts |
| Rewards.DividedOrdered | mongodb/types.go:174-193 | an earlier entry with at least the share of a later one gets at least its part |
| Rewards.DividedSigns | mongodb/types.go:174-193 | no negative parts; an empty share gets one unit exactly when it is among the first leftover entries |
| Rewards.DividedPositiveIff | mongodb/types.go:173-193 | a part is positive if and only if the share is worth a whole unit of the budget or stands among the first leftover entries |
| AccountStats.CalcRewards | mongodb/types.go:91-113 | the in-place update equals the specification, early returns and use of earlier rewards included |
| AccountStats.CalcRewardsInBatch | mongodb/types.go:127-138 | every slice is updated from its own part and no other, nothing on a count mismatch |
| AccountStats.CalcWeightedRewards | mongodb/types.go:141-162 | the in-place two-level update equals the specification, with its special cases for few slices and mismatched weights |
| AccountStats.SumWeightShares | mongodb/types.go:116-124 | the sum of weighted shares is the weight times the sum of shares |
| AccountStats.RewardedConserves | mongodb/types.go:91-113 | a slice is paid exactly the budget, unless there is nothing to pay or to divide by, and then keeps what it had |
| AccountStats.RewardedIdempotent | mongodb/types.go:91-113 | a second run with the same budget changes nothing, for all slices and budgets |
| AccountStats.OrderSurvivesRedispatch | mongodb/types.go:91-113 | non-increasing shares give non-increasing rewards in the first pass and in any redispatch |
| AccountStats.RewardedFair | mongodb/types.go:91-113 | a first dispatch is proportional to the shares, a later one to the rewards held before, within one unit |
| AccountStats.RewardedKeepsRest | mongodb/types.go:110-112 | accounts, shares and numbers stay as they are |
| WeightedSplit.WeightedSplitConserves | mongodb/types.go:127-162 | accounts together receive the budget, less exactly one unit for each slice without shares among the first leftover slices |
| WeightedSplit.WeightedSplitPaysAllIff | mongodb/types.go:127-162 | nothing is lost if and only if every one of those slices has shares |
| WeightedSplit.GroupSharesAre | mongodb/types.go:152-159 | each slice counts with its own configured weight times its shares, or with its shares when there are no weights |
| WeightedSplit.WeightedSplitFair | mongodb/types.go:91-162 | each account's final reward is within two units of the budget times its slice's configured weight, if any, times its share, over the weighted total |
| SortedSlice.ConvertToSortedSlice | mongodb/types.go:26-36 | walking the map in any order yields a sorted arrangement of exactly the entries with a positive share |
| SortedSlice.SortedMeans | mongodb/types.go:49-60 | larger shares, or rewards once they are set, come first; ties by the lower address |
| SortedSlice.SortedUnique | mongodb/types.go:49-60 | two sorted arrangements of the same statistics are equal |
| SortedSlice.SliceDetermined | mongodb/types.go:26-60 | the slice is determined by the map, whatever the iteration order |
| SortedSlice.MixedRewardsCycle | mongodb/types.go:49-60 | with mixed rewards the comparison can be circular |
| VolumeLedger.VolumeHistory.ParseReceipt | syncer/parsereceipt.go:39-80 | parsing writes exactly the records of the receipt's logs, in order, each under its own index, and none when only accounts are synced |
| VolumeLedger.VolumeHistory.AddVolumeHistory | mongodb/api.go:92-107 | an upsert replaces, an insert on a taken key changes nothing |
| VolumeLedger.RecordsAreLogs | syncer/parsereceipt.go:82-122 | a record is there if and only if the log at its index gives rise to it |
| VolumeLedger.RecordIs | syncer/parsereceipt.go:82-121 | which logs give a record, and what it holds, from the log and its transaction alone |
| VolumeLedger.RecordsAre | syncer/parsereceipt.go:39-121 | the same for all records of a receipt: successful, whole, lasting trade logs of watched exchanges with their type and amounts by topic |
| VolumeLedger.RecordsOrdered | syncer/parsereceipt.go:44-80 | records are written in the order of the logs, each once |
| VolumeLedger.RecordsAgreeWithDailyTotals | syncer/parsereceipt.go:189-223 | records and daily totals read coin and token amounts alike; no exchange is recorded as a trader |
| VolumeLedger.WritesConfluent | mongodb/api.go:92-107 | any order and repetition of the same writes leaves the same table, in both modes |
| VolumeLedger.ConfluentIffFunctional | mongodb/api.go:92-107 | order is irrelevant if and only if keys determine records |
| VolumeLedger.ForkedTransaction | syncer/parsereceipt.go:205-226 | one transaction parsed in two blocks, as after a fork, leaves a record that depends on the order of writes |
| VolumeLedger.ReparsingConfluent | syncer/parsereceipt.go:189-227 | tasks parsing one chain in any order, interleaving and repetition fill one and the same table |
| VolumeLedger.FindAccountVolumes | mongodb/api.go:408-454 | the cursor loop, updating statistics in place, yields the sorted slice of the per-account totals |
| VolumeLedger.CursorIs | mongodb/api.go:408-422 | the records of the exchange whose block number, or time in time mode, lies in the half-open window |
| VolumeLedger.VolumesAre | mongodb/api.go:427-448 | share and number are the sums over the account's records with coins, for everyone but exchanges and the zero address, and nobody else is listed |
| VolumeLedger.CursorOrderIrrelevant | mongodb/api.go:422-453 | the slice does not depend on the order of the cursor |
| VolumeLedger.WindowsTile | mongodb/api.go:408-420 | sums over consecutive half-open windows add up to the sum over the whole range |
| VolumeLedger.AccountWindowsTile | mongodb/api.go:408-448 | an account's reported share and number for the whole range are the sums of those reported for the windows |
| VolumeSteps.VolumeOption.UpdateNoVolumes | distributer/option.go:576-601 | the nested loops and flags equal the specification |
| VolumeSteps.MissingIsIntersection | distributer/option.go:576-601 | folded over the exchanges it is exactly the intersection, and the flag is set exactly when that is empty |
| VolumeSteps.LedgerReportsValidWindows | mongodb/api.go:422-453 | the ledger's report has distinct accounts, positive shares, no rewards, in non-increasing order |
| VolumeSteps.MergedConserves | distributer/option.go:624-638 | merging a statistic adds its reward to the total and keeps one positive entry per account |
| VolumeSteps.StepTotalsConserve | distributer/option.go:604-640 | merged rewards add up to the step reward times the number of steps with volume |
| VolumeSteps.MergedStepsHold | distributer/option.go:624-639 | each account's merged share, number and reward are the sums over the steps that reward it |
| VolumeSteps.VolumeOption.GetAccountsAndRewardsFromDB | distributer/option.go:604-669 | the loop over the steps, rewarding and merging statistics in place, yields the sorted merge of the rewarded windows and contributes its empty steps |
| VolumeSteps.MergeStep | distributer/option.go:624-639 | merging one step's statistics into the running ones, in place, equals the specification |
| VolumeSteps.VolumeOption.ExchangeSliceUniform | distributer/option.go:604-645 | a redispatch never meets an unset reward |
| VolumeSteps.VolumeOption.ExchangeSliceConserves | distributer/option.go:604-645 | each account once, positive rewards, adding up to the step reward times the steps with volume |
| VolumeSteps.VolumeOption.ExchangeSliceIs | distributer/option.go:604-645 | an exchange lists exactly the accounts some step rewards, each once, with reward, share and number summed over those steps |
| VolumeSteps.VolumeOption.WindowsAre | distributer/option.go:617-618 | the windows of the steps, as consecutive half-open ranges from the first height on |
| VolumeSteps.VolumeOption.SingleSliceIs | distributer/option.go:606-608 | without steps, the traders of the whole range share the budget |
| VolumeSteps.VolumeOption.GetAccountsAndRewards | distributer/option.go:556-573 | all exchanges collected, from the store or from files, or none when a file cannot be read; and the number of steps without volume on any stored exchange |
| VolumeSteps.NoVolumesAreIdleSteps | distributer/option.go:571-601 | that number is the number of steps in which no exchange has a trader |
| VolumeSteps.AdjustedBudget | distributer/byvolume.go:35-43 | with one step reward of budget per step, what remains is one per busy step and never negative |
| ByVolume.ExchangeShareIsCapped | distributer/byvolume.go:115-141 | a share reaches its weighted volume or its weighted cap and exceeds neither; with volume it is zero if and only if the cap is |
| ByVolume.CapIs | distributer/byvolume.go:122-127 | the balance, scaled by settled length over cycle length and rounded down when they differ |
| ByVolume.AdjustedIs | distributer/byvolume.go:35-40 | one step reward less for each idle step, when there are step rewards |
| ByVolume.DivideVolumeRewardsByExchange | distributer/byvolume.go:89-148 | the parts of the exchanges, with the special cases for one exchange and mismatched weights |
| ByVolume.DispatchVolume | distributer/byvolume.go:35-56 | what is dispatched, in place, is the specified redispatch of the adjusted budget; nothing is dispatched and nothing changes without budget or parts |
| ByVolume.VolumePartSigns | distributer/byvolume.go:114-147 | no part is negative, a part is positive if and only if its exchange is assigned something, and an exchange without traders gets at most one unit |
| ByVolume.VolumeBalance | distributer/byvolume.go:44-55 | accounts are sent the budget, less what went to exchanges without traders, plus the step rewards left standing; nothing when no parts can be formed |
| ByVolume.PartsFormIff | distributer/byvolume.go:51-54 | parts can be formed if and only if there is one exchange, or weights fit and some exchange with traders has a positive cap |
| ByVolume.VolumeConservesIff | distributer/byvolume.go:44-56 | for every budget and setting, conservation holds if and only if nothing is to be sent, or parts can be formed and every exchange with traders is assigned something |
| ByVolume.EmptyPoolPaysTwice | distributer/byvolume.go:122-133 | an exchange with an empty pool makes twice the budget be dispatched |
| ByVolume.EmptyPoolsPayNothing | distributer/byvolume.go:51-54 | with all pools empty nothing of a budget of 20 is sent, although there are traders |
| ByVolume.VolumePathPaysBusySteps | distributer/distribute.go:144-154 | from stored windows to payout, one step reward per busy step is sent, under the same condition |
| ByVolume.RankSurvivesDispatch | distributer/option.go:641-645 | slices list larger step rewards first, and the redispatch keeps that order |
| Dispatch.DispatchRewards | distributer/dispatchrewards.go:15-44 | exchange after exchange up to the first failure, with lines and records, as specified |
| Dispatch.DispatchSends | distributer/dispatchrewards.go:15-44 | without a failure each exchange is sent exactly what its accounts were to be paid, and as much is on record |
| Dispatch.DispatchPaysOwners | distributer/dispatchrewards.go:89-109 | the output file of each exchange pays exactly the accounts of its slice, each its own reward, in order |
| Dispatch.DispatchListsBroadcasts | distributer/dispatchrewards.go:89-109 | outside a dry run the output files list exactly the broadcasts, in order |
| Dispatch.RecordsName | distributer/dispatchrewards.go:22-38 | records are saved exactly for the exchanges whose accounts were sent something, with that sum |
| Dispatch.DivisionKeepsOwners | mongodb/types.go:91-138 | the division changes rewards only: accounts, shares and numbers stay in place |
| Dispatch.DryDispatchSucceeds | distributer/dispatchrewards.go:76-120 | a dry run fails only on an output file and leaves the sender as it was |
| Dispatch.PayoutIsSent | distributer/byvolume.go:35-56 | without a failure what is sent is the payout, for every budget and setting |
| Dispatch.RunByVolume | distributer/byvolume.go:12-56 | from sources to output files, the whole path equals collection, division and dispatch as specified |
| Dispatch.RunnerSendsBusySteps | distributer/distribute.go:273-303 | the runner's dry dispatch sends one step reward per busy step, under the exact condition |
| SyncRanges.Syncer.GetStartAndLast | syncer/sync.go:184-212 | start one past the record, or at the first exchange without one; last is the stable head, or the head itself below the stable height |
| SyncRanges.Syncer.DispatchWork | syncer/sync.go:214-257 | non-empty worker ranges tile the range, one for each 100 blocks but at most one per job, all but the last equally long, and the endless worker's start is their end |
| SyncRanges.TilesPartition | syncer/sync.go:240-254 | every height lies in exactly one worker's range |
| SyncRanges.CountMeansComplete | syncer/sync.go:390-400 | with unique block numbers, a full count means that every height is stored |
| SyncRanges.CountSkipIff | syncer/sync.go:390-400 | no full reply hides a missing height if and only if fewer blocks match than the chunk has heights, or all heights are stored |
| SyncRanges.ForkHidesGap | syncer/sync.go:396-400 | with two blocks of one height it does not |
| SyncRanges.MissingIs | syncer/sync.go:404-423 | the heights to parse are exactly the missing ones, once each and in order |
| SyncRanges.SyncRange | syncer/sync.go:381-428 | for any chunk length, and whatever parsers store meanwhile, exactly the missing heights are parsed in order |
| SyncRanges.NextLast | syncer/sync.go:337-353 | the next range is that of the specification: it is confirmed by what is taken for the latest head, at first the worker's own end, and stays below the end |
| SyncRanges.LatestReplyIs | syncer/sync.go:337-349 | the head a worker goes by is the last successful reply, or what it took before |
| SyncRanges.DoSync | syncer/sync.go:319-358 | the loop makes exactly the specified calls and parses exactly the wanted heights; a run that is cut off has synced all that the last reply confirms |
| SyncRanges.CallsConsecutive | syncer/sync.go:331-357 | the ranges follow each other without gap or overlap |
| SyncRanges.CallsConfirmed | syncer/sync.go:337-353 | every range stays below the worker's end and is confirmed by a reply or by what was first taken for the head |
| SyncRanges.AlwaysConfirmedIff | syncer/sync.go:331-353 | everything is confirmed by real heads if and only if there is nothing to do, the worker must ask first, or its first range lies below the known head |
| SyncRanges.EndTakenForHead | syncer/sync.go:331-353 | with an end beyond the chain, heights are parsed that no head confirms |
| SyncRanges.DispatchedConfirmed | syncer/sync.go:200-254 | in endless mode every worker is confirmed by real heads only |
| ParserPipeline.TaskStepKeeps | syncer/parse.go:52-132 | a task step changes the counter by what it changes the unfinished tasks by; a done message takes no step |
| ParserPipeline.ZeroCounterMeansDone | syncer/parse.go:45-48 | a wait that returns finds every announced task done |
| ParserPipeline.WorkerStepKeeps | syncer/parse.go:26-50 | every action of every goroutine keeps the worker's invariant and its claims on the shared wait group |
| ParserPipeline.ThrottledInEveryRun | syncer/parse.go:26-50 | counter equals unfinished tasks, at most 1000 messages unfinished, earlier batches completely parsed |
| ParserPipeline.ReturnsOnlyWhenDrained | syncer/sync.go:283-291 | the sync returns only when every block of every worker has been handed over and is completely parsed |
| ParserPipeline.NeverStuck | syncer/sync.go:319-358 | in every interleaving something can move if and only if the sync has not returned |
| ParserPipeline.WorkerStepWorks | syncer/parse.go:26-132 | every action of every goroutine uses up work |
| ParserPipeline.EveryRunEnds | syncer/sync.go:283-291 | no interleaving takes more steps than the work it starts with, so every maximal one ends with the return |
| ParserPipeline.WorkAtStart | syncer/parse.go:26-132 | that work is a constant for each worker and each block, and two for each transaction |
| SyncRun.WorkersParseRange | syncer/sync.go:283-290 | the blocks handed over by the workers together are those one worker would hand over for the whole range |
| SyncRun.StoredWhenReturned | syncer/sync.go:283-291 | past the wait, in every interleaving, exactly the wanted heights of the whole range have been stored |
| SyncRun.CheckFindsNothing | syncer/sync.go:268-299 | every height of the range is stored then, and the check parses nothing |
| SyncRun.ParsersLandElsewhere | syncer/sync.go:381-428 | at every moment, what any parser may have stored lies below a worker's current chunk or beyond its range, and was missing unless overwriting |
| SyncRun.RunLandsElsewhere | syncer/sync.go:381-428 | all that a worker's loop assumes of concurrent parsers holds in every run, given unique numbers in the store at the start or overwriting |
| Stability.DistributeConfig.Check | params/checkconfig.go:147-222 | accepts exactly well-formed addresses, amounts and cycles, and then moves the larger stable height to the syncer |
| Stability.MovedIs | params/checkconfig.go:157-163 | the larger depth ends up with the syncer; the distributer keeps its own, or 1 |
| Stability.WaitCycleEnd | distributer/distribute.go:331-353 | stops at the first record far enough past the cycle's end |
| Stability.RunInv | syncer/parse.go:73-77 | in every interleaving a written record is confirmed by the syncer's depth |
| Stability.AlwaysStableIff | distributer/distribute.go:331-351 | every ended wait has the configured depth below the head if and only if the first record was not too high |
| Stability.ConfirmedByBothDepths | syncer/sync.go:331-355 | with a stable first record, every ended wait has both depths below the head |
| Settlement.JobsStay | syncer/parse.go:26-132 | no step of any goroutine takes back a block, and messages are sent in the order of the plan |
| Settlement.HistoryIsRun | syncer/parse.go:52-78 | every run of the worker, its parser and the record is one of the confirmation model |
| Settlement.AlwaysCompleteIff | distributer/distribute.go:331-353 | ended waits find all blocks completely parsed if and only if batches span at most the depth and the first record is not too high |
| Settlement.FollowingCompleteIff | distributer/distribute.go:331-353 | following the chain block by block, that takes a depth of at least 999 |
| Settlement.SettledTooEarly | params/checkconfig.go:160-163 | with the depth of 1 that the check can leave, a cycle is settled on incomplete data |
| Settlement.SettledCompleteAndConfirmed | distributer/distribute.go:331-353 | under the condition, a settled cycle is completely parsed and lies both depths below the head |
| CycleSchedule.FirstCycleAlignedIff | distributer/distribute.go:366-372 | the first cycle holds the stable head; it lies on the grid if and only if the head has passed start plus stable, and else begins before the start |
| CycleSchedule.FirstCycleHoldsStableHead | distributer/distribute.go:366-372 | from then on the first cycle is the one on the grid that holds the stable head, for all machine integers |
| CycleSchedule.FirstCycleOnGridIff | distributer/distribute.go:366-372 | the exact condition for lying on the grid, for all machine integers |
| CycleSchedule.FirstCycleBeforeStart | distributer/distribute.go:366-372 | an input for which cycles before the configured start are settled |
| CycleSchedule.CheckedCyclesRun | params/checkconfig.go:201-222 | the configuration check and the runner's initialisation accept the same cycle lengths |
| CycleSchedule.SettleVolumeRewards | distributer/distribute.go:249-270 | the windows of one cycle, settled or passed over |
| CycleSchedule.RunVolumeDistribute | distributer/distribute.go:214-228 | all cycles, one after the other |
| CycleSchedule.WindowsNeverOverlap | distributer/distribute.go:214-270 | in both modes windows tile the run, each at most once, each cycle ending at its end |
| CycleSchedule.EventsAre | distributer/distribute.go:214-270 | each event of a run, by position: its window, and passed over if and only if quick mode and the window ended before the head sampled at that very cycle's start |
| CycleSchedule.CycleSettlesAllIff | distributer/distribute.go:254-260 | a quick cycle settles everything if and only if the sampled head is not past its first window |
| CycleSchedule.QuickModeDropsFirstWindow | distributer/distribute.go:254-266 | with depths beyond a volume cycle, the first window after a settled cycle is never settled |
| TimestampSearch.BinarySearch | distributer/util.go:85-100 | returns the first block at or after the timestamp within logarithmically many probes |
| TimestampSearch.JumpBack | distributer/util.go:58-79 | the jumps back end below the timestamp or at genesis, each as long as the average block time suggests, at most as many as blocks are left |
| TimestampSearch.FindBlockByTimestamp | distributer/util.go:39-83 | terminates for any average block time with the first block at or after the timestamp, genesis included; jumps and probes are bounded by the accepted head, and two requests suffice to jump back when blocks are not faster than the average |
| SendRun.Payer.SendRewardsTransaction | distributer/sendtx.go:146-190 | dust, dry run, nonce update and outcome equal the specification |
| SendRun.AttemptIs | distributer/sendtx.go:146-190 | when an attempt is dust, dry, failed or sent, and which nonce it carries: the larger of count and report |
| SendRun.ListSendsDue | distributer/dispatchrewards.go:89-109 | without a failure exactly the positive payments that are no dust are broadcast, in order |
| SendRun.ScaledIs | distributer/sendtx.go:203-211 | a reward times the numerator over the denominator, with a remainder that is not negative |
| SendRun.FileIs | distributer/sendtx.go:192-260 | when a file is sent and what its total is |
| SendRun.Payer.SendPayments | distributer/sendtx.go:275-305 | the loop over a list equals the specification and stops at the first failure |
| SendRun.Payer.SendRewardsFromFiles | distributer/sendtx.go:228-260 | refuses files that do not match up in number, else the run over the files, with scaling, total and balance check, stops at the first failure |
| SendRun.FailureLasts | distributer/sendtx.go:292-295 | nothing is sent after a failed transaction |
| SendRun.RunNonces | distributer/sendtx.go:157-184 | broadcast nonces strictly increase across all files, whatever pending nonces are reported |
| SendRun.RunNumbered | distributer/sendtx.go:157-184 | over a whole run, every broadcast is numbered by the larger of the sender's count at that attempt and the nonce reported to it |
| SendRun.ListLeavesNoGap | distributer/sendtx.go:157-184 | broadcast nonces are consecutive, up to the next nonce, if and only if no attempt sees a report ahead of the count at that attempt |
| SendRun.RunLeavesNoGap | distributer/sendtx.go:244-257 | the same for a whole run over files |
| SendRun.CountingNodeNeverAhead | callapi/callapi.go:145-148 | a node that counts the sender's own pending transactions is never ahead |
| SendRun.LinesMatchBroadcasts | distributer/sendtx.go:286-301 | lines and broadcasts match one for one, and what is counted as sent is broadcasts plus dust |
| SendRun.RunLinesMatchBroadcasts | distributer/sendtx.go:244-257 | over a whole run the output files list exactly the broadcasts in order |
| SendRun.DryRunIsPure | distributer/sendtx.go:152-155 | a dry run sends nothing, never fails, and lists every positive payment |
| SendRun.FileSendsTotalIff | distributer/sendtx.go:203-214 | a fully sent file adds its total value if and only if no scaled reward is negative |
| SendRun.NegativeScaling | cmd/distribute/sendrewards.go:70-100 | scaling by -1 makes a file send nothing of a negative total |
| RewardLines.IntTextReads | tools/common.go:21-28 | decimal text reads the same in base 10 and under the base-0 rules |
| RewardLines.LeadingZeroIsOctal | tools/common.go:21-28 | a leading zero does not |
| RewardLines.PrefixReads | tools/common.go:21-28 | 0x, 0o and 0b, in either case, make the digits after them hexadecimal, octal and binary |
| RewardLines.UnderscoreRead | tools/common.go:21-28 | an underscore between digits does not change the number |
| RewardLines.UnderscoreMisplaced | tools/common.go:21-28 | one at the end or next to another makes it none |
| RewardLines.SplitJoin | distributer/util.go:14-14 | splitting at blanks and commas undoes joining with commas |
| RewardLines.SplitFindsFields | distributer/util.go:14-14 | whatever blanks and commas stand between them, splitting finds the fields |
| RewardLines.PrintIs | distributer/option.go:317-349 | the columns of a printed line, for all four shapes |
| RewardLines.TextsAre | distributer/option.go:323-333 | addresses and hashes are printed as 0x and lower-case digits of full width |
| RewardLines.MalformedIff | distributer/option.go:731-773 | when a line makes the file unreadable |
| RewardLines.PayableIs | distributer/option.go:731-773 | what a line asks to pay: account, positive reward, and share and number when given |
| RewardLines.ParseAddressIs | cmd/distribute/importrewards.go:217-220 | an address is 40 hexadecimal digits, with or without a prefix |
| RewardLines.ImportedIs | cmd/distribute/importrewards.go:198-250 | when a line is imported, and which field becomes what |
| RewardLines.CommentIgnored | distributer/option.go:855-857 | lines that begin with # or //, after blanks, are passed over |
| RewardLines.TitleIs | distributer/option.go:721-729 | the title is a commented first line without the blanks around it |
| RewardLines.ImportUndoesPrint | cmd/distribute/importrewards.go:198-250 | importing a printed line recovers account, reward, share, number and hash, for all four shapes |
| RewardLines.ReadUndoesPrint | distributer/option.go:731-773 | reading a printed line for sending recovers what is to be paid, and passes over the rest |
| RewardLines.GetAccountsAndRewardsFromFile | distributer/option.go:705-777 | the file loop equals the specification, with the commented first line as title |
| RewardLines.FileRoundTrip | distributer/option.go:317-349 | a whole output file reads back as exactly the payable entries in order |

## Left out

- RPC clients, retries, keystores, signing and transaction hashing: their outcomes are parameters.
- MongoDB sessions, indexes and failed writes: the collections are maps and sets, and writes succeed (except that the sync record may fail to be written).
- `UpdateVolumeWithReceipt` under concurrent parsing: a read-modify-write without synchronisation has no order-independent result; only how it reads a trade log is modelled.
- Erc20, exchange-v2 and exchange-creation logs: they write no volume history; the exchange set is fixed.
- Stake weighting: assumed unconfigured, since it changes shares after the sort.
- Percentage weights: that mode assigns budget to exchanges without traders by design.
- Liquidity rewards, random sampling and balance merging: the split they end in is modelled, the sampling is not.
- Stability.AlwaysStableIff: does not model the time mode, in which the distributer waits on block times while the syncer's depth is still counted in blocks.
- Settlement.AlwaysCompleteIff: does not model the time mode either; there the record's block time is compared.
- VolumeSteps.VolumeOption.GetAccountsAndRewards: does not model file entries without a share, because adding up their shares dereferences nil.
- The text of title lines, and the fields of distribution records other than exchange and rewards.
- Pauses between batches of transactions.
- Logging, command-line flags and configuration loading.
