# Verified core of the chain client

A Dafny model of the state-keeping core of a go-ethereum based Binance Smart Chain node, with
proofs of the invariants that its operations rely on.

- **Transaction pool** (`TxPool.dfy` on `PoolBooks`, `PoolMoves`, `PoolNonces`, `PoolTruncate`,
  `PoolAdd`, `PoolSteps`, `PoolReorg`, `PoolRun`, `PoolHeads`, `PoolExample`, `TxLookup`, `TxPricedList`, `TxList`, `TxSortedMap`, `BinaryHeap`, `Transactions`).
  One invariant ties together lookup table, pending lists, queues, slots and price heap: the table is
  the disjoint union of all lists, no list is empty, and no account has a nonce both pending and queued.
  Every operation keeps it. Adding is a relation between lookup tables that fixes verdict, evictions and
  replacement; over every run each account's pending list is the gapless run from state nonce to virtual
  nonce, or empty with the virtual nonce behind, and which of the two a reset leaves is decided exactly.
  `ReorgScheduler.dfy` is the background loop as a state machine over its events.
- **Canonical chain** (`ChainTree`, `HeaderChain`, `BlockChain`, `GetHashFn`). Header and block trees
  with a number-to-hash index that must be one root-to-head path after every import and reorganisation,
  and the fast ancestor lookups.
- **Section indexer** (`ChainIndexer`): processing without the lock, against arbitrary interference.
- **Event feed** (`Feed`): in-place partition of the send cases under unsubscription.
- **Gas** (`GasPool`, `StateTransition`, `StateProcessor`, `GasLimit`): conservation of gas and value,
  and convergence of the gas limit.
- **Diff layers** (`DiffLayers`): five mutually indexed maps.

Conventions. Hashes are collision-free identities; a transaction stands for its own hash. The database
is a set of maps. A region under a lock is one atomic step; where the code runs unlocked, a method takes
the schedule of what others do as a parameter, so its contract holds for every interleaving. Clocks,
coins, heartbeats, the EVM and the backend are parameters. Nonces, prices and balances are unbounded;
for gas, block numbers and gas limits the 64-bit wrap is written out where it can happen (`Words`). Pool lists are values; `TxList` and `TxSortedMap` are the in-place classes proved to refine the
same functions.

## What the code does not keep

Each of these has an exact condition in the model.

- `writeHeaders` with every header of the batch known: if the fork choice prefers the last one and that
  is not the head, the head moves and the markers stay (`HeaderChain.WriteHeaders`, `AllKnownExample`).
- `writeHeaders` interrupted before its write: the caches are ahead of the database exactly if a header
  of the batch was new (`HeaderChain.WriteHeaders`, `AbortedImportExample`).
- `reorg` to a single block lower than the old head leaves the old markers above it; the transaction
  index is right all the same (`BlockChain.WriteKnownBlock`, `LowSingleExample`).
- `runReorg` with a reset: if re-injection takes a pending transaction that the new state has already
  passed out of the lookup table, its account ends with nothing pending and a virtual nonce below the
  state nonce. It cannot happen with room for the re-injected transactions, nor to an account without
  such a remote one. It must happen if that one is strictly the cheapest remote and the first
  re-injected transaction that is not refused on sight is dearer, comes from an account that is not
  local, finds the pool full, and the remotes suffice to make room for it. The next reset repairs it
  (`TxPool.RunReset`, `PoolRuns.EveryReset`, `PoolRuns.EveryResetForeseen`,
  `PoolExample.StaleEvictionExample`).
- `Discard` with stale entries in the price heap: a transaction that left and came back is taken twice,
  so less is freed than was asked for; without stale entries enough is
  (`TxPricedList.Discard`, `DoubledEntryExample`).
- `TransitionDb` failing after the pre-check keeps the gas it bought, from pool and balance
  (`StateTransition.TransitionDb`, `LateFailureExample`).
- `IntrinsicGas` checks the data part for overflow but not the access list part, which wraps
  (`IntrinsicGas`, `AccessListWraps`). It takes an access list of about 7.7e15 entries, which no
  node can hold in memory.
- `HandleDiffLayer` takes a known diff hash with another block hash, which leaves its five maps
  inconsistent (`DiffStore.HandleDiffLayer`, `ClashBreaks`, `ClashExample`). Its callers hash bytes that
  contain the block hash (BSC/eth/protocols/diff/protocol.go:81-95), so with collision-free hashes they
  never pass such a layer.
- The block-hash closure asked for the largest 64-bit number answers with the parent of the genesis
  (`GetHashFn.Call`, `LargestExample`). The BLOCKHASH instruction asks only below the current number
  (BSC/core/vm/instructions.go:447).
- `pruneDiffLayer` below height 11 wraps and prunes everything (`ThresholdCases`, `EarlyPruneExample`).

## Model

| member | source | states |
|---|---|---|
| BinaryHeap.RootIsLeast | BSC/core/tx_list.go:36-54 | the root of a binary heap is below no other element |
| BinaryHeap.Push | BSC/core/tx_list.go:44-46 | heap order is kept and exactly one element is added |
| BinaryHeap.Pop | BSC/core/tx_list.go:48-54 | a least element comes out, the rest is a heap with the other elements |
| BinaryHeap.RemoveAt | BSC/core/tx_list.go:180-200 | removing at any position keeps heap order and all other elements |
| BinaryHeap.Init | BSC/core/tx_list.go:123-130 | any sequence becomes a heap with the same elements |
| BinaryHeap.Sort | BSC/core/tx_list.go:163-166 | ascending order and a permutation of the input |
| TxSortedMaps.TxSortedMap.Put | BSC/core/tx_list.go:79-88 | refines a map update; heap = keys and cache = sorted contents stay true |
| TxSortedMaps.TxSortedMap.Forward | BSC/core/tx_list.go:93-107 | keeps exactly the nonces from the threshold on, returns the others in nonce order; the cached listing loses exactly its prefix |
| TxSortedMaps.TxSortedMap.Filter | BSC/core/tx_list.go:114-121 | keeps exactly what the predicate does not select and lists the rest; heap and cache are right again |
| TxSortedMaps.TxSortedMap.FilterRaw | BSC/core/tx_list.go:134-151 | removes exactly the selected transactions; the cache is dropped only if something was removed |
| TxSortedMaps.TxSortedMap.Reheap | BSC/core/tx_list.go:123-130 | rebuilds the nonce heap for the present contents |
| TxSortedMaps.TxSortedMap.Cap | BSC/core/tx_list.go:155-176 | keeps exactly the lowest nonces, drops the others from the highest down |
| TxSortedMaps.TxSortedMap.Remove | BSC/core/tx_list.go:180-200 | removes one nonce and tells whether it was there |
| TxSortedMaps.TxSortedMap.Ready | BSC/core/tx_list.go:209-227 | hands out the maximal run of consecutive nonces from the least one, or nothing if that one lies after the start |
| TxSortedMaps.TxSortedMap.FlattenRaw | BSC/core/tx_list.go:234-250 | the nonce-sorted contents, cached |
| TxSortedMaps.TxSortedMap.LastElement | BSC/core/tx_list.go:265-268 | the transaction of the highest nonce |
| Transactions.SortedListingUnique | BSC/core/tx_list.go:234-250 | there is only one nonce-sorted listing of a map, so a cached one is the one a fresh sort gives |
| Transactions.LowestUnique | BSC/core/tx_list.go:155-176 | Cap's result is determined by the contents and the limit |
| Transactions.SlotsFit | BSC/core/tx_pool.go:1759-1761 | as many slots of 32 KB as the size takes and no more; one to four for an allowed size |
| TxLists.ShortCircuitIsFullFilter | BSC/core/tx_list.go:347-350 | with limits at or above the caps a full filter would drop nothing |
| TxLists.FilterPartitions | BSC/core/tx_list.go:346-375 | removed, invalidated and remaining transactions partition the old list and the rest is payable |
| TxLists.FilterStaysGapless | BSC/core/tx_list.go:346-375 | a gapless strict list stays gapless from the same start, up to the first unpayable nonce |
| TxLists.ReadyIsGapless | BSC/core/tx_list.go:209-227 | what Ready takes is gapless from the least nonce and nothing follows it directly |
| TxLists.ReplacementPaysMore | BSC/core/tx_list.go:303-328 | a replacement pays strictly more, by the bump at least up to integer rounding |
| TxLists.TxList.Overlaps | BSC/core/tx_list.go:294-296 | whether the nonce is taken |
| TxLists.TxList.Add | BSC/core/tx_list.go:303-328 | accepted exactly if the nonce is free or the old price is beaten by the bump; caps grow to cover it; the replaced transaction is returned |
| TxLists.TxList.Forward | BSC/core/tx_list.go:333-335 | drops exactly the nonces below the threshold, in order |
| TxLists.TxList.Filter | BSC/core/tx_list.go:346-375 | refines the full filter: short circuit, drops, and in strict mode everything after the first drop |
| TxLists.TxList.Cap | BSC/core/tx_list.go:379-381 | keeps the lowest nonces |
| TxLists.TxList.Remove | BSC/core/tx_list.go:386-397 | removes by nonce; in strict mode also every later nonce, which it returns |
| TxLists.TxList.Ready | BSC/core/tx_list.go:406-408 | removes and returns the ready run |
| TxLists.TxList.Flatten | BSC/core/tx_list.go:423-425 | the sorted contents, list unchanged |
| TxLists.TxList.LastElement | BSC/core/tx_list.go:429-431 | the transaction of the highest nonce |
| TxLookups.TxLookup.Add | BSC/core/tx_pool.go:1707-1719 | joins locals or remotes; slots stay the sum of sizes for a new transaction |
| TxLookups.TxLookup.Remove | BSC/core/tx_pool.go:1722-1739 | leaves both sides; slots stay the sum of sizes |
| TxLookups.TxLookup.RemoteToLocals | BSC/core/tx_pool.go:1743-1756 | moves exactly the given accounts' remotes, counts them, loses nothing |
| TxLookups.TxLookup.Count | BSC/core/tx_pool.go:1675-1680 | the number of known transactions |
| TxLookups.SlotsCoverCount | BSC/core/tx_pool.go:1759-1761 | every transaction takes a slot, so the slots are never fewer than the transactions |
| TxLookups.TxNoncer.Get | BSC/core/tx_noncer.go:45-55 | the virtual nonce, falling back to the state; filling the cache changes no answer |
| TxLookups.TxNoncer.Set | BSC/core/tx_noncer.go:59-64 | sets one virtual nonce and no other |
| TxLookups.TxNoncer.SetIfLower | BSC/core/tx_noncer.go:68-79 | lowers one virtual nonce to a minimum and no other |
| TxPricedLists.StalesCoverDead | BSC/core/tx_list.go:465-473 | the stale counter is never below the number of dead heap entries, hence never negative |
| TxPricedLists.LiveEntries | BSC/core/tx_list.go:465-473 | a heap that holds all remotes has at least the remotes plus its dead entries |
| TxPricedLists.NoDoubles | BSC/core/tx_list.go:465-473 | a heap without stale entries holds every remote exactly once |
| TxPricedLists.UniqueSlots | BSC/core/tx_list.go:559-565 | transactions taken once each free the sum of their slots |
| TxPricedLists.TxPricedList.Put | BSC/core/tx_list.go:484-489 | a remote transaction enters the price heap, a local one does not |
| TxPricedLists.TxPricedList.Removed | BSC/core/tx_list.go:494-502 | counts stale entries, rebuilds past a quarter; the heap still covers all remotes |
| TxPricedLists.TxPricedList.Cap | BSC/core/tx_list.go:508-526 | takes exactly the live remotes below the threshold; the stale counter goes down by exactly the dead entries met |
| TxPricedLists.TxPricedList.Underpriced | BSC/core/tx_list.go:530-549 | equals a full scan: there are remotes and none is cheaper than the transaction; the stale counter goes down by exactly the dead entries met |
| TxPricedLists.TxPricedList.Discard | BSC/core/tx_list.go:555-576 | takes live remotes cheapest first, none dearer than any that stays, and without the last one too few slots; without stale entries each once, freeing the slots asked for; failing without force takes nothing, and only if all remotes are too few |
| TxPricedLists.TxPricedList.PutBack | BSC/core/tx_list.go:568-573 | a failed Discard restores coverage of all remotes |
| TxPricedLists.TxPricedList.Reheap | BSC/core/tx_list.go:579-588 | the heap is exactly the remotes and nothing is stale |
| TxPricedLists.DoubledEntryExample | BSC/core/tx_list.go:484-502 | four remotes, the cheapest removed and added again: two slots asked for, the cheapest taken twice, one slot freed |
| PoolBooks.ToQueue | BSC/core/tx_pool.go:717-752 | a transaction in transit finds its nonce free in the queue, so a demotion is never rejected |
| PoolBooks.ToPending | BSC/core/tx_pool.go:770-800 | a transaction in transit finds its nonce free in the pending list, so promotion never meets an older one |
| PoolMoves.RemovalCases | BSC/core/tx_pool.go:966-995 | removal by nonce removes the very transaction asked for, from pending or from the queue |
| PoolMoves.RemovalCuts | BSC/core/tx_pool.go:950-996 | a removal cuts the account's pending tail at that nonce and lowers the virtual nonce to it |
| PoolMoves.QueueNew | BSC/core/tx_pool.go:717-752 | queueing keeps lookup = pending + queued, replacing at most one transaction |
| PoolMoves.QueueBack | BSC/core/tx_pool.go:717-752 | a demoted transaction comes back to a free nonce, books intact |
| PoolMoves.PendingBack | BSC/core/tx_pool.go:770-800 | a promoted transaction goes to a free nonce, books intact |
| PoolMoves.PendingReplaced | BSC/core/tx_pool.go:669-693 | replacing a pending transaction keeps the books |
| PoolMoves.PromotionKeepsBooks | BSC/core/tx_pool.go:1265-1286 | forward, filter and ready split a queue into dropped, ready and left without losing a transaction |
| PoolMoves.DemotionKeepsBooks | BSC/core/tx_pool.go:1459-1508 | forward, filter and gap check split a pending list into dropped, demoted and left without losing a transaction |
| PoolMoves.CapKeepsBooks | BSC/core/tx_pool.go:1296-1306 | capping a queue forgets exactly what it drops |
| PoolMoves.DropKeepsBooks | BSC/core/tx_pool.go:1358-1371 | dropping the highest pending nonce forgets exactly that transaction |
| PoolMoves.DrainedQueue | BSC/core/tx_pool.go:1265-1306 | after promotion the queue has nothing outdated or unpayable and not the next nonce |
| PoolMoves.TracksBulk | BSC/core/tx_list.go:494-502 | transactions leaving together keep the heap covering all remotes |
| PoolNonces.CutKeepsAligned | BSC/core/tx_pool.go:967-984 | removing a pending transaction and its successors keeps pending the gapless run up to the virtual nonce |
| PoolNonces.ResetThenCut | BSC/core/tx_pool.go:1168-1254 | after a reset an account is ready for promotion and demotion exactly if no removal went below the new state nonce |
| PoolNonces.PromotesFromNext | BSC/core/tx_pool.go:1285-1292 | with disjoint nonces promotion takes nothing or a run starting right after pending |
| PoolNonces.PromotionKeepsAligned | BSC/core/tx_pool.go:1259-1320 | appending the promoted run keeps pending aligned with the virtual nonce |
| PoolNonces.PromotionKeepsResetting | BSC/core/tx_pool.go:1112-1137 | promotion before demotion during a reset does no harm |
| PoolNonces.DemotionSettles | BSC/core/tx_pool.go:1457-1509 | demotion after a reset leaves a gapless list from the state nonce and never finds a gap in front |
| PoolNonces.SettledIsAligned | BSC/core/tx_pool.go:1142-1146 | setting the virtual nonce past the last pending one completes the alignment |
| PoolNonces.LaggingPromotesNothing | BSC/core/tx_pool.go:1285-1292 | an account whose virtual nonce lags behind the state promotes nothing |
| PoolTruncate.LevelRound | BSC/core/tx_pool.go:1356-1377 | a round over level offenders lowers all of them by one |
| PoolTruncate.NextOffender | BSC/core/tx_pool.go:1345-1353 | the next offender is no longer than the earlier ones, which are level |
| PoolTruncate.LevelIsFair | BSC/core/tx_pool.go:1325-1407 | level offenders within the limit or at the guaranteed slots make a fair truncation |
| PoolTruncate.StoppedFair | BSC/core/tx_pool.go:1325-1407 | stopping once the pool is within its limit is fair |
| PoolTruncate.RoundTight | BSC/core/tx_pool.go:1356-1377 | a round starts above the limit, so all penalised accounts together lose no more than one round too many |
| PoolTruncate.QueueDone | BSC/core/tx_pool.go:1410-1452 | the queue ends at its limit exactly, or with local transactions only |
| PoolTruncate.OrderStep | BSC/core/tx_pool.go:1431-1438 | dropping the latest of the remaining accounts keeps the order by heartbeat |
| PoolTruncate.TruncatedIsWithin | BSC/core/tx_pool.go:1138-1140 | after both truncations the pool is within its limits |
| PoolAdd.OutdatedStep | BSC/core/tx_pool.go:625-712 | adding neither brings back nor replaces a transaction that the state has passed; it leaves only by eviction |
| PoolAdd.AddsOne | BSC/core/tx_pool.go:625-712 | one addition changes the table by the transaction itself, evicted remotes and nothing else that could enter |
| PoolAdd.RoomAccepts | BSC/core/tx_pool.go:625-712 | with room, a valid remote transaction of an unused nonce is accepted and nothing else happens |
| PoolAdd.BatchReaches | BSC/core/tx_pool.go:900-912 | over a batch, what remains and what was evicted are old or from the batch, and an outdated one is there exactly if not evicted |
| PoolAdd.RoomMeansNoEviction | BSC/core/tx_pool.go:643-668 | a batch whose valid transactions all fit evicts nothing |
| PoolAdd.EvictedAreCheapest | BSC/core/tx_pool.go:643-668 | over a whole batch no evicted transaction is dearer than an old remote that stays |
| PoolAdd.CheapestMustGo | BSC/core/tx_pool.go:643-668 | strictly the cheapest remote of a full pool goes when the first valid dearer remote comes, and stays away if outdated |
| PoolAdd.ValidIff | BSC/core/tx_pool.go:571-614 | valid if and only if type, size, sign, gas cap, signature, nonce, funds and intrinsic gas are right and it is local or pays the minimum price |
| PoolAdd.ValidateRefuses | BSC/core/tx_pool.go:571-614 | each error means the rule it names is broken and the earlier ones are not; a sound remote one below the minimum price is underpriced |
| PoolAdd.AddsJudges | BSC/core/tx_pool.go:625-712 | known exactly if in the table; a valid one is accepted, or refused only for a full pool or its rival; an invalid one is refused for the rule it breaks and changes nothing; in the table afterwards exactly if accepted or known |
| PoolAdd.AddsKeepClean | BSC/core/tx_pool.go:625-712 | adding keeps remotes at or above the minimum price and from accounts that are not local, and everything genuine |
| PoolSteps.ExecutableIs | BSC/core/tx_pool.go:1265-1284 | forward and filter of a queue leave exactly the payable ones from the state nonce on |
| PoolSteps.StrictFilterIs | BSC/core/tx_pool.go:1462-1480 | forward and filter of a pending list leave exactly the payable ones with no unpayable one before them |
| PoolSteps.DemotionIs | BSC/core/tx_pool.go:1459-1500 | demotion keeps that run, or queues it too if its first nonce is past the state nonce; later payable ones are queued, the rest is gone |
| PoolSteps.PromotedQueue | BSC/core/tx_pool.go:1259-1317 | promotion of one account in terms of its payable queue: the ready run moves, the rest stays up to the cap |
| PoolSteps.PromoteNext | BSC/core/tx_pool.go:1259-1320 | promoting account after account is promoting each once |
| PoolSteps.DemoteNext | BSC/core/tx_pool.go:1457-1509 | demoting account after account is demoting each once |
| PoolReorg.ResetResult | BSC/core/tx_pool.go:1101-1147 | after a reset an account that was gapless and whose nonce did not go back is aligned if the table after re-injection has all its outdated pending transactions, and behind otherwise |
| PoolReorg.GoneIsEvicted | BSC/core/tx_pool.go:1168-1254 | an outdated pending transaction is missing from the table after re-injection exactly if the re-injection evicted it |
| PoolReorg.ResetSplits | BSC/core/tx_pool.go:1168-1254 | after re-injection the virtual nonce is the state nonce, or below it exactly if an outdated pending transaction was evicted |
| PoolReorg.PromotionKeepsStep | BSC/core/tx_pool.go:1259-1320 | promotion keeps every account that is aligned aligned and every one that is behind behind |
| PoolReorg.CutsKeepStep | BSC/core/tx_pool.go:950-996 | removals keep every account that is aligned aligned and every one that is behind behind |
| PoolReorg.DemotionSettlesAll | BSC/core/tx_pool.go:1457-1509 | demotion settles every account that did not lag |
| PoolReorg.NothingStaleGoes | BSC/core/tx_pool.go:1168-1254 | with room for the re-injected, or without an outdated remote, no outdated pending transaction is lost |
| PoolReorg.CheapestStaleGoes | BSC/core/tx_pool.go:1168-1254 | in a full pool an outdated pending transaction that is strictly the cheapest remote is lost |
| PoolReorg.OnlyTheCheapestGo | BSC/core/tx_pool.go:1168-1254 | an outdated pending transaction is lost only if no old remote that stays is cheaper |
| PoolReorg.AnchoredAfter | BSC/core/tx_pool.go:1130-1147 | whatever the nonces did, after a reset each pending list is empty or starts at the state nonce and ends right before the virtual nonce |
| PoolRuns.StepInStep | BSC/core/tx_pool.go:331-432 | one operation keeps an account in step; a reset leaves it aligned exactly if it left its outdated ones in the table, and always if it was behind |
| PoolRuns.EveryReset | BSC/core/tx_pool.go:331-432 | over every run in which its nonce never goes back an account stays in step, and after each reset it is aligned if and only if that reset left its outdated pending transactions in the table |
| PoolRuns.EveryResetForeseen | BSC/core/tx_pool.go:331-432 | at every reset of a run, room for the re-injected or no outdated remote means aligned, strictly the cheapest outdated remote in a full pool means not |
| PoolRuns.EveryResetAnchors | BSC/core/tx_pool.go:331-432 | after every reset of any run, nonces going back or not, pending lists start at the state nonce and end before the virtual one |
| PoolRuns.AlwaysClean | BSC/core/tx_pool.go:331-432 | at every point of every run remotes pay at least the current minimum price and come from accounts that are not local; all transactions are signed, of allowed size and not negative |
| PoolHeads.Reinject | BSC/core/tx_pool.go:1168-1226 | the transactions to re-inject are those of the old branch that the new branch does not contain, in order; none for an extension or a deep reorganisation; the reset is given up exactly if the old head is gone without the height falling, or a block of either branch is missing |
| PoolHeads.Collect | BSC/core/tx_pool.go:1199-1223 | both branches down to the fork, or failure exactly if a block is missing |
| PoolHeads.ReinjectedAre | BSC/core/tx_pool.go:1224 | in the difference exactly if some block of the old branch above the fork has it and none of the new |
| PoolHeads.TxDifference | BSC/core/types/transaction.go:371-386 | what is in the first and not in the second, in the order of the first |
| TxPools.SanitizedIs | BSC/core/tx_pool.go:183-215 | the result is usable, a usable configuration is unchanged, and each unusable limit alone gets its default |
| TxPools.TxPool.constructor | BSC/core/tx_pool.go:274-326 | an empty pool with sanitized limits satisfies the invariant |
| TxPools.TxPool.EnqueueNew | BSC/core/tx_pool.go:717-752 | a new transaction is queued unless it fails to outbid; lookup, slots and price heap follow |
| TxPools.TxPool.EnqueueBack | BSC/core/tx_pool.go:717-752 | a demoted transaction is never refused and replaces nothing |
| TxPools.TxPool.PostponeAll | BSC/core/tx_pool.go:973-977 | all demoted transactions end up in the queue |
| TxPools.TxPool.PromoteTx | BSC/core/tx_pool.go:770-800 | always succeeds: the older-was-better branch is unreachable; the virtual nonce becomes the next one |
| TxPools.TxPool.PromoteAll | BSC/core/tx_pool.go:1285-1292 | the ready run is appended to pending and the virtual nonce follows its end |
| TxPools.TxPool.RemoveTx | BSC/core/tx_pool.go:950-996 | exactly this transaction leaves; later pending ones of the account go back to the queue and the virtual nonce drops |
| TxPools.TxPool.RemoveTaken | BSC/core/tx_pool.go:662-667 | discarded transactions leave the pool and the heap covers the rest |
| TxPools.TxPool.Evict | BSC/core/tx_pool.go:654-667 | evicts the cheapest remotes, not one more than needed, and enough of them without stale heap entries; if all do not suffice and nothing forces it, nothing at all |
| TxPools.TxPool.Squeeze | BSC/core/tx_pool.go:644-667 | a full pool: refused as underpriced exactly when remote and paying no more than every remote; refused as overflow only if all remotes do not suffice; evicted ones are the cheapest and, without stale heap entries, make room; the slots asked for are positive |
| TxPools.TxPool.MakeRoom | BSC/core/tx_pool.go:643-668 | nothing happens unless the pool is full; otherwise as Squeeze |
| TxPools.TxPool.ReplacePending | BSC/core/tx_pool.go:669-693 | replaces a pending transaction exactly if it is outbid |
| TxPools.TxPool.MarkLocal | BSC/core/tx_pool.go:699-704 | a sender turned local takes its remotes along, heap still covering the others |
| TxPools.TxPool.Insert | BSC/core/tx_pool.go:669-698 | accepted exactly if it outbids the one of the same sender and nonce, in pending if that is there, else in the queue |
| TxPools.TxPool.Place | BSC/core/tx_pool.go:669-712 | the end of add: accepted exactly if it outbids its rival; the new table is exact; the sender becomes local only if the transaction was queued |
| TxPools.TxPool.Add | BSC/core/tx_pool.go:625-712 | exact verdict and table: known, invalid for the rule broken, underpriced and overflow as stated, otherwise accepted if and only if it outbids its rival; the list that holds it; evictions are cuts of pending lists |
| TxPools.TxPool.AddTxsLocked | BSC/core/tx_pool.go:900-912 | each transaction of a batch has the exact verdict of add on the table before it; the reported senders are those whose transaction was accepted without replacing one |
| TxPools.TxPool.TakeReady | BSC/core/tx_pool.go:1265-1286 | drops outdated and unpayable queue entries and takes the ready run |
| TxPools.TxPool.CapQueue | BSC/core/tx_pool.go:1296-1306 | a remote account's queue keeps its lowest nonces up to the limit |
| TxPools.TxPool.PromoteQueued | BSC/core/tx_pool.go:1259-1317 | pending grows by exactly the ready run, the queue keeps the rest up to its cap |
| TxPools.TxPool.PromoteAccount | BSC/core/tx_pool.go:1259-1317 | one account: the ready run of its payable queue moves to pending, the rest stays up to the cap; all others untouched |
| TxPools.TxPool.PromoteExecutables | BSC/core/tx_pool.go:1259-1320 | every given account is promoted exactly so, the others are untouched; nothing promotable, outdated or unpayable stays queued |
| TxPools.TxPool.DemoteAccount | BSC/core/tx_pool.go:1459-1508 | pending keeps exactly its payable run from the state nonce, the later payable ones are queued, the rest is gone |
| TxPools.TxPool.DemoteUnexecutables | BSC/core/tx_pool.go:1457-1509 | every account is demoted exactly so; books and heap kept |
| TxPools.TxPool.DropLast | BSC/core/tx_pool.go:1358-1375 | one account loses its highest nonce, the total drops by one |
| TxPools.TxPool.CutRound | BSC/core/tx_pool.go:1357-1376 | one round over all offenders |
| TxPools.TxPool.LevelDown | BSC/core/tx_pool.go:1355-1404 | offenders come down together until the limit or the floor is reached, never a round further |
| TxPools.TxPool.Penalise | BSC/core/tx_pool.go:1345-1379 | the next largest account joins the offenders, earlier ones are levelled to it |
| TxPools.TxPool.TruncatePending | BSC/core/tx_pool.go:1325-1407 | terminates fair: within the global limit or every remote within its slots, stopping within one round of the limit; locals and small accounts lose nothing, penalised ones keep their slots and stay no shorter than any remote, only top nonces go |
| TxPools.TxPool.DropQueued | BSC/core/tx_pool.go:1446-1450 | the highest queued nonce goes, pending is untouched |
| TxPools.TxPool.DropQueuedTop | BSC/core/tx_pool.go:1435-1450 | the k highest queued nonces go |
| TxPools.TxPool.DropNext | BSC/core/tx_pool.go:1431-1450 | the account with the latest heartbeat among those left loses its queue or just enough of its top |
| TxPools.TxPool.TruncateQueue | BSC/core/tx_pool.go:1410-1452 | the queue ends at the limit or with locals only; only top nonces of remotes go, and an account loses any only when all with a later heartbeat are empty |
| TxPools.TxPool.SetGasPrice | BSC/core/tx_pool.go:471-480 | exactly the remotes below the new price leave |
| TxPools.TxPool.EvictQueue | BSC/core/tx_pool.go:385-390 | a remote account loses exactly its queue |
| TxPools.TxPool.EvictIdle | BSC/core/tx_pool.go:376-391 | exactly the remote accounts silent for longer than the lifetime lose their queues |
| TxPools.TxPool.Reset | BSC/core/tx_pool.go:1227-1254 | re-injection adds one transaction after the other to the old table under the old fork rules; afterwards the virtual nonce of an account is the state nonce, or below it exactly if an outdated pending transaction of it is gone from the table |
| TxPools.TxPool.UpdateNonces | BSC/core/tx_pool.go:1142-1146 | virtual nonces are one past the last pending one |
| TxPools.TxPool.RunPromotion | BSC/core/tx_pool.go:1101-1147 | the given accounts are promoted exactly, then both truncations; every account stays aligned or behind as it was; ends within the limits |
| TxPools.TxPool.RunReset | BSC/core/tx_pool.go:1101-1147 | re-injection, promotion of every queue, demotion and truncation, each exact and starting from the cut old lists; an account whose nonce did not go back ends aligned if and only if the table after re-injection has its outdated pending transactions; when that is so and when not can be told beforehand from room and prices; every pending list starts at the state nonce and ends before the virtual one |
| TxPools.TxPool.Perform | BSC/core/tx_pool.go:331-432 | one operation of any kind keeps the books and does exactly what its relation says: additions, promotion, reset, price change, idle eviction |
| TxPools.TxPool.Run | BSC/core/tx_pool.go:331-432 | over every sequence of operations the books hold and consecutive snapshots of lists, nonces, context and table are related exactly; an account in step whose nonce never goes back ends in step |
| TxPools.RunNew | BSC/core/tx_pool.go:274-326 | every run of a new pool: the table is clean throughout, each account whose nonce never goes back is in step throughout and aligned after a reset exactly if that reset left its outdated ones in the table |
| PoolExample.MineAndReinject | BSC/core/tx_pool.go:1168-1254 | a full pool, a mined transaction still pending as the cheapest remote, a dearer one re-injected: the account ends with nothing pending and its virtual nonce below the state nonce |
| PoolExample.StaleEvictionExample | BSC/core/tx_pool.go:1168-1254 | such transactions and states exist |
| ReorgScheduler.StepKeeps | BSC/core/tx_pool.go:1031-1098 | one turn of the scheduler keeps its invariant |
| ReorgScheduler.ExecuteKeeps | BSC/core/tx_pool.go:1031-1098 | every run of the scheduler satisfies the invariant |
| ReorgScheduler.EveryRun | BSC/core/tx_pool.go:1031-1097 | in every run at most one reorg is active; when the loop stops none is and nobody is left waiting; a closed channel means the request was served, resets chain without gap or overlap, and each run does exactly what was asked on its channel: those accounts, a reset if and only if a head was announced, never nothing |
| ReorgScheduler.EveryEventHeard | BSC/core/tx_pool.go:1060-1095 | until a shutdown takes effect, the heads and requests the loop has recorded are exactly those of the events, in order |
| ReorgScheduler.IdleMeansServed | BSC/core/tx_pool.go:1031-1098 | once idle, every request was handed to a run and the resets have reached the latest head |
| ReorgScheduler.ServedNext | BSC/core/tx_pool.go:1050-1058 | once the active run has ended and that is seen, every request made so far has been handed to a run |
| ChainTree.MarksBelow | BSC/core/headerchain.go:248-262 | markers that agree with a path at one height agree with it below, so the walk back may stop |
| ChainTree.TdGrows | BSC/core/headerchain.go:169-197 | total difficulty grows along every path of positive difficulties |
| ChainTree.KnownFirst | BSC/core/headerchain.go:180-193 | the known headers of a linked batch come first |
| HeaderChains.StoreStep | BSC/core/headerchain.go:169-197 | storing one more header keeps the tree and the stored total difficulties the path sums |
| HeaderChains.DeleteAbove | BSC/core/headerchain.go:237-244 | removes exactly the markers above a height |
| HeaderChains.WalkBack | BSC/core/headerchain.go:245-262 | rewrites the markers down to the meeting point: afterwards they are the path of the start header |
| HeaderChains.MoveMarkers | BSC/core/headerchain.go:231-281 | with a header inserted the markers become the path of the last header; with none inserted, exactly if that is the head already |
| HeaderChains.MarkedAndHeavy | BSC/core/headerchain.go:218-226 | a marked header no lighter than the head is the head |
| HeaderChains.ChoiceIs | BSC/core/headerchain.go:212-223 | the heavier header wins, among equally heavy ones the lower, the coin at equal height |
| HeaderChains.NothingInserted | BSC/core/headerchain.go:263-276 | with every header known the markers are right only if they were already |
| HeaderChains.AllKnownExample | BSC/core/headerchain.go:211-286 | two equally heavy branches, all headers known, the coin moves the head and the markers stay |
| HeaderChains.AbortedImportExample | BSC/core/headerchain.go:199-203 | an aborted import of one new header leaves the caches ahead of the database |
| HeaderChains.HeaderChain.constructor | BSC/core/headerchain.go:80-117 | a chain of the genesis only is valid |
| HeaderChains.HeaderChain.GetTd | BSC/core/headerchain.go:465-478 | answers from cache or database alike and caches what it found |
| HeaderChains.HeaderChain.GetHeader | BSC/core/headerchain.go:491-503 | answers from the cache whatever the number, from the database only for the right number, and caches what it found |
| HeaderChains.HeaderChain.Evict | BSC/core/headerchain.go:68-70 | losing cache entries loses just these and keeps the caches coherent |
| HeaderChains.HeaderChain.Collect | BSC/core/headerchain.go:166-197 | the write batch holds exactly the new headers with path-sum difficulties; the unknown ones form a suffix |
| HeaderChains.HeaderChain.Settle | BSC/core/headerchain.go:210-291 | the head becomes a heaviest header; the markers follow unless every header was known and the head moved |
| HeaderChains.HeaderChain.WriteHeaders | BSC/core/headerchain.go:150-301 | total difficulties are path sums, the head is heaviest and among equally heavy ones never higher than before, the markers are its path, unless all headers are known and the fork choice prefers the last one to another head; error cases change nothing, an abort leaves caches ahead exactly if a header was new |
| HeaderChains.HeaderChain.GetAncestor | BSC/core/headerchain.go:429-461 | the canonical jump equals walking N parents, succeeds exactly when the off-chain steps fit the counter, and lowers it by exactly those steps |
| GetHashFns.WalkFromCache | BSC/core/evm.go:80-96 | walking on from any cached hash gives what a walk from the start gives |
| GetHashFns.GetHashFn.Call | BSC/core/evm.go:68-99 | after any earlier calls the answer is that of a fresh parent walk, zero if a header is missing or the number is not below the reference, except for the largest number |
| GetHashFns.NothingBeyond | BSC/core/evm.go:75-95 | for the largest number the answer is zero too if the block of height 0 has no parent |
| GetHashFns.LargestExample | BSC/core/evm.go:78-80 | a genesis that names a parent, asked for the largest number |
| BlockChains.ForkSeparates | BSC/core/blockchain.go:2464-2488 | two ancestor paths agree up to the fork height and differ above it |
| BlockChains.PathIndexContents | BSC/core/blockchain.go:935 | the index of a path names exactly its transactions, each with a block that has it |
| BlockChains.ReorgIndex | BSC/core/blockchain.go:2505-2522 | old index overwritten by the new branch, less old transactions not in it, is the new path's index |
| BlockChains.FindFork | BSC/core/blockchain.go:2444-2488 | finds the new branch and the old branch's transactions; fails exactly when a block at or above the fork is missing |
| BlockChains.MarkShort | BSC/core/blockchain.go:2523-2534 | a branch of at most one block ends with right markers exactly if it is no lower than the old head |
| BlockChains.BranchLength | BSC/core/blockchain.go:2464-2488 | two or more blocks on the new branch shows in the marker below its tip |
| BlockChains.PreferenceIs | BSC/core/blockchain.go:1806-1824 | the heavier block wins; in a tie a lower or earlier one, or any against an own head; at equal height a preserved head stays, a preserved block displaces one that is not, else the coin |
| BlockChains.LowSingleExample | BSC/core/blockchain.go:1806-1837 | a lower block of equal total difficulty is preferred and the old head's marker survives |
| BlockChains.BlockChain.constructor | BSC/core/blockchain.go:278-326 | a chain of the genesis only is valid |
| BlockChains.BlockChain.WriteHeadBlock | BSC/core/blockchain.go:928-955 | marks the block, indexes its transactions, moves the head and, if it was not canonical, the other heads |
| BlockChains.BlockChain.Reorg | BSC/core/blockchain.go:2389-2533 | a branch of two or more blocks leaves markers, heads and index at its second last block; a shorter one leaves markers and heads alone; errors change nothing |
| BlockChains.BlockChain.WriteKnownBlock | BSC/core/blockchain.go:1661-1673 | the index becomes the new path's; the markers do too unless the branch is one block lower than the old head; fails exactly when a block is missing |
| BlockChains.BlockChain.WriteBlockWithState | BSC/core/blockchain.go:1685-1837 | the chosen head is heaviest, and markers and index are its path unless the reorganisation was to a single lower block |
| ChainIndexers.LastHeadDecides | BSC/core/chain_indexer.go:422-429 | on an ancestor path one canonical section head makes all earlier ones canonical |
| ChainIndexers.RecordedMore | BSC/core/chain_indexer.go:351-353 | adding a section on top of its predecessor keeps the record linked |
| ChainIndexers.SettledIsReadable | BSC/core/chain_indexer.go:397-412 | markers that are a path can be read section by section |
| ChainIndexers.VerifiedIs | BSC/core/chain_indexer.go:422-429 | the sections left by verification are those up to the last canonical one |
| ChainIndexers.ChainIndexer.SetValidSections | BSC/core/chain_indexer.go:479-491 | drops exactly the sections from the given count on |
| ChainIndexers.ChainIndexer.HandleNewHead | BSC/core/chain_indexer.go:243-300 | after a reorg exactly the sections up to it stay stored and known; otherwise exactly the confirmed ones become known |
| ChainIndexers.ChainIndexer.VerifyLastHead | BSC/core/chain_indexer.go:422-429 | drops exactly the top sections that are not canonical, down to a canonical one |
| ChainIndexers.ChainIndexer.Sections | BSC/core/chain_indexer.go:434-440 | while the markers are a path, exactly the canonical sections remain |
| ChainIndexers.ChainIndexer.Handle | BSC/core/chain_indexer.go:243-299 | the exact effect of each outside event on headers, markers and known sections; the record only shrinks |
| ChainIndexers.ChainIndexer.Disturb | BSC/core/chain_indexer.go:343-345 | at an unlocked point exactly the scheduled events happen, in order |
| ChainIndexers.ChainIndexer.ProcessSection | BSC/core/chain_indexer.go:388-417 | under any interference a head it returns ends exactly one linked section on the old head; undisturbed it succeeds exactly on a readable section; a fault at Reset, Process or Commit is a failure, at Reset with nothing left valid; sections become known only by confirmed heads |
| ChainIndexers.ChainIndexer.ReadBlock | BSC/core/chain_indexer.go:397-412 | one block: marker, header on top of the last one, backend call; undisturbed it succeeds exactly if the block is readable |
| ChainIndexers.ChainIndexer.AddSection | BSC/core/chain_indexer.go:331-366 | processed and recorded if the head below is still there; undisturbed exactly if the section is readable; otherwise shrunk to a canonical last head, and nothing beyond it known |
| ChainIndexers.ChainIndexer.Update | BSC/core/chain_indexer.go:318-366 | adds one section on top of those still recorded, only if it was known before, or shrinks to a canonical last head; with nothing known beyond the recorded nothing happens; undisturbed on a settled chain it adds, canonical |
| ChainIndexers.ChainIndexer.Run | BSC/core/chain_indexer.go:304-380 | over every interleaving of events and updates the record stays linked, and every section recorded or known at the end was so before or was confirmed by a head announced during the run |
| Feeds.Find | BSC/event/feed.go:213-220 | the first index of the channel, or -1 if absent |
| Feeds.Delete | BSC/event/feed.go:223-225 | removes exactly that case |
| Feeds.Deactivate | BSC/event/feed.go:228-232 | a permutation of the cases |
| Feeds.DeliverStep | BSC/event/feed.go:159-165 | a delivery moves the case behind the active ones, each channel once |
| Feeds.RemoveStep | BSC/event/feed.go:171-177 | removing an active or a delivered case keeps the partition |
| Feeds.AllSent | BSC/event/feed.go:166-168 | with no active case left everything held and not removed was delivered |
| Feeds.ServedStep | BSC/event/feed.go:156-182 | one more round of fast path and select keeps the account of who waits and who was unsubscribed too early to be served |
| Feeds.DeliveredWereOffered | BSC/event/feed.go:156-182 | a send that ends within its schedule delivers to nobody that was never ready unless some select delivered |
| Feeds.StillWaiting | BSC/event/feed.go:72-111 | one more round of traffic: the inbox holds exactly the channels that joined for good while they were no send case |
| Feeds.Feed.Subscribe | BSC/event/feed.go:72-92 | a new channel waits in the inbox |
| Feeds.Feed.Unsubscribe | BSC/event/feed.go:103-124 | exactly this channel is removed, from inbox or send cases |
| Feeds.Feed.Traffic | BSC/event/feed.go:72-111 | a channel that is no send case is in the inbox afterwards if and only if it joined and did not leave again, or was there and did not leave |
| Feeds.Feed.TryAll | BSC/event/feed.go:159-165 | the fast path delivers to exactly the waiting channels that are ready, keeps the partition and counts |
| Feeds.Feed.HandleWake | BSC/event/feed.go:170-181 | a wake delivers to exactly one waiting channel or removes the held channel asked for, and keeps the partition |
| Feeds.Feed.Send | BSC/event/feed.go:128-190 | round by round, exactly the ready ones get the value, and while some wait the select delivers to one or removes one; the send ends exactly when nobody waits; delivered are all held channels but those unsubscribed while waiting, each once; removed are exactly the held channels the select returned with, and the final set is old plus inbox minus these; the inbox holds exactly those who joined for good meanwhile |
| DiffLayers.ForgettingKeeps | BSC/core/blockchain.go:2685-2712 | forgetting any diffs keeps the five maps consistent |
| DiffLayers.InsertingKeeps | BSC/core/blockchain.go:2802-2824 | inserting a new diff within the limit keeps them consistent, one peer each, limit plus one at most |
| DiffLayers.TakesWithin | BSC/core/blockchain.go:2775-2806 | the acceptance window and limits in numbers: 2048 ahead, 11 behind, 2048 or 128 layers a peer |
| DiffLayers.PrunedKeeps | BSC/core/blockchain.go:2741-2771 | forgetting all diffs of the blocks below a number keeps them consistent and leaves nothing older |
| DiffLayers.PrunedByNumber | BSC/core/blockchain.go:2741-2752 | when a block hash stands for one number exactly the layers below the threshold go |
| DiffLayers.ThresholdCases | BSC/core/blockchain.go:2742 | the 64-bit threshold is exact from height 11 on and wraps below |
| DiffLayers.EarlyPruneExample | BSC/core/blockchain.go:2742 | at height 5 a layer for block 6 counts as stale |
| DiffLayers.DiffStore.HandleDiffLayer | BSC/core/blockchain.go:2775-2827 | inserts exactly if in the window, not known for this block and within the peer's limit; otherwise nothing changes; the maps stay consistent unless the diff is taken for a second block |
| DiffLayers.ClashBreaks | BSC/core/blockchain.go:2797-2824 | a diff stored under a second block makes the maps inconsistent |
| DiffLayers.ClashExample | BSC/core/blockchain.go:2790-2824 | a diff of block 2 is taken again for block 9 |
| DiffLayers.DiffStore.RemoveDiffLayers | BSC/core/blockchain.go:2685-2712 | forgets exactly what came from the peer of the diff |
| DiffLayers.DiffStore.PruneDiffLayer | BSC/core/blockchain.go:2730-2772 | exactly the blocks filed below the threshold lose their layers, none older remains, the rest is unchanged |
| DiffLayers.DiffStore.TakeNumbers | BSC/core/blockchain.go:2733-2752 | taking buckets in ascending order up to the threshold misses none |
| GasPools.GasPool.AddGas | BSC/core/gaspool.go:29-35 | adds, or panics exactly on 64-bit overflow |
| GasPools.GasPool.SubGas | BSC/core/gaspool.go:39-45 | subtracts, or fails exactly if there is too little |
| StateTransitions.IntrinsicGas | BSC/core/state_transition.go:111-149 | overflow exactly if the data part exceeds 64 bits; the charge is the full one exactly if that fits 64 bits |
| StateTransitions.ChargesAre | BSC/core/state_transition.go:116-158 | 21000 or 53000, 16 or 68 and 4 a byte, 2400 an address and 1900 a key |
| StateTransitions.UsedBounds | BSC/core/state_transition.go:293-313 | used gas is at least half the gas spent and at most the gas bought |
| StateTransitions.SupplyConserved | BSC/core/state_transition.go:183-313 | total balance changes only by what the EVM changed |
| StateTransitions.ErrorsAre | BSC/core/state_transition.go:183-262 | which error, rule by rule: nonce too high or low, funds below gas times price, pool below gas; success means all of them met and funds for gas and value |
| StateTransitions.ChargedAtCall | BSC/core/state_transition.go:183-197 | the call starts with gas times price taken from the sender, a nonce used for a call, and nobody else touched |
| StateTransitions.SettledPaysOut | BSC/core/state_transition.go:293-308 | unused gas times price goes back to the sender and used gas times price to the fee recipient, on top of what the EVM left |
| StateTransitions.LateFailureExample | BSC/core/state_transition.go:238-255 | a message that fails on intrinsic gas after paying for its gas |
| StateTransitions.AccessListWraps | BSC/core/state_transition.go:144-147 | from some length on an access list makes the charge wrap |
| StateTransitions.StateTransition.BuyGas | BSC/core/state_transition.go:183-196 | checks balance before pool; on failure nothing changes |
| StateTransitions.StateTransition.PreCheck | BSC/core/state_transition.go:198-211 | reports the first broken rule of nonce, funds and pool, changing nothing |
| StateTransitions.StateTransition.TransitionDb | BSC/core/state_transition.go:226-291 | reports the first broken rule, each stated in gas times price; on success the pool is down by exactly the used gas, the sender was charged for all gas and gets the unused back, the fee recipient the used; never panics; late failures keep the gas bought |
| StateTransitions.StateTransition.Execute | BSC/core/state_transition.go:266-291 | nonce, call, refund and fee for any EVM outcome |
| StateTransitions.StateTransition.RefundGas | BSC/core/state_transition.go:293-308 | refunds at most half, pays the rest back |
| StateProcessors.OneReceipt | BSC/core/state_processor.go:456-479 | one more receipt keeps the running totals prefix sums |
| StateProcessors.SortedIs | BSC/core/state_processor.go:407-417 | outside proof of stake no transaction is set apart, otherwise exactly the system transactions are, in order |
| StateProcessors.ApplyTransaction | BSC/core/state_processor.go:456-479 | fails exactly if a consensus rule is broken; the pool goes down by what the receipt says; value is conserved if the EVM conserves it |
| StateProcessors.Process | BSC/core/state_processor.go:381-435 | succeeds exactly if every transaction applies in turn, with that state; pool remainder plus used gas is the block gas limit, receipts are those of the common transactions with prefix sums, value is conserved |
| GasLimits.StepBound | BSC/core/block_validator.go:178-209 | each limit moves by strictly less than a 256th of the parent and never below the minimum |
| GasLimits.StaysInRange | BSC/core/block_validator.go:178-209 | a limit in the target range stays there |
| GasLimits.NextInRange | BSC/core/block_validator.go:178-209 | inside the range the next limit is the parent's less its 256th part plus one plus the 256th part of 3/2 of the gas used, clamped to the range |
| GasLimits.FollowsUse | BSC/core/block_validator.go:178-209 | monotone in the gas used; never falls from two thirds use on; a full parent raises it below the ceiling, an empty one lowers it above the floor |
| GasLimits.NextOutside | BSC/core/block_validator.go:196-208 | outside the range the limit moves by its step towards it or lands inside |
| GasLimits.Approaches | BSC/core/block_validator.go:178-209 | outside the range each block comes at least 18 closer or arrives |
| GasLimits.Converges | BSC/core/block_validator.go:178-209 | over any blocks the limit keeps the minimum, reaches the range once 18 per block cover the distance, and stays |

## Left out

- TxPools.TxPool.MakeRoom: that the evicted ones free enough slots is stated for a heap without stale entries only; with them it can fail.
- TxPools.TxPool.Add: no bound on slots is stated, because the fullness test compares the number of transactions, not slots; type, sign of the value, signature and intrinsic gas are given with the transaction.
- TxPools.TxPool.EvictIdle: heartbeats and the time are inputs of each operation, not fields that promotion and queueing update.
- TxPools.TxPool.Reset: a reset that is given up, for a missing block (`PoolHeads.Reinject`) or a missing state, after which promotion and demotion go on with the old state, is not an operation of Run.
- TxPools.TxPool.Run: of an account whose nonce went back only the two ends of its pending list are stated, not whether it has a gap in between.
- HeaderChains.HeaderChain.WriteHeaders: the number cache is not kept apart from the header cache, and an import after an aborted one, which finds headers in the caches only, is not modelled.
- HeaderChains.HeaderChain.GetAncestor: for a number that is not that of the header only the bounds are stated, since the answer depends on what happens to be cached.
- BlockChains.BlockChain.WriteBlockWithState: state commit and its error, receipts, logs and events are not modelled.
- ChainIndexers.ChainIndexer.HandleNewHead: checkpoints, children and the cascaded head are not modelled.
- Feeds.Feed.Send: the type check and its panic, a channel subscribed twice, and runs that block forever are not modelled.
- Feeds.Feed.HandleWake: a removal request for a channel that is not held, on which the code would panic, does not occur.
- StateProcessors.Process: the DAO fork, contract upgrades, Finalize, receipts' logs and blooms are not modelled.
- Journaling, metrics, announcements and timers of the pool.
- Freezer, snapshots, header and block verification, rewinding with SetHead, and fast sync.
- The EVM, the state database and its tries: any outcome is allowed that returns no more gas than it was given.
- The import loop over batches of blocks, light processing, networking, RPC, wallets and cryptography.
