# A verified model of LoveBlock's core structures

LoveBlock is an Ethereum client written in Go. Nine of its components keep a
fast or concurrent structure that has to agree with a simple mathematical one.
This project models those components in Dafny and proves the agreement.
`dafny verify dfyconfig.toml` checks everything.

| component | source | files |
|---|---|---|
| shared notions | | `Basics` |
| binary Merkle tree hasher | `bmt/` | `BmtReference`, `BmtHasher`, `BmtRefinement`, `BmtTheorems` |
| transaction lists and pool | `core/tx_list.go`, `core/tx_pool.go` | `Heap`, `TxListSpec`, `TxLists`, `TxPriced`, `TxPoolSpec`, `TxPoolFairness`, `TxPoolSteps`, `TxPoolAdding`, `TxPool` |
| event feed | `event/feed.go` | `EventFeed` |
| header chain | `core/headerchain.go` | `Chains`, `HeaderChain` |
| block reorganisation | `core/blockchain.go`, `core/database_util.go` | `TxLookup`, `BlockChain` |
| weighted random selection | `les/randselect.go` | `WrsTree`, `WeightedSelect` |
| gas and balances | `core/state_transition.go`, `core/gaspool.go`, `core/state_processor.go`, `core/state/statedb.go` | `Gas` |
| chain indexer | `core/chain_indexer.go` | `ChainIndexer` |
| light transaction pool | `light/txpool.go` | `LightPool` |
| star-node confirmation and fork choice | `core/blockchain.go` | `Confirmations`, `ForkChoice`, `StarNodes` |

## How the model is built

- Hashing is a parameter: any injective function that never gives the zero
  hash. A header stands for its block, since its transaction root fixes the
  transactions. The BMT's base hash is a parameter without any assumption.
- Concurrency is a step system. The hasher's goroutines take one step at a time,
  each at one shared node, the feed's senders, subscribers and unsubscribers
  likewise, and the theorems range over all runs. The indexer is a class with
  one method for each critical section and each unlocked read; since every
  method keeps the class invariant, every interleaving does.
- Sequential state is a class whose methods update its fields, proved against
  functions of the old state; the properties are class invariants, and lemmas
  about those functions.
- Random numbers, clocks, the network, the virtual machine and the chain
  database seen by a reader are parameters, so every claim holds for all of
  their behaviours.

## Where the code and its documentation differ

- `isCurAndStableBlockInSameChain` looks up the same block in every round of its
  loop. It answers whether the current block is a genesis or the stable block,
  not whether the stable block is an ancestor. Above the stable block it always
  says no (`StarNodes.SameChainIsRight`); `StarNodes.ChildIsDenied` is an input
  where that is wrong.
- The indexer's comment says a section is marked when no reorganisation
  occurred. The code notices only reorganisations that reach below the section.
  `ChainIndexers.ChainIndexer.FinishSection` says exactly when the two agree;
  in `ChainIndexers.ReorgIsMissed` a stale section is stored and not redone.
- A comment says an overflowing queue drops the oldest transactions. The code
  drops those of the most recently active senders (`TxPools.TxPool.TruncateQueue`,
  and `TxPools.NewerQueueGoes` for a case).
- The BMT toggle counts in an int32 that wraps after 2^31 - 1 steps; from then
  on neither arrival at a node waits (`BmtTheorems.ToggleTellsArrivals`).
- `SetHead` can leave headers without a parent: exactly if some known header
  branches off the dropped part of the path (`HeaderChains.HeaderChain.SetHead`,
  and `HeaderChains.RewindCanOrphan` for a run).
- A reorganisation loses the lookup entry of a transaction that stands on both
  sides of the fork (`TxLookup.ReorgLookups`, and `BlockChains.RepeatLosesEntry`
  for a run of three blocks). Only blocks stored without being executed can
  repeat a transaction.
- The head is said to follow total difficulty. The code compares a new block's
  total with the number of the current block. The two choices are the same for
  every next block exactly if the current block's total is its number
  (`BlockChains.RuleIsByTotal`), which unit difficulties over a genesis of
  difficulty 0 keep (`BlockChains.BlockChain.WriteBlock`). Over a genesis of
  difficulty 1 a lower and lighter block takes over
  (`BlockChains.LowerBlockTakesOver`).
- The new head of a star node is meant to be the best block known below the
  stable one. The lists of children miss the node's own blocks, and after a
  restart everything before. `StarNodes.HeadIsBestDescendant` says exactly when
  the head is the best; in `StarNodes.MinedBlockIsForgotten` it is not.
- Every star node past the 64th counts as confirming. The decision is right for
  all confirmers if and only if there are at most 64 nodes
  (`Confirmations.DecisionIsHonest`); in `Confirmations.LoneConfirmer` one of 192
  nodes has the two thirds.
- A fee or refund that goes to an account that destroyed itself in the same
  transaction disappears with it. `Gas.ApplyTransaction` and `Gas.Process` say
  exactly when money is lost, `Gas.DeadCoinbaseLosesFee` is a case.
- When the headers of a new chain are not known down to the fork, the light pool
  stops walking back early and can keep mined lists of blocks that are no longer
  on its head's chain. `LightPools.LightPool.ReorgOnNewHead` says exactly when,
  `LightPools.GapLeavesList` is a run.
- The light pool's changes are meant to be what was mined and rolled back. A
  block that is looked at although it has a list already, or that holds a just
  rolled back transaction twice, makes the pool report a transaction as mined
  that was not pending. `LightPools.LightPool.ReorgOnNewHead` says exactly when;
  `LightPools.GapMisreports` and `LightPools.RepeatIsMisreported` are runs.

## Model

| member | source | states |
|---|---|---|
| `BmtTheorems.HasherRefinesReference` | bmt/bmt.go:292-372 | for every segment size and count, every data given to one Write and every interleaving, the result of Sum is the reference hash of all of the data, or above the capacity of exactly that many first bytes; no goroutine is left running, and every node can be used again |
| `BmtTheorems.RunIsGood` | bmt/bmt.go:441-493 | every state of every run from a clean tree keeps the ownership invariant of nodes and goroutines, or has the result and is being released |
| `BmtTheorems.NeverStuck` | bmt/bmt.go:441-493 | until Sum has returned, some goroutine or the main thread can always take a step |
| `BmtTheorems.RunsEnd` | bmt/bmt.go:441-493 | every run has at most as many steps as its first state's rank |
| `BmtTheorems.StaysClean` | bmt/bmt.go:424-439 | a tree released after n chunks is clean for the next, as long as the 32-bit counters last |
| `BmtTheorems.NewTreeIsClean` | bmt/bmt.go:253-275 | a new tree is clean and unused, so that the theorems start from it |
| `BmtTheorems.ToggleTellsArrivals` | bmt/bmt.go:505-510 | the toggle tells first from second arrival exactly while the wrapping counter is not negative |
| `BmtTheorems.CounterWrapsAround` | bmt/bmt.go:505-510 | at the largest int32 the counter wraps, and then neither arrival waits |
| `BmtRefinement.EveryoneWaits` | bmt/bmt.go:462-493 | when one goroutine holds the result, every other one has stopped at a node |
| `BmtRefinement.MoveKeeps` | bmt/bmt.go:462-493 | a goroutine moving up to the parent node keeps the invariant |
| `BmtRefinement.FinaliseKeeps` | bmt/bmt.go:529-546 | marking the zigzag path of the last segment as unbalanced keeps the invariant |
| `BmtRefinement.SendKeeps` | bmt/bmt.go:462-493 | the goroutine at the top sends the expected hash and leaves every node settled |
| `BmtRefinement.ReleaseKeeps` | bmt/bmt.go:424-439 | clearing the flags along the last path keeps all nodes settled and ends with the same result |
| `BmtRefinement.OutIsTreeHash` | bmt/bmt.go:462-493 | what a node passes up is the tree hash of the slice below it |
| `BmtRefinement.ExpectedIsReference` | bmt/bmt_r.go:59-85 | the hash expected at the top for what Write took is the reference hash of the whole input |
| `BmtRefinement.TreeFits` | bmt/bmt.go:520-525 | a tree of the computed depth has a leaf for every segment |
| `BmtReference.RefIsTreeHash` | bmt/bmt_r.go:67-85 | the recursive span-halving hash of a slice is the hash by tree height, for every span that covers it |
| `BmtReference.RefSplits` | bmt/bmt_r.go:67-85 | a chunk longer than half a node is hashed as its two halves, left before right, a right part of one segment unhashed |
| `BmtReference.SpanIsPow2` | bmt/bmt_r.go:39-55 | the reference span is a power of two and at least half the segment count |
| `BmtReference.NewRefSpan` | bmt/bmt_r.go:39-55 | the doubling and halving loop computes that span |
| `BmtHasher.Write` | bmt/bmt.go:333-372 | what one Write launches and keeps open is together all of the data, or above capacity exactly that many first bytes, cut into full double segments and a last one that is not empty unless the data is |
| `BmtHasher.WriteSegments` | bmt/bmt.go:356-369 | the cursor loop cuts the input into consecutive double segments |
| `BmtHasher.NewTree` | bmt/bmt.go:253-275 | the tree has 2^(depth-h) nodes of each height h, all clean, the top one marked root |
| `BmtHasher.ComputeDepth` | bmt/bmt.go:520-525 | the halving loop computes the depth used everywhere else |
| `TxLists.TxSortedMap.Put` | core/tx_list.go:73-79 | replaces or adds one nonce; the index stays a heap of exactly the nonces and the cache valid |
| `TxLists.TxSortedMap.Forward` | core/tx_list.go:84-98 | removes exactly the nonces below the threshold and returns them in order |
| `TxLists.TxSortedMap.Filter` | core/tx_list.go:102-123 | removes exactly what the filter matches and returns each once |
| `TxLists.TxSortedMap.Cap` | core/tx_list.go:127-148 | keeps exactly the lowest `threshold` nonces and returns the rest in descending order |
| `TxLists.TxSortedMap.Remove` | core/tx_list.go:152-169 | removes exactly the given nonce, from the index too |
| `TxLists.TxSortedMap.Ready` | core/tx_list.go:178-193 | takes out exactly the gap-free run from the least nonce, if that is not above start |
| `TxLists.TxSortedMap.Flatten` | core/tx_list.go:203-216 | returns the nonce-sorted listing of the map and may cache it |
| `TxLists.TxList.Add` | core/tx_list.go:251-272 | accepts a replacement exactly when its price is above the old one and, up to the rounding of the division, at least the old one raised by the bump, stated by cross-multiplied prices; the caps stay bounds |
| `TxLists.OutbidsByBump` | core/tx_list.go:255-262 | the threshold rounded down, in prices times a hundred; a bump of 10 percent asks 110 against 100 and 2 against 1 |
| `TxLists.TxList.Forward` | core/tx_list.go:277-279 | removes exactly the nonces below the threshold; the caps bound what is left |
| `TxLists.TxList.Cap` | core/tx_list.go:318-320 | keeps exactly the lowest nonces; the caps bound them |
| `TxLists.TxList.Ready` | core/tx_list.go:345-347 | takes out exactly the run that is ready; the caps bound the rest |
| `TxLists.TxList.Flatten` | core/tx_list.go:362-364 | the nonce-sorted listing, with list and caps unchanged |
| `TxLists.TxList.Filter` | core/tx_list.go:290-314 | the short circuit over the caps gives what a full scan would; exactly what exceeds one of the limits is removed; strict lists also return everything behind the first removed |
| `TxLists.TxList.Remove` | core/tx_list.go:325-336 | removes the transaction and, if strict, returns all later ones as invalid |
| `TxListSpec.StrictPartition` | core/tx_list.go:290-314 | removed, invalidated and kept transactions partition a strict list |
| `TxListSpec.StrictKeptGapless` | core/tx_list.go:290-314 | a gap-free strict list is gap-free after a filter |
| `TxListSpec.LowestIsPrefix` | core/tx_list.go:127-148 | the k transactions with the fewest nonces below them are the first k of the sorted listing |
| `TxListSpec.SplitPoint` | core/tx_list.go:84-98 | a listing splits at a threshold into the listings of both sides |
| `TxPriced.PricedList.Put` | core/tx_list.go:403-405 | the heap then covers the new transaction too |
| `TxPriced.PricedList.Removed` | core/tx_list.go:410-424 | whether or not it re-heaps, every live transaction keeps a heap entry |
| `TxPriced.PricedList.Cap` | core/tx_list.go:428-455 | returns exactly the remote transactions below the threshold; the rest stay covered |
| `TxPriced.PricedList.Underpriced` | core/tx_list.go:459-481 | true exactly for a remote transaction no dearer than every pooled one, despite stale entries |
| `TxPriced.PricedList.Discard` | core/tx_list.go:485-508 | returns the cheapest remote entries, as many as asked or all there are, and the rest stay covered; a transaction queued again after a demotion has two entries, so fewer distinct ones may go |
| `TxPools.TxPool.constructor` | core/tx_pool.go:216-256 | an empty pool satisfies all invariants |
| `TxPools.TxPool.EnqueueTx` | core/tx_pool.go:675-696 | the queue takes the transaction unless it fails to outbid; books of `all`, pending, queue and heap stay in agreement |
| `TxPools.TxPool.PromoteTx` | core/tx_pool.go:713-746 | the transaction moves into pending and the pending nonce behind it, or the better one with its nonce stays; the books agree |
| `TxPools.TxPool.Requeue` | core/tx_pool.go:880-883 | demoted transactions all get back into the queue: none is refused |
| `TxPools.TxPool.RemoveTx` | core/tx_pool.go:860-898 | the transaction goes, later pending ones are requeued, the pending nonce falls to the gap, an account left without pending ones loses its heartbeat, and gap-free runs stay so |
| `TxPools.TxPool.PromoteAccount` | core/tx_pool.go:913-953 | stale and unpayable ones go, the ready run moves to pending, and the queue is capped |
| `TxPools.TxPool.PromoteAccounts` | core/tx_pool.go:911-953 | pending lists only grow, other accounts keep both lists, each account asked for gets exactly its ready run, and each handled queue lies beyond the pending run and within its limit |
| `TxPools.TxPool.PromoteAll` | core/tx_pool.go:903-953 | every account asked for, or every one with a queue, gets exactly its ready run and the pending nonce behind it, the others are untouched, and the heartbeat of exactly those that had something promoted is now |
| `TxPools.TxPool.TruncatePending` | core/tx_pool.go:954-1024 | nothing happens within GlobalSlots; else pending ends within it, by less than one transaction per sender, or no remote sender is above AccountSlots; nobody is cut below AccountSlots, locals and small senders not at all, whoever is cut keeps as much as any other remote sender, and pending nonces fall to the lowest nonce cut if that is lower |
| `TxPools.TxPool.Equalise` | core/tx_pool.go:976-1000 | cutting offenders down in rounds keeps them level, and the running counter is the true total |
| `TxPools.TxPool.CutOne` | core/tx_pool.go:984-997 | one cut takes the highest nonce and lowers the pending nonce to it |
| `TxPools.TxPool.TruncateQueue` | core/tx_pool.go:1025-1064 | nothing happens within GlobalQueue; else the queue ends at exactly GlobalQueue, or above it without remote senders; lists are cut from the top, locals are spared and the latest active go first |
| `TxPools.NewerQueueGoes` | core/tx_pool.go:1025-1064 | room for one queued transaction; two remote senders each add one that is promoted and one behind a gap: the more recently promoted sender loses the latter, the other keeps it |
| `TxPools.TxPool.PromoteExecutables` | core/tx_pool.go:903-1064 | lists and pending nonces are exactly those of the promoted accounts, cut by the two limits in the order of the heartbeats; local senders keep all they had pending, nobody falls below AccountSlots or what they had, and whatever leaves the pool was stale, unpayable, beyond an account's queue limit, cut or evicted; both limits hold, gap-free runs stay gap-free and pending payable |
| `TxPoolSteps.WhyGone` | core/tx_pool.go:903-1064 | every transaction that leaves has one of those reasons |
| `TxPoolSteps.Survivors` | core/tx_pool.go:954-1024 | cutting spares locals and the guaranteed slots, measured against the lists before promotion |
| `TxPoolSteps.CutMore` | core/tx_pool.go:984-997 | cutting one more nonce keeps every pending nonce the lesser of its old value and the lowest nonce cut |
| `TxPoolSteps.LowestCount` | core/tx_pool.go:937-944 | capping a longer list leaves exactly as many as the cap allows |
| `TxPools.TxPool.EvictIdle` | core/tx_pool.go:307-322 | exactly the queues of idle remote senders are dropped |
| `TxPools.TxPool.MakeRoom` | core/tx_pool.go:615-630 | in a full pool the newcomer is refused exactly if remote and no dearer than all; otherwise only cheapest remote ones go, at least one if there is any and at most down to one below the limit, and every list is exactly what their removal leaves |
| `TxPools.TxPool.RemoveAll` | core/tx_pool.go:624-629 | in whatever order: pending lists are cut at the first removed nonce, what was behind it is queued, and pending nonces and heartbeats follow |
| `TxPoolAdding.RemovedMore` | core/tx_pool.go:860-898 | removing one more transaction turns the lists without a set into those without the larger one |
| `TxPoolAdding.StrictCut` | core/tx_pool.go:871-883 | taking one more out of the kept part cuts it there and invalidates exactly what was kept behind |
| `TxPools.TxPool.Add` | core/tx_pool.go:602-670 | refused exactly if known, invalid, underpriced in a full pool, or not outbidding its rival; accepted only if well formed, within gas limit, nonce, balance and, for remote senders, minimum price, and always so while there is room and no rival; all books after making room and after taking its place are exact; gap-free runs are kept and pending stays payable |
| `TxPools.TxPool.Place` | core/tx_pool.go:631-670 | refused exactly if a pooled transaction of this sender and nonce is not outbid; else that one goes, the newcomer stands in its list or the queue, a local sender is noted when queued, and nothing else changes |
| `TxPoolSteps.OneRival` | core/tx_pool.go:631-670 | a sender has at most one pooled transaction with a nonce, the pending or the queued one |
| `TxPools.TxPool.AddTx` | core/tx_pool.go:777-792 | adds as add does; exactly if the newcomer was taken and replaced nothing, its sender is promoted from there and both limits hold, else nothing more happens; what leaves went to make room, is the outbid rival, or leaves that promotion for one of its reasons; all invariants are kept |
| `TxPools.TxPool.AddTxs` | core/tx_pool.go:804-827 | every transaction of the batch is added to exactly what the one before left, then exactly the senders of what replaced nothing are promoted; each error is reported, what is missing was dropped at one of the batch or by that promotion for one of its reasons, and the limits hold unless only replacements were added |
| `TxPoolAdding.BatchAll` | core/tx_pool.go:804-827 | whatever a batch loses went to make room for one of it or was outbid by one, and nothing is new but its own |
| `TxPoolAdding.AddsPays` | core/tx_pool.go:602-670 | adding keeps everything pending payable and not behind the chain |
| `TxPoolAdding.AddsSound` | core/tx_pool.go:555-591 | what is accepted meets every condition of validation, and what meets them is accepted while there is room and no rival |
| `TxPools.TxPool.SetGasPrice` | core/tx_pool.go:460-469 | afterwards exactly the local or sufficiently priced transactions are left, in lists that are exactly what the removal of the others leaves |
| `TxPools.TxPool.DemoteUnexecutables` | core/tx_pool.go:1070-1110 | each pending list becomes its executable start, exactly the stale and unpayable transactions leave the pool, and the books agree |
| `TxPools.TxPool.DropUseless` | core/tx_pool.go:1075-1097 | of one pending list the useless go, what they invalidate is queued again and never refused |
| `TxPools.TxPool.Demote` | core/tx_pool.go:1070-1110 | lists, pooled transactions, pending nonces and heartbeats after demotion are exact, and what is pending is payable |
| `TxPools.TxPool.Rebase` | core/tx_pool.go:396-425 | up to the pending nonces: the reinjected batch is added as in AddTxs over pending nonces forgotten, then pending lists are cut to what is executable at the new head and exactly the useless pending ones go; losses have their reasons for every sender |
| `TxPools.TxPool.Reset` | core/tx_pool.go:396-427 | after any change of head the books agree, everything pending is at or above the chain nonce, affordable and within the gas limit, and the pool limits hold; the pool passes exactly through adding and promoting the reinjected, demotion, promotion of all and the two limits, in lists and in pending nonces, and every loss of any sender has its reason in one of these; local senders lose only what became useless or was outbid; without reinjection lists without holes give exact runs from the new chain nonce |
| `TxPoolAdding.WhyLost` | core/tx_pool.go:396-427 | every transaction lost over a reset was dropped for a reinjected one, by the promotion after it, by demotion or by the last promotion; a local one only if useless or outbid |
| `TxPoolSpec.RemovalKeepsRuns` | core/tx_pool.go:860-898 | removing any nonce keeps pending the run from chain nonce to pending nonce, with the queue beyond |
| `TxPoolSpec.TotalSet` | core/tx_pool.go:954-958 | changing one list changes the total by the difference of lengths |
| `TxPoolSteps.PromotionStep` | core/tx_pool.go:913-953 | promoting one account keeps every run and all other accounts |
| `TxPoolSteps.PromotionPays` | core/tx_pool.go:913-953 | whatever is promoted is payable and not behind the chain |
| `TxPoolSteps.PayableMeans` | core/tx_pool.go:1075-1090 | payable means not behind the chain, affordable and within the block's gas limit |
| `TxPoolSteps.DemotedRun` | core/tx_pool.go:1070-1110 | what stays executable of a list without holes is a run from the new chain nonce, or nothing |
| `TxPoolSteps.RunsHaveNoHoles` | core/tx_pool.go:396-427 | lists that are exact runs have no holes, whatever the next head |
| `TxPoolFairness.StageSpares` | core/tx_pool.go:961-1001 | at every stage of equalising, the sparing and fairness conditions hold |
| `TxPoolFairness.LevelSpares` | core/tx_pool.go:1002-1022 | lowering all offenders together keeps both conditions and reaches AccountSlots for all |
| `TxPoolFairness.CapByOne` | core/tx_pool.go:984-997 | capping a list at one less takes out its greatest nonce |
| `EventFeed.SendDelivers` | event/feed.go:129-187 | in every run, a Send that returns has sent to each channel once for every subscription not removed when it took up the inbox, save those removed while still active, and to nobody else; it returns the number of sends and leaves the cases less the removed ones; a channel nobody unsubscribes gets the value as often as it was subscribed before |
| `EventFeed.BooksCount` | event/feed.go:76-125 | what is live is what was subscribed less what was unsubscribed, and no more remove calls are under way than were made |
| `EventFeed.SendAccounts` | event/feed.go:133-179 | at every step of a Send, each subscription it owes has an active case, was sent to, or was removed while active |
| `EventFeed.FindNeverFails` | event/feed.go:104-125 | in every run no remove call misses its case, so nothing panics, and every live subscription has a case |
| `EventFeed.NobodyIsStuck` | event/feed.go:104-187 | a Send can always go on, with either outcome of a try and with every active case and waiting removal of a select; removals never wait for an idle feed |
| `EventFeed.RunsKeepInv` | event/feed.go:104-187 | every reachable state accounts for every case of every channel |
| `EventFeed.SendIsBounded` | event/feed.go:151-179 | whatever else goes on, one Send takes at most as many steps as its rank at the start |
| `EventFeed.SendStepDescends` | event/feed.go:151-179 | each step of Send shortens the case list, its active part or the scan |
| `EventFeed.InterruptKeeps` | event/feed.go:167-174 | serving an unsubscription in the middle of a Send keeps the accounts |
| `EventFeed.DeactivatedElements` | event/feed.go:225-229 | the swap rearranges the list and takes exactly one case out of the active prefix |
| `EventFeed.Find` | event/feed.go:210-217 | finds the first occurrence, or none exactly if absent |
| `EventFeed.Delete` | event/feed.go:220-222 | shifting in place removes exactly that case and touches nothing before or beyond |
| `EventFeed.Deactivate` | event/feed.go:225-229 | in place, exchanges the case with the last active one |
| `Chains.ChainsMeet` | core/headerchain.go:165-177 | chains that share a block share everything below it |
| `Chains.ChainIsUnique` | core/headerchain.go:165-177 | the linked sequence ending in a block is its ancestor path |
| `HeaderChains.HeaderChain.constructor` | core/headerchain.go:94-107 | a chain of one genesis satisfies the invariants |
| `HeaderChains.Open` | core/headerchain.go:72-108 | fails exactly without a genesis; resumes from the header of the stored head block, or else from the genesis |
| `HeaderChains.Reopen` | core/headerchain.go:94-107 | opening what a chain has written restores its invariants if and only if the stored head block is the current header |
| `HeaderChains.HeaderChain.WriteHeader` | core/headerchain.go:132-197 | the canonical index stays exactly the head's ancestor path with nothing above, totals stay path sums, no header is heavier than the head, and the head moves exactly on a heavier total or a won coin flip |
| `HeaderChains.HeaderChain.TrimCanon` | core/headerchain.go:157-164 | the deletion loop ends and removes exactly the numbers above the new head |
| `HeaderChains.HeaderChain.Reroute` | core/headerchain.go:165-181 | the overwrite loop ends at the fork and leaves exactly the new path indexed |
| `HeaderChains.HeaderChain.SetHead` | core/headerchain.go:406-440 | leaves the prefix of the old path, deletes exactly the headers above it, and keeps the invariants if and only if no known header branches off the deleted part |
| `HeaderChains.OrphansBranchOff` | core/headerchain.go:406-440 | the headers orphaned by dropping a path are exactly those that branch off it |
| `HeaderChains.RewindCloses` | core/headerchain.go:406-440 | what is left is closed under parents if and only if no remaining header is the child of a deleted one |
| `HeaderChains.RewindCanOrphan` | core/headerchain.go:406-440 | after writing a path and a side header, SetHead leaves the side header without a parent |
| `HeaderChains.WeighMore` | core/headerchain.go:138-152 | one more header with a known parent keeps every total the sum along its path |
| `HeaderChains.TopsKept` | core/headerchain.go:153-156 | comparing the new total with the head's keeps a heaviest head |
| `BlockChains.BlockChain.Reorg` | core/blockchain.go:1522-1614 | succeeds exactly if both chains are known down to a common block; then heights from the fork on are renumbered, lookups re-entered and dropped ones deleted; on failure nothing changes |
| `BlockChains.BlockChain.FindFork` | core/blockchain.go:1567-1585 | walking both chains in step finds the fork, or fails exactly if a block on the way is missing |
| `BlockChains.BlockChain.Descend` | core/blockchain.go:1545-1565 | the longer chain is walked down to the other's height, collecting exactly the blocks and transactions above |
| `BlockChains.BlockChain.InsertAll` | core/blockchain.go:1597-1607 | inserting in ascending order renumbers and re-enters exactly the new blocks |
| `BlockChains.BlockChain.constructor` | core/genesis.go:261-283 | a chain of one empty genesis satisfies the invariants; its total is its difficulty |
| `BlockChains.BlockChain.WriteBlock` | core/blockchain.go:979-1090 | the head moves exactly if the new total exceeds the current block's number, or equals it and the new block is not higher; over every sequence of writes, each height up to the head maps to its ancestor, exactly the heights from the fork up to the new head are rewritten, and none for a side block; the lookup table changes exactly by the entered and deleted transactions, and holds exactly the chain's transactions while none repeats; unit difficulties keep totals at number plus the genesis difficulty, and then a block becomes the head exactly if it is at most that much lower |
| `BlockChains.RuleIsByTotal` | core/blockchain.go:979-1061 | the code's choice is the choice by total difficulty for every next block if and only if the current block's total is its number |
| `BlockChains.LowerBlockTakesOver` | core/blockchain.go:1051-1090 | genesis of difficulty 1 and unit difficulties: after two blocks a side block of height 1 becomes the head, lower and lighter than the one it replaces |
| `BlockChains.BlockChain.Adopt` | core/blockchain.go:1061-1087 | the new head's chain is indexed whether or not its parent was the head, exactly the heights from the fork up to it are rewritten, and the lookup table is exactly the old one with the new blocks entered and what only the old ones had deleted |
| `BlockChains.CanonFollows` | core/blockchain.go:1522-1614 | renumbering from the fork turns agreement with the old chain into agreement with the new |
| `BlockChains.LookupsFollow` | core/blockchain.go:1597-1614 | the lookup table agrees with the new chain if and only if no dropped transaction also stands below the fork |
| `BlockChains.ForkIsKnown` | core/blockchain.go:1560-1585 | in a store closed under parents with one genesis, a reorganisation cannot fail |
| `BlockChains.FindCommonAncestor` | core/database_util.go:628-652 | returns the last common ancestor exactly if the headers down to it are known |
| `BlockChains.TxDifference` | core/types/transaction.go:329-344 | keeps exactly the first list's transactions that are not in the second |
| `BlockChains.BlockChain.Reinjected` | core/tx_pool.go:352-395 | the pool takes back exactly the old chain's transactions above the fork that the new chain lacks, or gives up exactly if the fork is not known |
| `TxLookup.LookupsPoint` | core/database_util.go:484-501 | the table has an entry exactly for the chain's transactions, pointing at a block and index that hold it |
| `TxLookup.ReorgLookups` | core/blockchain.go:1597-1614 | entering added and deleting dropped transactions gives the new chain's table if and only if no transaction stands on both sides of the fork |
| `TxLookup.NoRepeatsSplit` | core/blockchain.go:1597-1614 | on a chain without repeated transactions that condition always holds |
| `BlockChains.RepeatLosesEntry` | core/blockchain.go:1597-1614 | heights 1 and 2 hold the same transaction and another block of unit difficulty without it takes over at height 2: the transaction is on the chain and has no entry |
| `BlockChains.BlockChain.WriteTxLookupEntries` | core/database_util.go:484-501 | enters every transaction of the block at its index |
| `WrsTree.Totals` | les/randselect.go:98-104 | in every tree in shape, capacity is 8^(level+1), and weight and item count are those of the places below |
| `WrsTree.Insert` | les/randselect.go:107-132 | never runs off the branches, fills a vacant place, returns its index and changes no other |
| `WrsTree.FindBranch` | les/randselect.go:108-114 | in a node with room the search always finds a branch with room |
| `WrsTree.SetWeight` | les/randselect.go:136-157 | changes exactly the place with that index, vacating it for weight zero, and returns the difference |
| `WrsTree.Choose` | les/randselect.go:160-173 | every value below the total weight finds the place whose interval of the prefix sums contains it |
| `WrsTree.ChancesAreWeights` | les/randselect.go:160-173 | each place is chosen by exactly as many values as it has weight |
| `WrsTree.HitsOnce` | les/randselect.go:160-173 | no value is in the interval of two places |
| `WrsTree.CellAt` | les/randselect.go:136-157 | index arithmetic by branch and rest addresses the right place |
| `WeightedSelect.RaisedCells` | les/randselect.go:63-69 | a new root level keeps every index and adds seven times as many places |
| `WeightedSelect.WeightedRandomSelect.constructor` | les/randselect.go:38-40 | an empty selector satisfies the invariants |
| `WeightedSelect.WeightedRandomSelect.SetWeight` | les/randselect.go:54-73 | updates exactly one item's weight and place, keeps all other indices, and shifts the total by the difference |
| `WeightedSelect.WeightedRandomSelect.Choose` | les/randselect.go:79-94 | ends for all random numbers and weights; each attempt looks at the place its random number below the total hits and stores that item's own weight, succeeds exactly if that is at least the stored one or the second random number is below it, and the next starts from what it leaves; nothing is returned exactly if no item is left |
| `WeightedSelect.FirstDrawDecides` | les/randselect.go:75-94 | while no weight has fallen, the choice is the item whose interval holds the first random number |
| `WeightedSelect.ZeroSum` | les/randselect.go:80-83 | the total is zero exactly if there are no items |
| `LightPools.LightPool.ReorgOnNewHead` | light/txpool.go:217-274 | even when stopped early or at a gap, pending and mined stay disjoint and no local transaction is made up, nor lost but by clearing; the mined lists are all for blocks of the head's chain if and only if none is left behind between the fork and the height where the walk stopped; pending is exactly what was rolled back and pending less the checked blocks' transactions, a checked block's list gains exactly what was pending when it was reached and is in it, other lists are unchanged; the changes are the net difference of pending if and only if no block checked with something pending has a list left from before or repeats a rolled back transaction, and otherwise something not pending before is reported mined |
| `LightPools.LightPool.MoveHead` | light/txpool.go:218-252 | the same before anything is cleared: exactly the lists above the stopping height go, lists are added only for checked blocks, the head is the last one checked, and the condition for the net difference is the same |
| `LightPools.OnChainIsNet` | light/txpool.go:218-252 | while all lists are of the old chain and no block repeats a transaction, that condition holds |
| `LightPools.ListedMore` | light/txpool.go:172-191 | checking a block gives its list exactly what it holds of what is still pending, and leaves the lists of the blocks checked before |
| `LightPools.ListsOnChain` | light/txpool.go:218-274 | the condition is exact: the lists kept are on the head's chain exactly if none was left behind or no new block was checked |
| `LightPools.GapLeavesList` | light/txpool.go:226-234 | a run over a gap: the head moves to another branch and the list of a block off it stays |
| `LightPools.GapMisreports` | light/txpool.go:172-191 | from there, with another transaction pending and all headers known, the head returns: the listed transaction is reported as mined once more and nothing pending has changed |
| `LightPools.RepeatIsMisreported` | light/txpool.go:172-191 | the block that replaces the mined one holds the transaction twice: it is reported as mined though nothing is pending before or after |
| `LightPools.LightPool.FindAncestor` | light/txpool.go:218-236 | stops at the last common block, or exactly at the first gap of the new chain above it, and gives the hashes above on both sides |
| `LightPools.LightPool.CheckMinedTxs` | light/txpool.go:162-195 | marks and lists exactly what the block's list had and the pending transactions it holds, each time it holds them, does nothing if nothing is pending, or fails, exactly if block or receipts are missing, and changes nothing |
| `LightPools.LightPool.CheckAll` | light/txpool.go:245-252 | checks new blocks in ascending order up to the first that cannot be had, the head follows, and the changes stay exact up to the first misreport |
| `LightPools.LightPool.RollbackTxs` | light/txpool.go:199-209 | moves exactly the block's list back to pending and marks it |
| `LightPools.LightPool.ClearOld` | light/txpool.go:254-271 | forgets exactly the lists of canonical blocks that have become older than 500 |
| `LightPools.MarkedMined` | light/txpool.go:187-190 | what marking a list as mined leaves for each transaction: an entry, unless it was rolled back before and is listed once |
| `LightPools.MarkedRolledBack` | light/txpool.go:201-206 | marking as rolled back what is not marked mined enters exactly that, however often it is listed |
| `LightPools.CheckedNet` | light/txpool.go:172-191 | a block that makes the pool misreport nothing turns the exact changes into the new exact changes |
| `LightPools.CheckedWrong` | light/txpool.go:172-191 | a block with a list from before, or with a rolled back transaction twice, gives a wrong report |
| `LightPools.LightPool.constructor` | light/txpool.go:86-107 | starts at the current header with empty books |
| `LightPools.LightPool.Add` | light/txpool.go:388-415 | refused exactly if pending already or not valid; else pending, and apart from the mined lists exactly if not on one of them |
| `ChainIndexers.ChainIndexer.constructor` | core/chain_indexer.go:93-110 | an empty indexer satisfies the invariants |
| `ChainIndexers.ChainIndexer.NewHead` | core/chain_indexer.go:221-257 | keeps the invariants at any moment of the worker; a reorganisation removes exactly the sections from its own on, another head makes exactly the confirmed ones known |
| `ChainIndexers.ChainIndexer.ConfirmedIsDeep` | core/chain_indexer.go:247-253 | a section becomes known exactly when the required confirmations lie above it: the known ones are deep enough and the next one would not be |
| `ChainIndexers.ChainIndexer.SetValidSections` | core/chain_indexer.go:405-417 | the persisted count matches and exactly the heads below it stay |
| `ChainIndexers.ChainIndexer.StartSection` | core/chain_indexer.go:277-296 | takes up the first section not stored, with the head before it |
| `ChainIndexers.ChainIndexer.ReadHeader` | core/chain_indexer.go:351-364 | goes on exactly if the header follows on the last one, whatever happened to the chain meanwhile |
| `ChainIndexers.ChainIndexer.ResetFails` | core/chain_indexer.go:346-349 | gives up all sections and keeps the invariants |
| `ChainIndexers.ChainIndexer.CommitSection` | core/chain_indexer.go:365-369 | the section's head is its last header, unless the backend refuses |
| `ChainIndexers.ChainIndexer.FinishSection` | core/chain_indexer.go:301-321 | stores the section exactly if it was processed and no reorganisation reached below it meanwhile; that is the documented rule exactly unless the lowest section reached is this one |
| `ChainIndexers.ReorgIsMissed` | core/chain_indexer.go:277-321 | a reorganisation of the section itself between reading and storing: the stale head is stored and the section is not done again |
| `ChainIndexers.ChainIndexer.Restart` | core/chain_indexer.go:397-402 | the persisted count restores a valid state |
| `ChainIndexers.SectionsAreOneChain` | core/chain_indexer.go:341-370 | the stored sections together are one linked chain of headers from the genesis on |
| `Gas.IntrinsicGas` | core/state_transition.go:78-108 | fails exactly when the true value exceeds 64 bits, and is that value otherwise |
| `Gas.IntrinsicGasOf` | core/state_transition.go:78-108 | 21000 for an empty message, 32000 more for a creation, 4 for a further zero byte and 68 for any other |
| `Gas.GasPool.AddGas` | core/gaspool.go:29-35 | adds, or panics exactly above 64 bits |
| `Gas.GasPool.SubGas` | core/gaspool.go:39-45 | subtracts, or fails exactly when short |
| `Gas.StateTransition.BuyGas` | core/state_transition.go:167-184 | succeeds exactly if balance and pool suffice, leaves no negative balance, and changes nothing otherwise |
| `Gas.StateTransition.PreCheck` | core/state_transition.go:186-200 | rejects a wrong nonce exactly if the message wants it checked, then buys gas |
| `Gas.StateTransition.RunMachine` | core/state_transition.go:214-243 | fails exactly if the intrinsic gas is short or the value cannot be paid, and leaves what the machine left |
| `Gas.StateTransition.RefundGas` | core/state_transition.go:252-269 | refunds exactly the counter or half of the gas used, whichever is less, and never pushes the pool over 64 bits |
| `Gas.Refund` | core/state_transition.go:253-257 | the refund is at most half of the gas used, and less than that only if the counter is |
| `Gas.StateTransition.Settle` | core/state_transition.go:246-269 | refund and fee together are exactly what was paid in advance, even if sender and coinbase coincide |
| `Gas.StateTransition.TransitionDb` | core/state_transition.go:205-250 | succeeds exactly if applicable, and else fails with the first check that does not hold; gas used, balances, nonces and pool are exactly those of the machine's run settled with sender and coinbase, and before dead accounts are deleted the total of all balances changes only by what the machine did |
| `Gas.StateDB.Finalise` | core/state/statedb.go:525-540 | self-destructed accounts go with balance and nonce, all others stay |
| `Gas.ApplyTransaction` | core/state_processor.go:84-118 | the receipt carries cumulative gas and contract address; balances and nonces are exactly those of the settled run without the dead accounts; the total moves by the run less what is burnt, by the run alone if and only if no positive refund or fee goes to a dead sender or coinbase |
| `Gas.FinalTotal` | core/state_processor.go:93-101 | after deletion the total is the run's own plus the prepayment, less the credits to dead accounts |
| `Gas.BurntIffBurns` | core/state_transition.go:246-269 | something is burnt if and only if the price is positive and a dead sender has gas left or a dead coinbase earns |
| `Gas.DeadCoinbaseLosesFee` | core/state_processor.go:84-118 | a coinbase that destroys itself in a run of 60000 gas: the fee for the 13001 gas used after the refund is gone |
| `Gas.Process` | core/state_processor.go:55-77 | a block succeeds if and only if every message is applicable in the state the one before leaves, and else fails with the first one's error; the final state is that of the last run settled and without its dead accounts; each receipt tells its run's outcome, created address and gas; gas used plus gas left is the limit, receipts accumulate exactly and fit 64 bits, and the total changes by the machine's runs alone if and only if none of them burns a credit |
| `Gas.ProcessOne` | core/state_processor.go:64-71 | one step of that: the next state, the receipt and the change of the total are those of the message's run in the state before |
| `Gas.TotalAdd` | core/state_transition.go:167-184 | adding to one balance adds that much to the total |
| `Gas.SetReceiptsData` | core/blockchain.go:814-849 | derives each receipt's hash, contract address, own gas and the position of its logs in place, with 64-bit subtraction; fails exactly if the counts differ |
| `Gas.GasIsRecovered` | core/blockchain.go:832-837 | cumulative figures as Process leaves them give back every transaction's own gas |
| `Gas.LogsAreNumbered` | core/blockchain.go:838-846 | log numbers run on through the block |
| `Confirmations.Tracker.SetConsensusFlag` | core/blockchain.go:385-400 | the flag word of a hash stays exactly the set of its confirmers |
| `Confirmations.Tracker.VerifyConsensusOK` | core/blockchain.go:403-423 | true exactly if the counted confirmers are at least two thirds, rounded down; with at most 64 nodes these are distinct nodes that confirmed |
| `Confirmations.CountIsHonest` | core/blockchain.go:403-423 | the count is the number of distinct confirmers if and only if there are at most 64 nodes or all further ones confirmed |
| `Confirmations.CountIs` | core/blockchain.go:403-423 | the count is that of the confirmers among the first 64, plus every node beyond |
| `Confirmations.DecisionIsHonest` | core/blockchain.go:403-423 | the decision is right whoever confirms if and only if there are at most 64 nodes |
| `Confirmations.LoneConfirmer` | core/blockchain.go:385-423 | of 192 nodes the first one alone is found to be two thirds |
| `Confirmations.SetOne` | core/blockchain.go:394-398 | setting a bit changes that bit and no other |
| `ForkChoice.GetLeavesOfBlock` | core/blockchain.go:1454-1467 | collects exactly the childless blocks reachable below a block |
| `ForkChoice.BestOf` | core/blockchain.go:1425-1447 | the three loops find the highest block with the smallest hash |
| `ForkChoice.BestLeafIsBest` | core/blockchain.go:1417-1451 | the best leaf is the best of all descendants the lists of children lead to |
| `ForkChoice.BestIsUnique` | core/blockchain.go:1417-1451 | there is one best block, so the order of children does not matter |
| `StarNodes.HeadIsBestDescendant` | core/blockchain.go:1417-1451 | the chosen head descends from the stable block; it is the best of all known descendants if and only if it beats those the lists of children do not lead to, always if every stored block was entered |
| `StarNodes.StarChain.ProcConsensusMsg` | core/blockchain.go:1367-1391 | whatever the lists of children miss: stable height never falls, the stable block moves exactly to a higher known block with the quorum, with at most 64 nodes two thirds of distinct ones, and the head exactly to a best leaf when the code finds it off the stable chain |
| `StarNodes.StarChain.InsertBlock` | core/blockchain.go:1251-1296 | whatever the lists of children miss: a new block is entered under its parent, producer and own node are noted as confirming it and nothing else is, and it becomes stable exactly if higher and with the quorum, with at most 64 nodes two thirds of distinct ones; the head becomes the block if chosen, then a best leaf over the new lists below the stable block if the code finds it off the stable chain; lists that miss nothing stay so |
| `StarNodes.StarChain.StoreOwnBlock` | miner/worker.go:455-470 | a mined block is stored and may become the head, but is entered under no parent |
| `StarNodes.StarChain.Restart` | core/blockchain.go:220-245 | a new start keeps the store and forgets lists, confirmations and the stable block |
| `StarNodes.StarChain.IsCurAndStableBlockInSameChain` | core/blockchain.go:1394-1414 | what the loop really answers: the current block is a genesis or the stable block |
| `StarNodes.SameChainIsRight` | core/blockchain.go:1394-1414 | above the stable block the answer is always no; at or below it, but for a genesis, it is the documented one |
| `StarNodes.ChildIsDenied` | core/blockchain.go:1394-1414 | a child of the stable block is denied |
| `StarNodes.MinedBlockIsForgotten` | core/blockchain.go:1367-1391 | a block mined on the stable one is the head until a late confirmation arrives: the head falls back to the stable block |
| `StarNodes.FiledGrows` | core/blockchain.go:1293-1296 | entering a block under its parent keeps the lists naming only stored children |
| `StarNodes.CompleteGrows` | core/blockchain.go:1293-1296 | lists that name every stored block still do when a block is stored and entered |
| `StarNodes.FiledLists` | core/blockchain.go:1293-1296 | what lists of stored children name are the successors of their block |

## Left out

- Several Write calls for one chunk, ReadFrom and the length prefix of the BMT hasher: the remaining capacity ignores the open segment, so the refinement is stated for one Write after Reset.
- The tree pool of the BMT package and the draw and debug output.
- The exact value of the price list's stale counter: removals bump it for entries already popped, so only heap coverage is claimed.
- TxPools.TxPool.Reset: with reinjected transactions gap-free runs are not claimed, since a refused reinjection can leave a hole in a pending list. The transactions to reinject are a parameter, computed as in BlockChains.BlockChain.Reinjected.
- TxPools.TxPool.PromoteExecutables: the exact lists after promotion and the reasons are stated for accounts without repetition, as all callers pass them.
- Inside the pool a sender's list is its map of nonces, not the list object; both are proved against the same functions. Journals, event notifications and metrics of the pool are not modelled.
- Element type checks of the event feed and their panics. The backing array of a Send and its active prefix are a sequence and a length in the step system; find, delete and deactivate are proved on arrays.
- Header and block caches, which are taken to be transparent, and LevelDB, which is a map. Database write errors.
- Numbers wrapping after 2^64 headers, and total gas, weights or prices beyond their Go width, except where a row says so.
- BlockChains.BlockChain.WriteBlock: state tries, receipts, head pointers of the header chain and fast sync, and log events are not modelled. Canonical numbers above a lower new head stay as the code leaves them.
- The star nodes' own assignment of the current block does not rewrite the canonical table; the reorganisation results are stated without it.
- Rewinding a star node with SetHead while its lists of children still name the deleted blocks.
- WeightedSelect.WeightedRandomSelect.Choose: needs weights that are not negative, as the random number source does; tree nodes are values, not pointers.
- Checkpoints and child indexers of the chain indexer, its timers, and the non-atomic rollback when a backend reset fails.
- LightPools.LightPool.ReorgOnNewHead: needs the old head's headers known from the fork up, as the code does. The condition for the net difference is stated while pending and mined are disjoint, which every operation but adding a listed transaction again keeps. Lookup entries and relay calls are not modelled.
- LightPools.LightPool.Add: validation is a parameter, and the table of own nonces is not modelled.
- Gas.Process: signature checks, block rewards, log contents and blooms are not modelled, nor what state a failed block leaves, which the caller discards.
- The virtual machine, state trie, RLP, signatures and consensus engines.
- `les/retrieve.go`, `les/fetcher.go`, the downloader, p2p, RPC, console and wallets.
