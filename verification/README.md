# Verified models of Privora Core

This project models the stateful and arithmetic cores of Privora Core, a C++ full node, in Dafny 4.11 and proves what they are meant to guarantee. `dafny verify dfyconfig.toml` verifies everything. Each component has value-level definitions with the laws proved about them and, where the original updates objects in place, a class whose methods are proved against those definitions.

## Components

- **Lelantus anonymity groups** (`Surge`, `Lelantus`, `LelantusReplay`, `LelantusState`). The one-pass surge scan raises its flag exactly when some range of groups is overspent. On every run of connected blocks the group bookkeeping satisfies the scan's assumptions. Rebuilding the state from the block index gives back the live state if and only if the first minting block fits a group and no block spends from the group its own mints open; both failing families are exhibited.
- **Script check queue** (`CheckQueue`). The master and worker threads as a state machine over lock acquisitions, waits, wake-ups and batches. In every interleaving `nTodo` counts exactly the queued and in-flight checks, `Wait` returns the conjunction of all checks added, nothing deadlocks, and `Wait` takes a bounded number of productive steps.
- **Coins cache** (`Coins`, `CoinsView`). A stack of caches over a database refines a stack of flat maps along every admissible run; neither logic error is ever thrown.
- **Address manager** (`AddrMan`, `AddrManager`, `AddrStore`, `AddrLoading`, `AddrClaims`). Five redundant indexes stay consistent through every operation, evictions included, by means of an invariant that lets entries float between the tables. Saving and loading loses nothing, and an arbitrary stored form loads into a consistent manager exactly when no entry that finds a place shares its address, a condition read off the stored form.
- **Block assembly** (`Mempool`, `Miner`, `Packages`, `Assembler`). For every mempool DAG and every fee order: the blacklist is exactly what privacy spends, registrations and sporks keep out, cached package totals never understate what is missing, and the block that comes out is parents-first, final, within weight, sigop, size and privacy limits, and free of dependants of privacy spends, although the head of a package may be dropped silently.
- **Partial Merkle trees** (`PartialMerkle`, `MerkleBounds`, `FlagBits`, `MerkleTree`), the "Partial Merkle branch format" section of BIP 37: soundness of extraction on arbitrary input, the round trip over the wire, and the documented size bounds, each proved or with the exact condition under which it holds.
- **Cuckoo cache** (`Cuckoo`, `CuckooRuns`, `CuckooCache`). The number of kept slots of the current epoch is bounded on every run; insertion loses exactly one element; kept elements are always found.
- **Database transactions** (`DbKeys`, `DbOverlay`, `DbCursor`, `DbTransaction`). Transactions nested to any depth are overlays; the merging iterator enumerates the overlay in order; committing makes the parent equal to it; memory usage is the exact sum.
- **Big integers and block work** (`Limbs`, `BigUint`, `Compact`). Limb loops against natural numbers for any width, and the block work formula.
- **Block index** (`SkipHeights`, `Chain`). The skip list against the walk along parents, in a number of steps quadratic in the number of bits of the height; the active chain after `SetTip`; the fork point.
- **Base58** (`Radix`, `Base58`). Both round trips, and both "carry is zero" assertions from numeric bounds on the buffers.
- **Rolling bloom filter** (`Bloom`). Retention of the last `nElements` keys through generation wrap-around, on bit-packed words.

`Wrappers`, `Sets` and `Products` hold small shared facts.

## Modelling decisions

- Hash functions, keyed bucket hashes and the Merkle node hash are function-valued parameters. Injectivity of the node hash is a hypothesis only where a law needs it.
- Clocks, random choices and fee comparisons are parameters or arbitrary choices, so every outcome is covered.
- Exceptions and failed assertions of the original are modelled as results that are proved not to occur, or as error outcomes.
- Integers are unbounded unless width matters. Wrap-around is written out for the surge scan's unsigned subtraction, for limb arithmetic and for the epoch size of the cuckoo cache. 64-bit column sums are proved to fit.
- Block index entries of the Lelantus model are heights into the chain; those of `Chain` are objects with a mutable skip pointer.
- A bucket table of the address manager is, at value level, the map of its occupied slots; `AddrManager` keeps the two-dimensional arrays.

Where code and documentation disagree, the code is followed:

- src/merkleblock.h:47 promises at most 2N - 1 flag bits for N hashes. A descended node without a right child costs one more. `MerkleBounds.SizeBounds` proves exactly when the promise holds, and `MerkleBounds.LonelyTreeExceedsDocumentedBits` gives the smallest failing tree.
- src/merkleblock.h:34 promises at most 10 + ceil(32.25 N) bytes. `MerkleBounds.SizeBounds` proves exactly when that holds, and `MerkleBounds.FullTreeExceedsDocumentedSize` gives a block that misses it by a byte.
- src/cuckoocache.h:395-396 says the first displacement goes to location 0; the code takes location 1.
- src/coins.cpp:64-93: `AddCoin` without the overwrite flag detects an existing coin only if the cache already holds the entry. `Coins.AddCoinRefines` states exactly when it refuses and when the flags stay truthful, and `Coins.ReplacedCoinReturns` shows what happens otherwise.
- src/merkleblock.cpp:163: `ExtractMatches` clears the list of matches but not the list of positions.
- src/arith_uint256.cpp:68-81 clears the number before reading the operand, so multiplying a number by itself in place gives zero instead of its square; `BigUint.BaseUint.MulAssign` states both cases.
- src/miner.cpp:356-361 and src/miner.cpp:770-797: package selection refuses transactions a chain lock does not yet make safe, priority selection does not ask; `Assembler.CreateNewBlock` states which part of a block is safe.
- src/addrman.h:382-450: entries stored under one address twice leave mapAddr wrong; `AddrClaims.LoadsConsistently` states exactly when.

## Model

| member | source | states |
|---|---|---|
| Surge.SurgeFlagIffOverspent | src/lelantus.cpp:1216-1253 | the flag is raised if and only if some contiguous range of groups has more spends than borrowed plus own mints, for well-grouped counts |
| Surge.ScanFromDecides | src/lelantus.cpp:1224-1250 | from any point of the scan, with the window realising the minimum slack over all start points, the rest of the scan decides whether a range still to end is overspent |
| Surge.WindowStep | src/lelantus.cpp:1228-1249 | one iteration keeps the window the one of minimum slack, or the scan stops with an overspent range |
| Surge.BorrowingTooMuchHidesOverspending | src/lelantus.cpp:1242-1249 | a concrete state with more borrowed than minted where unsigned wrap-around hides an overspent range |
| Lelantus.MintAllGroups | src/lelantus.cpp:1142-1147 | adding a block's mints changes only its group's count, by their number |
| Lelantus.SpendCounts | src/lelantus.cpp:1164-1170 | a block's spends add to a group's count exactly those of groups that hold mints |
| Lelantus.SpendMore | src/lelantus.cpp:1164-1170 | spends can be added one by one in any order with the same result |
| LelantusReplay.CountDownMeans | src/lelantus.cpp:1774-1796 | the backward walk returns whole blocks of the group's last coins, back to the first block that reaches the required number or all there are |
| LelantusReplay.BorrowedWalk | src/lelantus.cpp:1311-1318 | the coins a new group borrows are those met between its first block and the top, and no more than its predecessor minted |
| LelantusReplay.InvConnect | src/lelantus.cpp:1270-1335 | connecting a minting block keeps the group invariant: contiguous ids, nCoins equal to the coins met from last to first block, borrowed counts bounded |
| LelantusReplay.InvHolds | src/lelantus.cpp:1270-1335 | the group invariant holds after every block of every run whose first minting block fits |
| LelantusReplay.FlagIsOverspentOnEveryRun | src/lelantus.cpp:1216-1253 | on every such run the flag is the quantified overspending statement |
| LelantusReplay.ReplayCoreStep | src/lelantus.cpp:1341-1367 | replaying one block's index entry rebuilds what connecting it built |
| LelantusReplay.ReplayPrefix | src/lelantus.cpp:1341-1372 | a block's replay depends only on the index up to it |
| LelantusReplay.CoreRebuilt | src/lelantus.cpp:1106-1116 | over a whole run, groups, latest id, mints, tags and borrowed counts are rebuilt exactly |
| LelantusReplay.GapStep | src/lelantus.cpp:1369-1371 | the difference in spend counts grows exactly by a block's spends of the group its own mints open |
| LelantusReplay.OwnGroupSpendDiffers | src/lelantus.cpp:960-987 | a spend of a group opened by its own block makes replay and live state differ for good |
| LelantusReplay.OversizedFirstDiffers | src/lelantus.cpp:1294-1319 | an oversized first minting block leaves live groups 1 and 2 but an index without group 1 |
| LelantusReplay.ReplayRebuildsLiveState | src/lelantus.cpp:1106-1116 | rebuilding gives back the live state if and only if the first minting block fits a group and no block spends from the group its own mints open |
| LelantusState.CoinState.CheckSurgeCondition | src/lelantus.cpp:1216-1253 | the loop sets the flag to the scan's result |
| LelantusState.CoinState.AddMint | src/lelantus.cpp:1142-1147 | one mint is recorded and the flag refreshed |
| LelantusState.CoinState.AddSpend | src/lelantus.cpp:1164-1170 | one spend is recorded only for a group with mints and the flag refreshed |
| LelantusState.CoinState.AddExtendedMints | src/lelantus.cpp:1181-1184 | a borrowed count is recorded and the flag refreshed |
| LelantusState.CoinState.CountLastNCoins | src/lelantus.cpp:1774-1796 | the loop over blocks returns the count and first block of the specification |
| LelantusState.CoinState.OpenNextGroup | src/lelantus.cpp:1310-1321 | a new group starts at the first borrowed block with borrowed plus new coins |
| LelantusState.CoinState.ExtendGroup | src/lelantus.cpp:1296-1309 | the latest group grows and ends at the top block |
| LelantusState.CoinState.AssignGroup | src/lelantus.cpp:1292-1321 | extends or opens according to the size limit |
| LelantusState.CoinState.AddMintsToStateAndBlockIndex | src/lelantus.cpp:1270-1335 | the state and the index entry after a minting block |
| LelantusState.CoinState.ConnectBlock | src/lelantus.cpp:960-987 | connecting a block: spends, then mints, state and index entry as specified |
| LelantusState.CoinState.ReplayCoins | src/lelantus.cpp:1344-1366 | one group's coins of a replayed block |
| LelantusState.CoinState.ReopenFor | src/lelantus.cpp:1344-1362 | the group of a replayed block's coins, opened with borrowed coins if it is not known |
| LelantusState.CoinState.AddBlock | src/lelantus.cpp:1341-1372 | replaying one index entry in place |
| LelantusState.CoinState.BuildFromIndexOf | src/lelantus.cpp:1106-1116 | a fresh object replays a whole chain |
| LelantusState.CoinState.GetCoinSetForSpend | src/lelantus.cpp:1493-1558 | exactly the coins met between the stop and the last block not above maxHeight, blacklisted ones counted but left out, the latest contributing block and group whose hashes are handed out, and exactly when the walk stays within the chain |
| CheckQueue.TakeBatch | src/checkqueue.h:111-117 | the batch is the last n checks of the queue, taken from its end, and the rest stays |
| CheckQueue.ExecuteBatch | src/checkqueue.h:122-124 | the loop yields the conjunction of the batch and the incoming status |
| CheckQueue.RunSection | src/checkqueue.h:90-119 | the critical section from the queue test on, with the batch taken check by check, is the machine's transition |
| CheckQueue.TakeStep | src/checkqueue.h:69-161 | every step, taken by the code's own branches and loops, is the step of the machine the runs are about |
| CheckQueue.BatchFits | src/checkqueue.h:110 | a batch has between one check and the queue's size, and at most nBatchSize or one |
| CheckQueue.TakenAll | src/checkqueue.h:111-117 | taking a batch splits the queue without losing a check |
| CheckQueue.StepKeepsInv | src/checkqueue.h:69-127 | every step of every thread keeps the invariant linking nTodo, nTotal, nIdle, fAllOk and the threads |
| CheckQueue.InitialInv | src/checkqueue.h:134 | a new queue satisfies it |
| CheckQueue.WaitReturnsConjunction | src/checkqueue.h:91-100 | Wait returns true if and only if every check added since the last return is true, leaving the queue empty, nothing in flight and the flag reset |
| CheckQueue.SomethingCanRun | src/checkqueue.h:69-127 | while the master waits some thread can take a productive step: no deadlock and no lost wake-up |
| CheckQueue.StepMakesProgress | src/checkqueue.h:69-127 | every productive step decreases the remaining work, and no step increases it |
| CheckQueue.EveryRunIsSafe | src/checkqueue.h:69-161 | in every interleaving nTodo is queued plus in-flight checks, a blocked master has work outstanding, and every return is the conjunction |
| CheckQueue.WaitIsBounded | src/checkqueue.h:143-146 | the productive steps within one Wait are bounded by the work remaining when it starts |
| Coins.FetchKeepsViews | src/coins.cpp:38-62 | fetching fills caches, changes no view and keeps every flag truthful |
| Coins.AddCoinRefines | src/coins.cpp:64-93 | AddCoin puts the coin into the top view; it refuses exactly when the top cache itself holds an unspent coin and overwriting was not allowed; otherwise the flags stay truthful if and only if overwriting was allowed or the view had no coin |
| Coins.ReplacedCoinReturns | src/coins.cpp:64-108 | a coin only the database holds is replaced undetected, and spending the replacement makes it show again |
| Coins.SpendCoinRefines | src/coins.cpp:95-108 | SpendCoin removes the coin from the top view |
| Coins.UncacheKeepsViews | src/coins.cpp:204-211 | Uncache changes no view |
| Coins.FlushNeverThrows | src/coins.cpp:141-195 | the FRESH-misapplied error cannot occur |
| Coins.WrittenShows | src/coins.cpp:145-190 | after writing one child entry the parent level shows what the child showed, with truthful flags |
| Coins.FlushRefines | src/coins.cpp:141-202 | Flush moves the top view one level down and leaves the top view and everything below unchanged |
| Coins.StepRefines | src/coins.cpp:38-211 | one admissible operation does to the views what the flat maps say and throws nothing |
| Coins.EveryRunRefines | src/coins.cpp:38-211 | along every admissible run the stack of caches is the stack of flat maps, and nothing is thrown |
| CoinsView.CacheStack.FetchCoin | src/coins.cpp:38-62 | the recursive fetch in place, and the coin it shows |
| CoinsView.CacheStack.HaveCoin | src/coins.cpp:121-124 | whether the top view has an unspent coin, changing no view |
| CoinsView.CacheStack.AddCoinToTop | src/coins.cpp:64-93 | AddCoin in place, with the refusal as a result |
| CoinsView.CacheStack.SpendCoinOnTop | src/coins.cpp:95-108 | SpendCoin in place, handing out the coin the view had |
| CoinsView.CacheStack.UncacheAt | src/coins.cpp:204-211 | Uncache in place |
| CoinsView.CacheStack.BatchWriteCache | src/coins.cpp:141-195 | writing a child's entries in any order fails exactly when some FRESH entry meets an unspent one, leaving what was written before; otherwise the parent cache is as specified |
| CoinsView.CacheStack.BatchWriteDb | src/txdb.cpp:83-106 | dirty entries reach the database, the others do not |
| CoinsView.CacheStack.Flush | src/coins.cpp:197-202 | always succeeds, keeps the top view and makes the level below show it |
| CoinsView.CacheStack.PushLayer | src/coins.cpp:32 | a new cache on top shows what it sits on and changes no view below |
| AddrMan.SwapKeeps | src/addrman.cpp:93-111 | swapping two places of vRandom keeps every index in step |
| AddrMan.CreateKeeps | src/addrman.cpp:81-91 | a created entry floats, uncounted, in consistent indexes |
| AddrMan.DeleteKeeps | src/addrman.cpp:113-125 | deleting a floating entry removes it from every index |
| AddrMan.ReleaseKeeps | src/addrman.cpp:127-140 | releasing a slot lowers its occupant's count with it |
| AddrMan.ClearNewKeeps | src/addrman.cpp:127-140 | ClearNew frees the slot, deletes its occupant exactly when that was its last, disturbs nobody else and triggers no assertion |
| AddrMan.ClearNewLoses | src/addrman.cpp:127-140 | at most the occupant with a single slot is forgotten |
| AddrMan.WithdrawKeeps | src/addrman.cpp:144-154 | leaving all new buckets brings the reference count to exactly zero |
| AddrMan.EvictKeeps | src/addrman.cpp:161-170 | an evicted tried entry floats, counted in neither table |
| AddrMan.EnterNewKeeps | src/addrman.cpp:178-181 | a floating entry takes a free new slot at its hashed position |
| AddrMan.EnterTriedKeeps | src/addrman.cpp:183-187 | a floating entry becomes tried in its hashed slot |
| AddrMan.MakeRoomKeeps | src/addrman.cpp:160-182 | eviction with two entries floating while a new slot is cleared ends with one floating |
| AddrMan.MakeTriedKeeps | src/addrman.cpp:142-188 | moving an entry to the tried table keeps the whole structure consistent and puts it in its slot |
| AddrMan.MakeTriedLoses | src/addrman.cpp:142-188 | no address is forgotten unless one is evicted, and then at most the one whose only slot is taken over |
| AddrMan.MakeTriedRecords | src/addrman.cpp:142-188 | addresses, sources and statistics of all other entries are untouched |
| AddrMan.GoodEffect | src/addrman.cpp:190-240 | a known service is tried afterwards with the success recorded; an unknown one changes nothing; addresses are lost only through eviction |
| AddrMan.OfferEffect | src/addrman.cpp:291-311 | an offered slot is taken if free or its occupant gives way, else a floating entry is dropped and nothing else changes |
| AddrMan.AddNewEffect | src/addrman.cpp:242-313 | a new address is stored if and only if its slot is free or its occupant gives way, at the cost of at most one address |
| AddrMan.AddKnownEffect | src/addrman.cpp:250-284 | a known address brings no other address and leaves the tried table alone |
| AddrMan.AddEffect | src/addrman.cpp:242-313 | Add_ returns true exactly for a routable unknown address and never touches the tried table |
| AddrMan.UpdateStats | src/addrman.cpp:315-335 | changing statistics keeps the structure consistent |
| AddrManager.Manager.SwapRandomPositions | src/addrman.cpp:93-111 | SwapRandom in place |
| AddrManager.Manager.CreateEntry | src/addrman.cpp:81-91 | Create in place |
| AddrManager.Manager.DeleteEntry | src/addrman.cpp:113-125 | Delete in place, with its assertions |
| AddrManager.Manager.ClearNewSlot | src/addrman.cpp:127-140 | ClearNew in place |
| AddrManager.Manager.LeaveNewBuckets | src/addrman.cpp:144-154 | the bucket loop withdraws every reference and ends with count zero |
| AddrManager.Manager.MakeTriedEntry | src/addrman.cpp:142-188 | MakeTried in place, with its assertions |
| AddrManager.Manager.EvictEntry | src/addrman.cpp:160-182 | eviction in place: the tried entry goes back to its new slot, whose occupant gives way |
| AddrManager.Manager.FindBucket | src/addrman.cpp:219-229 | the rotated search finds a bucket if and only if the entry is in one |
| AddrManager.Manager.MarkGood | src/addrman.cpp:190-240 | Good_ in place |
| AddrManager.Manager.OfferSlot | src/addrman.cpp:291-311 | the slot decision of Add_ in place |
| AddrManager.Manager.AddAddress | src/addrman.cpp:242-313 | Add_ in place |
| AddrManager.Manager.RefreshEntry | src/addrman.cpp:250-284 | Add_ of a known address in place |
| AddrManager.Manager.IntroduceEntry | src/addrman.cpp:285-311 | Add_ of an unknown address in place |
| AddrManager.Manager.MarkAttempt | src/addrman.cpp:315-335 | Attempt_ changes only the statistics of an exactly matching service |
| AddrManager.Manager.GetAddresses | src/addrman.cpp:462-481 | distinct addresses that are not terrible, within both limits, all of them unless a limit is reached, only vRandom reordered |
| AddrStore.WriteEntries | src/addrman.h:318-337 | one table's entries in id order, with their indexes, and the counter assertions hold |
| AddrStore.WriteBucket | src/addrman.h:338-350 | a bucket's references in position order |
| AddrStore.Serialize | src/addrman.h:304-351 | the stored form of a consistent manager |
| AddrStore.Unserialize | src/addrman.h:354-457 | loading any stored form: limits, collisions, unusable bucket data and pruning included |
| AddrStore.NewRead | src/addrman.h:382-399 | a new entry read gets the next id |
| AddrStore.TriedRead | src/addrman.h:402-421 | a saved tried entry finds its slot free |
| AddrStore.SlotRead | src/addrman.h:423-439 | a saved reference puts the entry back into its slot |
| AddrStore.WithinLimits | src/addrman.h:374-380 | a consistent manager never exceeds the limits the loader checks |
| AddrStore.LoadSaved | src/addrman.h:304-457 | saving and loading succeeds, loses no entry, and reproduces slots, reference counts and counters up to renumbering; the result is consistent |
| AddrLoading.SlotsLoaded | src/addrman.h:382-439 | whatever was stored, tables, reference counts, ids and counters agree at every point of loading, entries without a place floating |
| AddrLoading.PruneResult | src/addrman.h:441-450 | pruning drops exactly the given entries and takes their addresses out of mapAddr |
| AddrLoading.SurvivorIndex | src/addrman.h:441-450 | after pruning, mapAddr, vRandom and the entries agree if and only if nobody with a place shares an address with another entry read |
| AddrLoading.LoadedIsConsistent | src/addrman.h:354-457 | for any stored form within the limits: exactly the entries that found a place are kept, and the result is consistent if and only if none of them shares its address with another entry read |
| AddrClaims.TriedsClaim | src/addrman.h:402-421 | the tried entries read are those whose slot no earlier one claims, numbered in order |
| AddrClaims.RefsClaim | src/addrman.h:423-439 | a new entry's reference count is the number of references granted to it: position not yet granted in its bucket, fewer than eight before |
| AddrClaims.LoadsConsistently | src/addrman.h:354-457 | loading is consistent if and only if the stored form lets no entry that gets a place share its address, decided by who claims which hashed slot first |
| AddrLoading.DistinctLoads | src/addrman.h:354-457 | pairwise different addresses load into a consistent manager, whatever the version and the bucket data |
| AddrLoading.DuplicateLoadsInconsistent | src/addrman.h:382-399 | one address stored twice loads into an inconsistent manager |
| Mempool.CalculateDescendants | src/txmempool.cpp:825-852 | on a descendant-closed set, which the source assumes, the walk adds exactly what depends on the entry |
| Mempool.AncestorCountGrows | src/miner.cpp:582-592 | an ancestor's ancestor count is smaller |
| Miner.AdmittedIsNotDropped | src/miner.cpp:374-447 | what TestForBlock admits AddToBlock does not drop |
| Miner.CountKeepsLimits | src/miner.cpp:469-508 | privacy spends in the block stay within per-block limits although counters run ahead when one is dropped |
| Miner.EraseRoot | src/miner.cpp:843-847 | taking the walk's root back leaves a descendant-closed set |
| Miner.BanDependantsOf | src/miner.cpp:843-847 | bans exactly the proper dependants of the entry, keeping the set descendant-closed |
| Miner.BanFor | src/miner.cpp:834-873 | one transaction adds exactly what it keeps out: dependants of a privacy spend or of a registration whose collateral they spend, or a clashing registration with its dependants |
| Miner.FillBlackList | src/miner.cpp:831-907 | the blacklist is exactly what was there, what privacy spends and provider registrations keep out, and disallowed transactions with their dependants; it is descendant-closed |
| Miner.BlacklistExceeding | src/miner.cpp:924-947 | what may still enter respects the limit; what is cut are spends of that kind, none smaller than a kept one and none that would still fit; nothing is cut if the limit was respected |
| Miner.CutFrom | src/miner.cpp:926-941 | the smallest entries that fit together are kept: everything cut is at least as large and would exceed the limit |
| Miner.BanAll | src/miner.cpp:943-945 | cut spends are banned with their dependants, which are banned already |
| Miner.SelectionIsValid | src/miner.cpp:469-526 | in a valid selection every transaction follows everything it depends on and depends on no privacy spend |
| Miner.SelectMore | src/miner.cpp:510-521 | appending a transaction whose parents are in keeps the selection valid |
| Packages.SortForBlock | src/miner.cpp:582-592 | each member once, fewest ancestors first |
| Packages.ListingIsTopological | src/miner.cpp:582-592 | that order puts ancestors first |
| Packages.TotalsStart | src/miner.cpp:603-613 | before any transaction is in, cached totals are exact |
| Packages.TotalsCharged | src/miner.cpp:545-560 | taking an added transaction out of its dependants' totals keeps every total covering, and exact for packages that have not failed |
| Packages.TotalsDropped | src/miner.cpp:677-684 | forgetting a failed entry falls back on totals that still cover what is missing |
| Packages.TotalsIgnorePrivacy | src/miner.cpp:538-541 | a privacy spend makes no difference to any package that may enter |
| Packages.DescendantsToCharge | src/miner.cpp:543-548 | the descendants left after the skip test are exactly those to charge; none is in the block |
| Packages.UpdatePackagesForAdded | src/miner.cpp:533-563 | afterwards the cached totals are right for a block that also holds the added transactions |
| Packages.HeadDropped | src/miner.cpp:720-724 | a head dropped at the last moment leaves every other total right |
| Packages.PackageWeight | src/miner.cpp:337-345 | a package's weight is at most four times its virtual size |
| Packages.PackageParents | src/miner.cpp:699-724 | a member's parents are in the block or listed earlier, and none is the head |
| Packages.OnlyHeadIsPrivate | src/miner.cpp:699-724 | only the head of a package can be a privacy spend |
| Assembler.BlockAssembler.AddToBlock | src/miner.cpp:469-531 | adds the transaction or drops a privacy spend over its limit, keeping the selection valid and the weight, sigop and size counters exact and within limits |
| Assembler.BlockAssembler.TestForBlock | src/miner.cpp:374-467 | passes exactly a final transaction that fits weight, size, sigops and privacy limits; the block counts as finished only when nearly full or after fifty refusals close to the end |
| Assembler.BlockAssembler.PriorityStep | src/miner.cpp:771-815 | one candidate of the priority queue is added if and only if witness rules allow it, its parents are in and it passes TestForBlock |
| Assembler.BlockAssembler.AddPriorityTxs | src/miner.cpp:733-819 | for any priority order the block stays valid, every added size is counted, something is added if every candidate could be, and selection goes on past a transaction that is no remint only while the block is below the priority size |
| Assembler.BlockAssembler.ConsiderPriority | src/miner.cpp:770-815 | one candidate, and the stop at the priority size |
| Assembler.BlockAssembler.SelectByPriority | src/miner.cpp:768-817 | the loop over candidates and those released by added parents |
| Assembler.BlockAssembler.TestPackageTransactions | src/miner.cpp:352-372 | true if and only if every member may enter and together they fit the size limit |
| Assembler.BlockAssembler.AddPackage | src/miner.cpp:716-724 | the missing part of a package enters in a valid order; at most a private head is left out |
| Assembler.BlockAssembler.TryPackage | src/miner.cpp:677-724 | a package is added only if its totals cover it, it fits and all members may enter |
| Assembler.BlockAssembler.ConsiderPackage | src/miner.cpp:663-731 | one iteration keeps the cached totals right and makes progress |
| Assembler.BlockAssembler.ModifiedMayEnter | src/miner.cpp:659-661 | the modified set holds nothing that is in the block |
| Assembler.BlockAssembler.AddPackageTxs | src/miner.cpp:603-731 | for any pool order and fee outcome the loop ends with a valid block within weight, sigop and counted size limits, and adds only final transactions safe for mining |
| Assembler.CreateNewBlock | src/miner.cpp:225-232 | blacklist, priority and package selection together give a valid selection within weight, sigop, privacy and, where sizes are accounted, size limits, the priority part ending at its size; all of it final and within witness rules, and everything not chosen by priority safe for mining |
| Assembler.UnsafeByPriority | src/miner.cpp:770-797 | priority selection puts a transaction into the block that package selection would refuse as unsafe |
| PartialMerkle.WidthHalves | src/merkleblock.h:65-67 | each level has half the nodes of the one below, rounded up |
| PartialMerkle.Children | src/merkleblock.cpp:100-105 | a node's leaves are its left child's and then its right child's, if it has one |
| PartialMerkle.LevelDistinct | src/merkleblock.cpp:127-132 | with distinct transaction ids no two nodes of a level share a hash |
| PartialMerkle.TrueHashMeansGenuine | src/merkleblock.cpp:108-144 | for arbitrary bits and hashes, a node extracted with its true hash yields only genuine entries below it |
| PartialMerkle.FoundInOrder | src/merkleblock.cpp:108-144 | positions come out strictly ascending within the node, whatever the input |
| PartialMerkle.DecodeEncode | src/merkleblock.cpp:91-144 | reading a node's encoding consumes exactly it and yields the node's hash and the marked entries below it |
| MerkleBounds.HashesWithinLeaves | src/merkleblock.h:36-38 | a node's encoding has at most one hash per transaction below it, and a bit per hash |
| MerkleBounds.HashesWithinMatches | src/merkleblock.h:36-38 | and at most one plus matches times height |
| MerkleBounds.BitCount | src/merkleblock.h:45-47 | exactly 2N - 1 bits plus one per descended node without a right child |
| MerkleBounds.SizeBounds | src/merkleblock.h:34-48 | all documented bounds for the whole tree: those on hashes always, those on flag bits and on the serialised size exactly under their conditions; the size bound always for fewer than 253 hashes |
| MerkleBounds.SizeWithinDocumented | src/merkleblock.h:31-48 | the serialised size stays within 10 + ceil(32.25 N) if and only if the extra flag bits stay within an allowance given by N |
| MerkleBounds.AllMatched | src/merkleblock.cpp:91-106 | matching everything stores one hash per transaction |
| MerkleBounds.FullTreeExceedsDocumentedSize | src/merkleblock.h:31-48 | 1012 transactions, all matched: 32648 bytes where 32647 are documented |
| MerkleBounds.LonelyTreeExceedsDocumentedBits | src/merkleblock.h:45-47 | three transactions, the last matched: two hashes and four flag bits |
| FlagBits.Pack | src/merkleblock.h:99-103 | the bytes hold the bits least significant first and nothing else |
| FlagBits.Unpack | src/merkleblock.h:92-97 | every bit of every byte in order |
| FlagBits.UnpackPack | src/merkleblock.h:88-105 | unpacking gives the bits back, padded with zeros to whole bytes |
| MerkleTree.ExtractionIsSound | src/merkleblock.cpp:162-193 | input that extracts to the block's Merkle root reports only the block's transactions at their positions, none twice |
| MerkleTree.ExtractionInvertsEncoding | src/merkleblock.cpp:73-193 | extracting an encoding, padded or not, gives the root and exactly the marked entries, up to the size limit and the null hash beyond it |
| MerkleTree.PartialTree.constructor | src/merkleblock.cpp:146-158 | the object holds the encoding of the marked transactions |
| MerkleTree.PartialTree.TreeHeight | src/merkleblock.cpp:151-154 | the loop finds the tree's height |
| MerkleTree.PartialTree.TraverseAndBuild | src/merkleblock.cpp:91-106 | appends a node's encoding in place |
| MerkleTree.PartialTree.TraverseAndExtract | src/merkleblock.cpp:108-144 | cursors, matches, positions and the bad flag as specified |
| MerkleTree.PartialTree.ExtractMatches | src/merkleblock.cpp:162-193 | the root or the null hash after every check, for any content |
| MerkleTree.BuildSendExtract | src/merkleblock.h:86-118 | marked transactions survive building, the wire form and extraction |
| Cuckoo.NextLocFollows | src/cuckoocache.h:406 | after one of the eight locations comes the next one, wrapping around; when the last displacement was at none of them, location 1 |
| CuckooRuns.ChainInserts | src/cuckoocache.h:380-414 | a displacement chain loses exactly one element, keeps kept elements at home and adds at most one slot to the epoch |
| CuckooRuns.CheckMakesRoom | src/cuckoocache.h:264-296 | after the epoch check there is room for one more slot within the limit |
| CuckooRuns.InsertAbsent | src/cuckoocache.h:368-416 | inserting an absent element adds it and loses exactly one; if that was discardable, everything kept stays kept |
| CuckooRuns.InsertPresent | src/cuckoocache.h:374-379 | inserting a present element keeps the table and marks its slot as kept and current |
| CuckooRuns.InsertKeepsInv | src/cuckoocache.h:368-416 | insertion keeps the epoch bound and every kept element at one of its locations |
| CuckooRuns.ContainsKeepsInv | src/cuckoocache.h:443-453 | so does lookup, with or without erasing; the table is unchanged |
| CuckooRuns.KeptIsFound | src/cuckoocache.h:443-453 | lookup finds what any kept slot holds |
| CuckooRuns.FreshInv | src/cuckoocache.h:315-329 | a set-up cache satisfies the invariant |
| CuckooRuns.EveryRun | src/cuckoocache.h:264-453 | at any point of any run the current epoch has at most epoch_size + max(1, epoch_size/16) kept slots and every kept element is found |
| CuckooCache.BitFlags.BitSet | src/cuckoocache.h:91-94 | sets one packed flag and no other |
| CuckooCache.BitFlags.BitUnset | src/cuckoocache.h:102-105 | clears one packed flag and no other |
| CuckooCache.BitFlags.BitIsSet | src/cuckoocache.h:112-115 | reads one packed flag |
| CuckooCache.BitFlags.constructor | src/cuckoocache.h:60-67 | all flags set |
| CuckooCache.Cache.constructor | src/cuckoocache.h:315-329 | sizes and initial state of setup for a given depth limit |
| CuckooCache.Cache.CountLiving | src/cuckoocache.h:272-275 | the scan counts kept slots of the current epoch |
| CuckooCache.Cache.AgeEpochs | src/cuckoocache.h:281-285 | old slots become discardable, current ones old |
| CuckooCache.Cache.EpochCheck | src/cuckoocache.h:264-296 | the epoch check in place |
| CuckooCache.Cache.Displace | src/cuckoocache.h:380-414 | the displacement loop in place |
| CuckooCache.Cache.Insert | src/cuckoocache.h:368-416 | insert in place, keeping the invariant |
| CuckooCache.Cache.Contains | src/cuckoocache.h:443-453 | contains in place, keeping the invariant |
| DbKeys.LessTransitive | src/dbwrapper.h:563-567 | the byte order on keys is transitive |
| DbKeys.LessTotal | src/dbwrapper.h:563-567 | and total |
| DbOverlay.WriteKeeps | src/dbwrapper.h:616-630 | a write shows through the layer as a write; writes and deletes stay disjoint and the usage exact |
| DbOverlay.EraseKeeps | src/dbwrapper.h:677-686 | an erasure shows through as an erasure, with the same invariants |
| DbOverlay.CommitErase | src/dbwrapper.h:695-697 | handing over one delete keeps the half-committed view right for any store |
| DbOverlay.CommitWrite | src/dbwrapper.h:698-700 | so does handing over one write |
| DbCursor.CurrentIsFirst | src/dbwrapper.h:538-550 | the current key is the smallest one ahead, and there is one exactly when the position is valid |
| DbCursor.Next | src/dbwrapper.h:451-464 | one step removes exactly the current key from those ahead |
| DbCursor.Skip | src/dbwrapper.h:528-536 | skipping hidden parent keys loses no visible one |
| DbCursor.Seek | src/dbwrapper.h:440-445 | the keys ahead are the overlay's from the given one on |
| DbCursor.SeekToFirst | src/dbwrapper.h:428-433 | the keys ahead are all of the overlay's |
| DbCursor.ScanIsAscending | src/dbwrapper.h:402-551 | a scan meets every key ahead exactly once, ascending |
| DbCursor.ScanMeetsOverlay | src/dbwrapper.h:402-551 | for transactions nested to any depth, scans from the start or from a key meet exactly the overlay's keys in order |
| DbTransaction.Transaction.Write | src/dbwrapper.h:616-630 | Write in place with its usage accounting |
| DbTransaction.Transaction.Erase | src/dbwrapper.h:677-686 | Erase in place with its usage accounting |
| DbTransaction.Transaction.Read | src/dbwrapper.h:637-653 | reads the overlay's value |
| DbTransaction.Transaction.Exists | src/dbwrapper.h:660-670 | membership in the overlay |
| DbTransaction.Transaction.GetMemoryUsage | src/dbwrapper.h:708-718 | the exact sum; the negative case never occurs |
| DbTransaction.Transaction.Commit | src/dbwrapper.h:694-702 | seen through the parent transaction any store then looks as it did through both, and the transaction is clean |
| DbTransaction.Transaction.CommitToStore | src/dbwrapper.h:694-702 | a store that receives the commit equals the overlay |
| DbTransaction.TransactionIterator.SeekToFirst | src/dbwrapper.h:428-433 | SeekToFirst in place |
| DbTransaction.TransactionIterator.Seek | src/dbwrapper.h:440-445 | Seek in place |
| DbTransaction.TransactionIterator.IsValid | src/dbwrapper.h:447-449 | valid exactly while keys are ahead |
| DbTransaction.TransactionIterator.GetCurrentKey | src/dbwrapper.h:493-502 | the smallest key ahead, or the empty key |
| DbTransaction.TransactionIterator.GetValue | src/dbwrapper.h:516-525 | the overlay's value under the current key |
| DbTransaction.TransactionIterator.Next | src/dbwrapper.h:451-464 | removes the smallest key ahead; nothing happens at the end |
| DbTransaction.TransactionIterator.SkipDeletedAndOverwritten | src/dbwrapper.h:528-536 | the skip loop stops at a visible key or the end, losing none |
| DbTransaction.TransactionIterator.DecideCur | src/dbwrapper.h:538-550 | makes the smaller key current |
| BigUint.BaseUint.Assign | src/arith_uint256.h:89-96 | the value is the 64-bit number |
| BigUint.BaseUint.AddAssign | src/arith_uint256.h:136-146 | addition modulo 2^BITS, column sums below 2^64 |
| BigUint.BaseUint.Complement | src/arith_uint256.h:70-76 | 2^BITS - 1 minus the value |
| BigUint.BaseUint.Increment | src/arith_uint256.h:174-181 | adds one modulo 2^BITS |
| BigUint.BaseUint.Decrement | src/arith_uint256.h:191-198 | subtracts one modulo 2^BITS |
| BigUint.BaseUint.Negate | src/arith_uint256.h:78-85 | 2^BITS minus the value, modulo 2^BITS |
| BigUint.BaseUint.SubAssign | src/arith_uint256.h:148-152 | subtraction modulo 2^BITS |
| BigUint.BaseUint.MulAssign32 | src/arith_uint256.cpp:56-65 | multiplication by a limb modulo 2^BITS, products below 2^64 |
| BigUint.BaseUint.MulAssign | src/arith_uint256.cpp:68-81 | schoolbook multiplication modulo 2^BITS; zero when the operand is the number itself |
| BigUint.BaseUint.MulRow | src/arith_uint256.cpp:73-79 | one row adds limb times operand, short of multiples of 2^BITS, columns below 2^64; a number that is its own operand stays zero |
| BigUint.BaseUint.ShiftLeft | src/arith_uint256.cpp:22-36 | multiplication by 2^shift modulo 2^BITS, for any shift |
| BigUint.BaseUint.ShiftRight | src/arith_uint256.cpp:39-53 | division by 2^shift rounded down, for any shift |
| BigUint.BaseUint.CompareTo | src/arith_uint256.cpp:110-119 | the sign of the difference of values |
| BigUint.BaseUint.EqualTo | src/arith_uint256.cpp:122-133 | equality with a 64-bit number |
| BigUint.BaseUint.Bits | src/arith_uint256.cpp:173-185 | the position of the highest set bit plus one, or zero |
| BigUint.BaseUint.GetLow64 | src/arith_uint256.h:249-253 | the value modulo 2^64 |
| BigUint.BaseUint.DivStep | src/arith_uint256.cpp:97-104 | one step keeps quotient times divisor plus remainder equal to the dividend |
| BigUint.BaseUint.DivAssign | src/arith_uint256.cpp:84-107 | the quotient rounded down; fails exactly for a zero divisor, with the value cleared |
| Compact.OverflowsMeans | src/arith_uint256.cpp:238-241 | the overflow test decides exactly whether the number needs more than 256 bits |
| Compact.SetCompact | src/arith_uint256.cpp:225-243 | the denoted number modulo 2^256 with exact sign and overflow flags |
| Compact.GetCompact | src/arith_uint256.cpp:245-266 | denotes the number without its low bytes, keeping at least sixteen significant bits, exactly when it is small |
| Compact.TargetIsNotMaximal | src/chain.cpp:125-132 | adding one to an accepted target does not wrap |
| Compact.ProofWithoutOverflow | src/chain.cpp:128-132 | (2^256 - 1 - t) / (t + 1) + 1 equals 2^256 / (t + 1) |
| Compact.GetBlockProof | src/chain.cpp:120-133 | floor(2^256 / (target + 1)), or zero for a negative, too large or zero target |
| SkipHeights.InvertsLowestOne | src/chain.cpp:69-70 | what is taken away is the lowest one bit: the number is an odd multiple of it |
| SkipHeights.GetSkipHeight | src/chain.cpp:73-81 | the skip height is strictly lower |
| SkipHeights.EvenDescent | src/chain.cpp:83-107 | from an even height above an aligned middle to a goal below it: at most one or two steps for every one bit above the middle, then both are in one half |
| SkipHeights.OddDescent | src/chain.cpp:83-107 | the same from an odd height |
| SkipHeights.StepsAreFew | src/chain.cpp:72-107 | from any height below 2^k the walk takes at most k (k + 3) / 2 steps, whatever the goal |
| Chain.BlockIndex.constructor | src/chain.cpp:114-118 | an entry linked to its parent has its skip pointer at the right ancestor, and with the parent's line the whole line has its pointers |
| Chain.BlockIndex.BuildSkip | src/chain.cpp:114-118 | sets the skip pointer to the ancestor at the skip height |
| Chain.BlockIndex.GetAncestor | src/chain.cpp:83-107 | terminates with what walking back one parent at a time finds, or null out of range; with all skip pointers set, in at most k (k + 3) / 2 steps for heights below 2^k |
| Chain.ChainIsLine | src/chain.cpp:11-21 | a valid chain holds the ancestors of each of its entries |
| Chain.ActiveChain.SetTip | src/chain.cpp:11-21 | afterwards every height holds the tip's ancestor, although filling stops early |
| Chain.ActiveChain.FindFork | src/chain.cpp:51-60 | the highest block that is both in the chain and in the argument's line, or null if there is none |
| Chain.ActiveChain.GetLocator | src/chain.cpp:23-49 | starts at the block, goes down through its ancestors by ones and then doubling steps to the first block, with length logarithmic in the height |
| Chain.LocatorLength | src/chain.cpp:23-49 | a locator of n > 12 entries needs a height of at least 10 + 2^(n - 12) |
| Radix.CanonUnique | src/base58.cpp:59-67 | digits without leading zeros are determined by their value |
| Radix.EnoughDigits | src/base58.cpp:35 | a bound on powers of two bases carries over to all lengths |
| Base58.MulAdd | src/base58.cpp:44-52 | buffer times factor plus digit in place; the carry is zero at the end because the result fits |
| Base58.EncodeBufferFits | src/base58.cpp:82 | the encoding buffer suffices for every length, from 58^11 >= 256^8 |
| Base58.DecodeBufferFits | src/base58.cpp:35 | the decoding buffer suffices for every length, from 256^52 >= 58^71 |
| Base58.EncodeBase58 | src/base58.cpp:72-110 | a one per leading zero byte, then the number's base 58 digits |
| Base58.DecodeBase58 | src/base58.cpp:22-70 | the bytes of a word of the alphabet surrounded by spaces, or failure for anything else |
| Base58.ReadDigits | src/base58.cpp:38-54 | the digits multiplied into the buffer have the value of the word read, or some character is outside the alphabet |
| Base58.DecodeEncode | src/base58.cpp:22-110 | decoding undoes encoding for every byte string |
| Base58.EncodeDecode | src/base58.cpp:22-110 | encoding undoes decoding for every word of the alphabet |
| Bloom.NewGeneration | src/bloom.cpp:356-372 | wiping the reused number keeps every position showing its generation or, if too old, nothing |
| Bloom.KeyInserted | src/bloom.cpp:374-381 | setting a key's positions keeps every position showing when it was last set |
| Bloom.RecentIsFound | src/bloom.cpp:390-402 | keys of the last three generations are found |
| Bloom.RecentStamps | src/bloom.cpp:354-372 | the last two generations' worth of keys are in the last three generations |
| Bloom.RollingBloomFilter.Wipe | src/bloom.cpp:362-371 | the mask loop clears exactly the positions of the given generation |
| Bloom.RollingBloomFilter.Mark | src/bloom.cpp:374-381 | the loop sets exactly the key's positions to the current generation |
| Bloom.RollingBloomFilter.Insert | src/bloom.cpp:354-382 | insert keeps the invariant over the whole history |
| Bloom.RollingBloomFilter.Reset | src/bloom.cpp:410-418 | forgets everything |
| Bloom.RollingBloomFilter.Contains | src/bloom.cpp:390-402 | true for every one of the last nElements keys inserted |

## Left out

- Cryptography: proofs, signatures and hash computations are function parameters or not modelled.
- Disconnecting Lelantus blocks (src/lelantus.cpp:1374-1443): only connection and replay are modelled, since removal across a group boundary is not an inverse without assumptions on block sizes.
- Lelantus.SpendCounts: counts per group are unbounded; the surge scan's 64-bit counters are assumed not to overflow where its flag is related to the quantified statement.
- CheckQueue.StepKeepsInv: one master at a time, as the control mutex ensures; `fQuit`, which nothing sets, stays false; 32-bit wrap-around of `nTodo` is not modelled.
- Coins.EveryRunRefines: the best-block hash and the cache's memory usage counter are not part of the layers.
- LelantusState.CoinState.GetCoinSetForSpend: hands out the block and group the block hash and the set hash are computed from, not the hashes.
- AddrManager.Manager.GetAddresses: random positions are arbitrary; the probabilistic Select_ and the Clear of a used object are not modelled.
- AddrStore.Serialize: works on the table values instead of the arrays in place; the byte framing of the stream (counts, key, version xor) is not modelled.
- AddrStore.Unserialize: builds a fresh value; entry counts are the lengths of what is stored, so negative counts and the key size test are not modelled.
- Assembler.BlockAssembler.AddPriorityTxs: priorities are arbitrary, so whether one is high enough to go on below the priority size is left open.
- Assembler.BlockAssembler.AddPackageTxs: fees, fee deltas and the minimum fee rate are arbitrary outcomes; coinbase construction and the block header are not modelled.
- Miner.FillBlackList: how provider registrations and sporks decide is a parameter giving the treatment of each transaction.
- Mempool.CalculateDescendants: the mempool itself is fixed during assembly; adding and removing entries is not modelled.
- PartialMerkle.WidthHalves: transaction counts near 2^32, where the width computation would wrap around, are not modelled.
- CuckooCache.Cache.constructor: takes the depth limit that setup obtains from a floating-point logarithm; the relaxed atomics are single-threaded flags.
- DbTransaction.TransactionIterator.Next: the transaction is not changed while it is iterated; values of a type other than the one written are not modelled.
- Hexadecimal and floating-point conversions of big integers: left out, they would only add formatting.
- Chain.BlockIndex.GetAncestor: block data other than height, parent and skip pointer is left out, and so are time-based lookups.
- Base58.DecodeBase58: addresses, checksums and key formats built on Base58 are left out.
- Bloom.RollingBloomFilter.constructor: the number of hash functions and words come from floating-point sizing and are given; the non-rolling filter is left out.
- Networking, files, RPC, wallet, masternodes and configuration: left out, they would mostly add plumbing.
