# Paladeum core models

Dafny models of twelve self-contained algorithms of the Paladeum node, with proofs of what they
promise over whole runs. `dafny verify dfyconfig.toml` checks everything.

- **Coin cache** (`CoinsCache.dfy`): a stack of write-back caches over a database, with DIRTY and
  FRESH flags, refines one plain map per layer.
- **Address manager** (`AddrManState.dfy`, `AddrMan.dfy`, `AddrManCheck.dfy`, `AddrManStream.dfy`):
  five cross-linked structures stay consistent over every run; the compact form reads back.
- **Block assembly** (`Mempool.dfy`, `PackageTable.dfy`, `Miner.dfy`): greedy ancestor packages by
  fee rate with a side table of totals; the mempool is a finite acyclic parent relation with exact ancestor totals.
- **Check queue** (`CheckQueue.dfy`): a master and any number of workers as a state machine whose
  steps are the critical sections.
- **Partial Merkle tree** (`MerkleTree.dfy`, `MerkleBlock.dfy`): soundness against any input,
  completeness for what was built (BIP 37, "Partial Merkle branch format").
- **Cuckoo cache** (`CuckooTable.dfy`, `CuckooCache.dfy`): conservation, locations, epochs.
- **Rolling bloom filter** (`BloomCells.dfy`, `RollingBloom.dfy`): three generations in two bits.
- **256-bit arithmetic and block proof** (`LimbMath.dfy`, `LimbShift.dfy`, `ArithUint256.dfy`,
  `CompactTarget.dfy`).
- **Block index and active chain** (`BlockChain.dfy`): skip pointers against walking parents.
- **Base58** (`Positional.dfy`, `Base58.dfy`): both round trips and the buffer estimates.
- **Compact blocks** (`CompactBlock.dfy`, `PartialBlock.dfy`): BIP 152, HeaderAndShortIDs and
  BlockTransactionsRequest.
- **Verifier strings** (`BoolExpr.dfy`, `BoolFormula.dfy`): splitting and evaluating.

`Powers.dfy`, `ByteBits.dfy`, `Sets.dfy` and `Wrappers.dfy` hold shared definitions. Hash functions,
short ids, random choices, clocks and the verdict of the block check are parameters, left
uninterpreted; methods take the random or foreign choice as an argument and the results hold for
every choice. Fixed bucket tables are total maps from slots to ids, with -1 for an empty slot.

Where the code and its comments disagree the code is followed:

- `SpendCoin` (src/coins.h:279-283) is documented to return whether the coin existed. The code
  returns whether a cache entry was there; `SpendTwiceFromBase` and `SpendTwiceAdded` show that two
  caches with the same view answer differently, and `SpendCoin` states exactly when it is true.
- `Add_` returns true for a new address even when its entry is deleted again at once because its
  slot was taken.
- The first slot a cuckoo insertion displaces is the second location (src/cuckoocache.h:416-418
  says the first).
- `operator*=` of a 256-bit number with itself gives zero: the operand is cleared before it is read
  (src/arith_uint256.cpp:73-80). It is right for distinct objects, and for one object exactly when
  its square is a multiple of 2^256.
- An included parent is taken off a descendant's cached fees with its modified fee the first time
  and with its base fee from then on (src/miner.cpp:265-272, src/miner.h:146), although the totals
  hold modified fees. `CachedFees` states exactly when the cached fee is right, `CachedFeesOff` a pool
  where it is not.
- Slots of short ids are stored in 16 bits while up to 150000 transactions are admitted;
  `SixteenBits` proves that exactly the messages with at most 65536 transactions are unaffected.
- An early `FillBlock` failure for too few transactions leaves the earlier slots moved out.

## Model

| member | source | states |
|---|---|---|
| `Coins.CoinsViewCache.FetchCoin` | src/coins.cpp:51-66 | brings the base's unspent coin into the cache as a clean entry; no view of the stack changes and the usage total stays right |
| `Coins.CoinsViewCache.GetCoin` | src/coins.cpp:68-75 | answers exactly the coin the cache's view shows, and only unspent ones |
| `Coins.CoinsViewCache.HaveCoin` | src/coins.cpp:416-419 | answers whether the view shows an unspent coin |
| `Coins.CoinsViewCache.HaveCoinInCache` | src/coins.cpp:421-424 | answers whether the cache itself holds an unspent coin |
| `Coins.CoinsViewCache.AccessCoin` | src/coins.cpp:407-414 | returns the view's coin, or a spent one |
| `Coins.CoinsViewCache.AddCoin` | src/coins.cpp:77-96 | throws exactly when told nothing is overwritten and an unspent coin is cached; otherwise the view becomes the old one with the coin, and the FRESH rule survives iff no unspent coin was visible or an overwrite was allowed |
| `Coins.CoinsViewCache.SpendCoin` | src/coins.cpp:371-403 | removes the coin from the view, moves it out, and returns exactly when the entry was there (which is not the same as "was unspent") |
| `Coins.CoinsViewCache.Uncache` | src/coins.cpp:499-506 | drops only clean entries; no view changes |
| `Coins.CoinsViewCache.MergeEntry` | src/coins.cpp:438-484 | one child entry merged into the parent: the parent's view gets the child's coin, the FRESH/DIRTY rules and the usage total are kept, no throw |
| `Coins.CoinsViewCache.BatchWrite` | src/coins.cpp:436-490 | after merging all dirty child entries the parent's view is the old one with them applied; neither logic_error can be thrown |
| `Coins.CoinsViewCache.Flush` | src/coins.cpp:492-497 | the parent's view becomes the child's, the child shows the same as before, and its cache is empty |
| `Coins.CoinsViewDB.BatchWrite` | src/txdb.cpp:92-140 | the bottom map takes exactly the DIRTY entries, erasing spent ones |
| `Coins.CoinsStack.Query` | src/coins.cpp:68-75 | a lookup through any stack of caches answers as the topmost plain map |
| `Coins.CoinsStack.Edit` | src/coins.cpp:77-96 | an edit of the top cache changes the topmost plain map the same way and no other |
| `Coins.CoinsStack.Restack` | src/coins.cpp:492-497 | pushing a cache, or flushing and popping one, does to the stack of plain maps what it does to the caches |
| `Coins.CoinsStack.Run` | src/coins.cpp:51-506 | for any stack and any legal run of get, have, add, spend, uncache, flush and push, every answer equals that of plain maps given the same operations |
| `Coins.DirtyEntriesSuffice` | src/coins.cpp:438-441 | writing only the DIRTY entries gives the whole view, because clean ones agree with the base |
| `Coins.OverlayUpdate` | src/coins.cpp:51-66 | the view of a cache after one entry changes |
| `Coins.OverlayErase` | src/coins.cpp:499-506 | erasing a clean entry leaves the view unchanged |
| `Coins.AddedEntryOk` | src/coins.cpp:77-96 | the entry AddCoin stores obeys the flag rules iff its precondition held |
| `Coins.TotalUsageUpdate` | src/coins.h:231-232 | cachedCoinsUsage follows the sum over cached coins when one entry is replaced |
| `Coins.SpendTwiceFromBase` | src/coins.cpp:371-390 | counter-example: the second SpendCoin of a base coin still returns true |
| `Coins.SpendTwiceAdded` | src/coins.cpp:371-390 | the same call after a fresh add returns false, so the answer is no function of the view |
| `AddrMan.AddrMan.constructor` | src/addrman.h:457-478 | the cleared manager satisfies the invariant |
| `AddrMan.AddrMan.Find` | src/addrman.cpp:69-80 | an id is reported only for a known address, and is the one mapAddr holds |
| `AddrMan.AddrMan.Create` | src/addrman.cpp:89-99 | adds one entry, referenced nowhere yet, and leaves all others |
| `AddrMan.AddrMan.SwapRandom` | src/addrman.cpp:101-119 | exchanges two places of vRandom and keeps the inverse positions right |
| `AddrMan.AddrMan.Delete` | src/addrman.cpp:121-133 | removes an unreferenced new entry from all five structures |
| `AddrMan.AddrMan.ClearNew` | src/addrman.cpp:135-148 | empties a slot, lowers that entry's refcount and deletes it at zero |
| `AddrMan.AddrMan.LeaveNewBuckets` | src/addrman.cpp:153-159 | takes an entry out of every new bucket, so its refcount is zero and the assert holds |
| `AddrMan.AddrMan.EvictFromTried` | src/addrman.cpp:169-190 | moves the previous occupant of a tried slot back to the slot of the new table its hash names |
| `AddrMan.AddrMan.MakeTried` | src/addrman.cpp:150-196 | moves an entry from new to tried, evicting if needed; the invariant holds and no assert fires |
| `AddrMan.AddrMan.FindBucket` | src/addrman.cpp:227-242 | from any start some bucket holding the entry is found: the bail-out is unreachable |
| `AddrMan.AddrMan.Good` | src/addrman.cpp:198-248 | keeps the invariant; on a known address with the same service it resets the counters and ends with it in tried; at most one other entry moves back to new and one is displaced |
| `AddrMan.AddrMan.Attempt` | src/addrman.cpp:323-343 | updates only the times and the attempt count of a known address |
| `AddrMan.AddrMan.Connected` | src/addrman.cpp:491-509 | advances the time of a known address only when it is stale |
| `AddrMan.AddrMan.SetServices` | src/addrman.cpp:511-527 | replaces the services of a known address |
| `AddrMan.AddrMan.Place` | src/addrman.cpp:299-319 | puts an id into its own slot exactly when that is free, already its own, or its occupant is terrible or redundant; the occupant loses a reference or goes, and the id is deleted if it ends nowhere: the whole new set of entries is stated |
| `AddrMan.AddrMan.Admits` | src/addrman.cpp:301-309 | whether a slot takes an entry: free, or its occupant terrible, or redundant while the entry has no other place |
| `AddrMan.AddrMan.TakeSlot` | src/addrman.cpp:310-313 | the entry gets the slot and one more reference; the previous occupant loses one or is deleted; nothing else changes |
| `AddrMan.AddrMan.Refresh` | src/addrman.cpp:264-291 | services merged, periodic time update, and exactly when one more place is offered, for every draw: 2^n times rarer with n places |
| `AddrMan.TimeAdvances` | src/addrman.cpp:265-269 | announcing again never sets a known time back, and moves it by more than an hour, or a day for a stale announcement |
| `AddrManState.TerribleMeans` | src/addrman.cpp:34-56 | exactly which statistics make an entry terrible |
| `AddrMan.AddrMan.Add` | src/addrman.cpp:250-321 | keeps the invariant; a routable unknown address is stored with one reference, its source and its penalised time in the slot its source names exactly when that slot is free or its occupant terrible or multiply referenced, and else nothing changes; a known one is refreshed and offered its slot exactly when due; at most one other entry is touched |
| `AddrMan.AddrMan.AddUnknown` | src/addrman.cpp:292-319 | an unknown address: stored and found under the next id exactly when its slot is open; the previous occupant loses one reference; all other entries keep theirs |
| `AddrMan.AddrMan.AddKnown` | src/addrman.cpp:264-319 | a known address: merged services, refreshed time, and one more place exactly when the announcement is news, it has places left, the draw succeeds and its slot admits it |
| `AddrMan.AddrMan.CreateCounted` | src/addrman.cpp:292-296 | the new entry is the announced address with reduced time, its source and no reference yet, found by its address |
| `AddrMan.NewcomerOffered` | src/addrman.cpp:299-319 | what is left of a new entry after its slot was offered: one reference or nothing |
| `AddrMan.AddrMan.GetAddr` | src/addrman.cpp:470-489 | returns distinct known addresses that are not terrible: exactly as many as there are, up to 23 percent of all and 2500, and keeps the invariant |
| `AddrMan.SampleSize` | src/addrman.cpp:477-488 | a sample that went through all of vRandom holds every entry that is not terrible |
| `AddrMan.Run` | src/addrman.cpp:89-527 | after any run of Add, Good, Attempt, Connected, SetServices and GetAddr with positive times, the conditions of Check_ hold |
| `AddrManCheck.ConsistentPasses` | src/addrman.cpp:393-467 | the internal invariant implies every structural condition Check_ tests |
| `AddrManCheck.OccurrencesAreBuckets` | src/addrman.cpp:446-457 | an entry's occurrences in the new table are as many as the buckets that reference it, at most eight |
| `AddrManCheck.RandomSize` | src/addrman.cpp:398-399 | vRandom is as long as the tried and new entries together |
| `AddrManState.ReleaseKeeps` | src/addrman.cpp:135-148 | emptying a new slot keeps the invariant, with the refcount of its entry one lower |
| `AddrManState.FillKeeps` | src/addrman.cpp:299-319 | filling an entry's own free slot keeps the invariant, with the refcount one higher |
| `AddrManState.EvictKeeps` | src/addrman.cpp:169-190 | turning a tried entry back into a new one keeps the invariant |
| `AddrManState.EnterKeeps` | src/addrman.cpp:192-195 | entering a free tried slot keeps the invariant and the counters |
| `AddrManState.FloatingNowhere` | src/addrman.cpp:153-159 | an entry with no references stands in no slot |
| `AddrManStream.Serialize` | src/addrman.h:302-349 | writes the key, the counts, the entries by id order and each bucket's indexes |
| `AddrManStream.Unserialize` | src/addrman.h:352-455 | reading what any valid state wrote gives that state with ids renumbered, and nothing is lost |
| `AddrManStream.RenumberedOk` | src/addrman.h:352-455 | the renumbered state satisfies the full invariant |
| `AddrManStream.RenumberedEntries` | src/addrman.h:380-414 | the renumbered state has the same entries, refcounts and tried flags |
| `AddrManStream.RenumberedSlots` | src/addrman.h:401-437 | every new and tried slot holds the renumbering of what it held |
| `AddrManStream.RenumberInjective` | src/addrman.h:315-334 | no two ids get the same number |
| `AddrManStream.SizeLimits` | src/addrman.h:372-378 | the counts of a valid state never exceed the limits checked on reading |
| `AddrManStream.WriteEntries` | src/addrman.h:315-334 | the entries of one kind in id order, and each one's rank |
| `AddrManStream.ReadBucket` | src/addrman.h:422-437 | reading a bucket puts each index back into the slot it came from |
| `Miner.BlockAssembler.constructor` | src/miner.cpp:154-193 | the weight limit is the configured one exactly when that is within bounds, else clamped; counters at their reserved start |
| `Miner.BlockAssembler.AddToBlock` | src/miner.cpp:233-250 | adds a transaction whose ancestors are in; weight, sigops, fees and count stay exact sums |
| `Miner.BlockAssembler.IncludePackage` | src/miner.cpp:432-436 | adds a sorted package: each member after all its ancestors, and out of the side table |
| `Miner.BlockAssembler.SelectPackage` | src/miner.cpp:408-441 | a package that fits by its cached totals keeps block weight and sigops within limits |
| `Miner.BlockAssembler.AddPackageTxs` | src/miner.cpp:315-443 | for any pool: the block is closed under ancestors, duplicate free, in parent-first order and within limits, its fees are the sum, and the loop ends; every candidate looked at is the best one left, has tracked totals, and is judged by fee, room and acceptability in that order on the block its predecessors left; selection ends only on too low a fee, on over 1000 misses near the limit, or with everything else left out for room or acceptability |
| `PackageTable.UpdatePackagesForAdded` | src/miner.cpp:252-277 | after adding transactions the side table again holds exactly the descendants of the block that were not refused, with exact totals |
| `PackageTable.UpdateDescendants` | src/miner.cpp:259-273 | one added parent is taken off exactly its descendants that are not added with it, and they are counted |
| `Miner.SortForBlock` | src/miner.cpp:294-303 | a permutation of the package by ancestor count |
| `Miner.AncestorsEarlier` | src/miner.cpp:294-303 | in a sorted package every ancestor is in the block or earlier in the list |
| `PackageTable.DeductedKnown` | src/miner.h:140-152 | an entry of the table with more ancestors taken off, at their base fee, stays tracked |
| `PackageTable.DeductedNewly` | src/miner.cpp:265-270 | an entry that enters the table has the added ancestors taken off, the first at its modified fee |
| `PackageTable.TrackedCovers` | src/miner.h:140-152 | tracked totals never understate what remains of a package nor overstate the whole |
| `PackageTable.TrackedExact` | src/miner.h:58-70 | exact totals are size and sigops of the package that would be added |
| `PackageTable.CachedFees` | src/miner.cpp:265-272 | the cached fee is that of the package that would be added iff the fee changes of the included ancestors other than the first cancel out |
| `PackageTable.CachedFeesOff` | src/miner.cpp:265-272 | counter-example: with two prioritised parents in the block the cached fee is wrong |
| `Miner.PackageWeight` | src/miner.cpp:208-216 | cached totals that fit bound the true weight and sigops of what is added |
| `Miner.CandidateOk` | src/miner.cpp:336-386 | either candidate, cached or fresh, comes with exact totals unless refused before, covers its remaining package, and is the best choice; the assert on an included entry holds |
| `Miner.BlockAssembler.NextCandidate` | src/miner.cpp:344-371 | the next of the pool order or the best of the side table, whichever has the higher fee rate |
| `Miner.BestModified` | src/miner.h:94-106 | no entry of the side table is better than the first by score |
| `Miner.ChosenBest` | src/miner.cpp:348-371 | with the pool in score order nothing that could still be included beats the candidate |
| `Miner.NoBetterTrans` | src/miner.h:94-106 | with positive sizes the cross-multiplied comparison is a transitive order |
| `Miner.FromSelected` | src/miner.cpp:384-441 | every transaction added came with a selected package that paid its fee, fitted and may be included |
| `Miner.NothingBetterLeft` | src/miner.cpp:384-387 | when the fee is too low, whatever could still be included has no higher fee rate |
| `Miner.CourseGrows` | src/miner.cpp:326-441 | one more candidate extends the course; misses are counted from the last selection |
| `Miner.StillAccounted` | src/miner.cpp:389-423 | what was left out for lack of room or for an unacceptable ancestor stays left out as the block grows |
| `PackageTable.UpdatedOk` | src/miner.cpp:252-277 | the updated side table holds no included entry, every descendant that was not refused, and tracks what was taken off each |
| `Miner.OrderedClosed` | src/miner.cpp:195-206 | a parent-first list is closed under ancestors |
| `Mempool.Pool.PackageClosed` | src/miner.cpp:408-420 | an entry with its not-included ancestors, added to a closed block, leaves it closed |
| `Mempool.Pool.FewerAncestors` | src/miner.h:111-118 | an ancestor has strictly fewer ancestors |
| `CheckQueue.RunKeeps` | src/checkqueue.h:70-162 | in every interleaving the invariant holds: nTodo is the queued checks plus those in hand, the thread counts are exact, and fAllOk accounts for every check added since the last Wait |
| `CheckQueue.WaitAnswers` | src/checkqueue.h:144-147 | Wait returns only with nothing to do, and exactly the conjunction of the checks added since the last Wait, skipped ones included |
| `CheckQueue.NoLostWakeup` | src/checkqueue.h:81-105 | while the master waits un-notified some worker holds a non-empty batch and can go on |
| `CheckQueue.CanEnter` | src/checkqueue.h:70-79 | a thread outside, and no other, can enter |
| `CheckQueue.MasterAnswered` | src/checkqueue.h:70-147 | with the master inside some schedule of the threads alone makes Wait return, with the right answer |
| `CheckQueue.NoDeadlock` | src/checkqueue.h:70-147 | so no reachable state is a deadlock |
| `CheckQueue.WorkShrinks` | src/checkqueue.h:70-128 | every step of a busy worker uses up work, so batches end |
| `CheckQueue.BatchFits` | src/checkqueue.h:106-111 | a batch is at least one check and never more than the queue |
| `CheckQueue.StepKeeps` | src/checkqueue.h:70-162 | each atomic step of any thread keeps the invariant |
| `CheckQueue.FinishKeeps` | src/checkqueue.h:80-87 | handing in a batch keeps the counts exact and notifies the master at zero |
| `CheckQueue.ExecuteKeeps` | src/checkqueue.h:119-126 | running a batch: checks after a known failure may be skipped without changing the answer |
| `CheckQueue.AddKeeps` | src/checkqueue.h:150-162 | adding checks raises nTodo by as many |
| `CheckQueue.TakeBackSame` | src/checkqueue.h:112-118 | taking a batch off the end: it and the rest together succeed exactly when the queue would |
| `MerkleTree.WidthRange` | src/merkleblock.h:66-69 | a position is a node of its level exactly when its first leaf exists |
| `MerkleTree.RootByLevels` | src/merkleblock.cpp:42-60 | the recursive root equals the root computed level by level, the older algorithm kept in the tests |
| `MerkleBlock.PartialMerkleTree.TraverseAndBuild` | src/merkleblock.cpp:62-78 | appends one flag per visited node and one hash per undescended node, depth first |
| `MerkleBlock.PartialMerkleTree.TraverseAndExtract` | src/merkleblock.cpp:80-116 | consumes bits and hashes in the same order, reports matches and marks overflow or equal siblings as bad |
| `MerkleBlock.PartialMerkleTree.constructor` | src/merkleblock.cpp:118-130 | the whole tree for a list and a mask |
| `MerkleBlock.PartialMerkleTree.ExtractMatches` | src/merkleblock.cpp:134-165 | all checks of the decoder; positions are appended, matches replaced |
| `MerkleBlock.ExtractSound` | src/merkleblock.cpp:80-165 | whatever was received: if the real, non-zero root comes out, every reported pair is that leaf of the real list, positions strictly increasing and in range |
| `MerkleBlock.ExtractComplete` | src/merkleblock.cpp:62-165 | what was built, padded or not, is accepted iff no visited siblings have equal hashes, and then gives the root and exactly the matched leaves in order |
| `MerkleBlock.WireRoundTrip` | src/merkleblock.h:86-106 | the same through packing flags to bytes and unpacking them |
| `MerkleBlock.TraverseSound` | src/merkleblock.cpp:80-116 | at any node: the real hash comes only with real leaves below it |
| `MerkleBlock.TraverseComplete` | src/merkleblock.cpp:80-116 | at any node: decoding what was built there stops exactly at its end |
| `MerkleBlock.BuiltSize` | src/merkleblock.cpp:140-147 | built trees pass the size checks: a hash per leaf at most, a bit per hash at least |
| `MerkleBlock.AcceptedUsesAll` | src/merkleblock.cpp:139-165 | an accepted tree is within all size limits, uses every hash and leaves fewer than eight bits |
| `MerkleBlock.UsesBits` | src/merkleblock.cpp:80-116 | the decoder never reads past the bits or the hashes |
| `MerkleBlock.MatchedExactly` | src/merkleblock.cpp:88-98 | the expected positions are exactly those the mask selects, once each, in order |
| `MerkleBlock.PackBits` | src/merkleblock.h:100-104 | bit p of the bytes is flag p, padding clear |
| `MerkleBlock.UnpackBits` | src/merkleblock.h:91-97 | flag p is bit p of the bytes |
| `CuckooCache.BitPackedFlags.BitSet` | src/cuckoocache.h:92-95 | raises one flag and no other |
| `CuckooCache.BitPackedFlags.BitUnset` | src/cuckoocache.h:103-106 | clears one flag and no other |
| `CuckooCache.BitPackedFlags.BitIsSet` | src/cuckoocache.h:113-116 | reads one flag |
| `CuckooCache.BitPackedFlags.constructor` | src/cuckoocache.h:61-68 | all flags start raised |
| `CuckooTable.LocInRange` | src/cuckoocache.h:243-253 | every hash location is inside the table |
| `CuckooTable.LocScales` | src/cuckoocache.h:243-253 | a location is the hash scaled from 2^32 to the table size and rounded down, so it is monotone and covers first and last slot |
| `CuckooCache.Cache.Setup` | src/cuckoocache.h:340-353 | sizes and epoch size with 32-bit wrap-around; nothing kept, the invariant holds |
| `CuckooCache.Cache.EpochCheck` | src/cuckoocache.h:289-321 | counts down or scans and ages exactly when the current epoch is full, always leaving room for one more entry |
| `CuckooCache.CheckMakesRoom` | src/cuckoocache.h:289-321 | current entries plus the counter stay under epoch_size + max(1, epoch_size/16), with one to spare |
| `CuckooCache.NextLoc` | src/cuckoocache.h:430 | the location after the last one used, or the second when it is unknown |
| `CuckooCache.Cache.InsertAbsent` | src/cuckoocache.h:407-439 | the slots become exactly what displacing step by step makes of them; table plus dropped value = old table plus element; kept entries keep their epochs; the dropped value was discardable unless the rounds ran out |
| `CuckooCache.Cache.Insert` | src/cuckoocache.h:392-440 | a present element is kept in place as current, an absent one displaces exactly as specified; afterwards it is found unless the rounds ran out and it was itself dropped |
| `CuckooTable.RunsOut` | src/cuckoocache.h:407-439 | the rounds run out exactly when depth_limit elements in a row, starting with the new one, had no discardable slot of their own |
| `CuckooTable.PlacedAtOnce` | src/cuckoocache.h:408-415 | an element with a discardable slot is stored without displacing any |
| `CuckooTable.SecondChance` | src/cuckoocache.h:407-439 | with two rounds, room for the element in the way is enough |
| `CuckooTable.LastRound` | src/cuckoocache.h:430-439 | with one round and no room the element ends in its second location and what was there is dropped |
| `CuckooTable.NotBack` | src/cuckoocache.h:416-430 | a displaced element with distinct locations moves to another of its own, not back |
| `CuckooTable.FirstMove` | src/cuckoocache.h:430 | the first displacement is at the second location |
| `CuckooTable.InsertedThere` | src/cuckoocache.h:380-390 | after an insertion the element is at one of its locations unless it is what was dropped |
| `CuckooCache.Cache.Contains` | src/cuckoocache.h:467-477 | true exactly when the element is at one of its locations; erase marks one such slot |
| `CuckooCache.Cache.FoundMeansPresent` | src/cuckoocache.h:467-477 | for every element but the filler a lookup is membership, only inserted elements are found, and every kept one is |
| `CuckooCache.Cache.EraseThenFind` | src/cuckoocache.h:442-462 | insert, then an erasing lookup that succeeds: the next lookup succeeds |
| `CuckooCache.Cache.Run` | src/cuckoocache.h:289-477 | over any run the kept entries of the current epoch stay within the bound and no lookup finds what was never inserted |
| `CuckooTable.WriteKeeps` | src/cuckoocache.h:412-436 | writing an absent element to an own slot keeps locations and uniqueness, and moves the epoch flag with it |
| `CuckooCache.MovingSwapped` | src/cuckoocache.h:430-436 | one displacement: slots plus the element in hand are conserved |
| `RollingBloom.RollingBloomFilter.constructor` | src/bloom.cpp:218-243 | generation size (nElements + 1) / 2 and an empty filter |
| `RollingBloom.RollingBloomFilter.Reset` | src/bloom.cpp:306-314 | all cells clear, a new tweak, no keys remembered |
| `RollingBloom.RollingBloomFilter.Rotate` | src/bloom.cpp:252-267 | the next generation wipes exactly the cells of the one three before; nothing of the last two is lost |
| `RollingBloom.RollingBloomFilter.Insert` | src/bloom.cpp:250-278 | bit h & 63 of words ((h >> 6) % size) & ~1 and or 1 gets the current generation for every hash of the key, and no other bit of any word changes except by wiping |
| `RollingBloom.RollingBloomFilter.Contains` | src/bloom.cpp:287-298 | true iff for every hash bit h & 63 is set in one of its two words; always true for the last 2*ceil(nElements/2) + m keys, m being the keys of the current generation so far; true only if each position is one of those keys' positions, so never after a reset |
| `RollingBloom.RollingBloomFilter.SharedCell` | src/bloom.cpp:252-298 | every set cell is a cell of some remembered key |
| `RollingBloom.TracedThroughWipe` | src/bloom.cpp:252-267 | after a rotation every set cell still comes from a key of the three last generations |
| `RollingBloom.TracedThroughMark` | src/bloom.cpp:270-277 | marking adds only cells of the key marked |
| `RollingBloom.MarkedWord` | src/bloom.cpp:271-276 | which bit of which word one hash writes, and with what |
| `RollingBloom.SeenWords` | src/bloom.cpp:289-293 | a bit of the or of the two words is set exactly when it is in either |
| `RollingBloom.RollingBloomFilter.RecentFound` | src/bloom.h:114 | the window of remembered keys, from the invariant |
| `RollingBloom.Wipe` | src/bloom.cpp:258-266 | clears exactly the two-bit cells holding the generation's number |
| `RollingBloom.HeldThroughWipe` | src/bloom.cpp:252-267 | a key of the two generations before survives a rotation |
| `RollingBloom.HeldThroughMark` | src/bloom.cpp:270-277 | a key survives other keys overwriting shared cells |
| `RollingBloom.MarkedCell` | src/bloom.cpp:274-276 | marking changes one cell |
| `BloomCells.CellWiped` | src/bloom.cpp:262-265 | the mask clears a cell iff it holds the number |
| `ArithUint256.ArithUint256.ShiftLeft` | src/arith_uint256.cpp:25-39 | value * 2^shift mod 2^256, for any shift |
| `ArithUint256.ArithUint256.ShiftRight` | src/arith_uint256.cpp:42-56 | floor of value / 2^shift, for any shift |
| `ArithUint256.ArithUint256.MulSmall` | src/arith_uint256.cpp:59-68 | value * b mod 2^256 |
| `ArithUint256.ArithUint256.Mul` | src/arith_uint256.cpp:71-84 | the product mod 2^256 when the operands are different objects; 0 when an object is multiplied by itself |
| `ArithUint256.ArithUint256.AddRow` | src/arith_uint256.cpp:76-82 | one row of the product, exact up to what falls off the top |
| `ArithUint256.ArithUint256.Div` | src/arith_uint256.cpp:87-110 | the exact floor; throws iff the divisor is zero, leaving zero |
| `ArithUint256.ArithUint256.CompareTo` | src/arith_uint256.cpp:113-122 | the order of the values |
| `ArithUint256.ArithUint256.Bits` | src/arith_uint256.cpp:175-187 | one more than the position of the highest set bit, 0 for zero |
| `ArithUint256.ArithUint256.Add` | src/arith_uint256.h:142-152 | the sum mod 2^256, also of an object with itself |
| `ArithUint256.ArithUint256.Sub` | src/arith_uint256.h:154-158 | the difference mod 2^256 |
| `ArithUint256.ArithUint256.Negate` | src/arith_uint256.h:84-91 | 2^256 minus the value, mod 2^256 |
| `ArithUint256.ArithUint256.Not` | src/arith_uint256.h:76-82 | 2^256 - 1 minus the value |
| `ArithUint256.ArithUint256.Increment` | src/arith_uint256.h:180-187 | one more, mod 2^256 |
| `ArithUint256.ArithUint256.GetLow64` | src/arith_uint256.h:252-256 | the value mod 2^64 |
| `ArithUint256.ArithUint256.constructor` | src/arith_uint256.h:56-64 | a 64-bit number |
| `LimbShift.UpNextIn` | src/arith_uint256.cpp:32-37 | one round of a left shift conserves the shifted value up to what falls off |
| `LimbShift.DownNextIn` | src/arith_uint256.cpp:49-54 | one round of a right shift conserves the value up to the rest |
| `CompactTarget.SetCompact` | src/arith_uint256.cpp:207-225 | the value mod 2^256, the sign, and overflow exactly when the number needs more than 256 bits |
| `CompactTarget.OverflowExact` | src/arith_uint256.cpp:221-223 | the three-way overflow test is exact |
| `CompactTarget.GetCompact` | src/arith_uint256.cpp:227-248 | reads back as the number rounded down at the dropped bits, with its sign; both asserts hold |
| `CompactTarget.RoundedClose` | src/arith_uint256.cpp:227-248 | rounding loses less than the last kept unit |
| `CompactTarget.GetBlockProof` | src/chain.cpp:122-135 | for every nBits: 0 for a bad target, else exactly floor(2^256 / (target + 1)) |
| `CompactTarget.TargetPlusOne` | src/chain.cpp:134 | a target that fits plus one never wraps to zero |
| `CompactTarget.ProofFormula` | src/chain.cpp:130-134 | the formula without 2^256 equals the quotient |
| `BlockChain.GetSkipHeight` | src/chain.cpp:75-83 | always strictly lower than the height |
| `BlockChain.LowestOneCleared` | src/chain.cpp:72 | clears the lowest set bit |
| `BlockChain.BlockIndex.GetAncestor` | src/chain.cpp:85-109 | ends, and equals walking parents, or null outside the range |
| `BlockChain.BlockIndex.BuildSkip` | src/chain.cpp:116-120 | points to the ancestor at the skip height |
| `BlockChain.BlockTree.Attach` | src/chain.cpp:85-120 | attaching blocks and building skips keeps every skip pointer right |
| `BlockChain.Chain.SetTip` | src/chain.cpp:13-23 | with its early stop, slot i is the tip's ancestor at height i for all i |
| `BlockChain.Chain.FindFork` | src/chain.cpp:53-62 | the highest common ancestor of the block and the tip; null iff there is none |
| `BlockChain.Chain.Next` | src/chain.h:504-509 | the child in the chain, or null |
| `BlockChain.Chain.ContainsMeans` | src/chain.h:499-501 | in the chain iff the tip or an ancestor of it |
| `BlockChain.LastCommonAncestor` | src/chain.cpp:156-171 | the highest common ancestor; null iff there is none; the assert holds |
| `BlockChain.AncestorVia` | src/chain.cpp:85-109 | going through an intermediate ancestor makes no difference |
| `BlockChain.SharedBelow` | src/chain.cpp:19 | a slot already right means all below it are |
| `Base58.EncodeBase58` | src/base58.cpp:73-111 | a 1 per leading zero byte, then the base 58 digits of the number |
| `Base58.DecodeBase58` | src/base58.cpp:23-71 | accepted iff the trimmed string is over the alphabet; then the bytes it stands for |
| `Base58.DecodeEncoded` | src/base58.cpp:23-111 | decode(encode(b)) = b for every byte sequence |
| `Base58.EncodeDecoded` | src/base58.cpp:23-111 | encode(decode(s)) is s without surrounding whitespace, for every accepted s |
| `Base58.MulAdd` | src/base58.cpp:48-55 | one multiply-and-add over the buffer; the carry always runs out, so the assert holds |
| `Base58.BytesToDigits` | src/base58.cpp:83-105 | feeding bytes into the buffer gives the minimal base 58 digits |
| `Base58.LetterIs` | src/base58.cpp:21 | the alphabet, character by character |
| `Base58.LettersDiffer` | src/base58.cpp:21 | no character stands for two digits |
| `Positional.EncodeRoom` | src/base58.cpp:84 | the 138/100 buffer always suffices |
| `Positional.DecodeRoom` | src/base58.cpp:36 | the 733/1000 buffer always suffices |
| `Positional.RebasedBack` | src/base58.cpp:23-111 | changing base with leading zeros kept, there and back, is the identity |
| `PartialBlock.PartiallyDownloadedBlock.InitData` | src/blockencodings.cpp:49-171 | invalid iff rejected, failed iff ids collide or a bucket is crowded; else prefilled transactions are in place, each short id's slot is exactly what the two loops with their early exits leave, and mempool_count is the filled free slots |
| `PartialBlock.PartiallyDownloadedBlock.PlacePrefilled` | src/blockencodings.cpp:60-78 | accepted iff every offset is in range; each transaction at its own slot, nothing else filled |
| `PartialBlock.PartiallyDownloadedBlock.MapShortIds` | src/blockencodings.cpp:85-104 | the i-th short id maps to the i-th free slot |
| `PartialBlock.PartiallyDownloadedBlock.SkipFilled` | src/blockencodings.cpp:88-89 | the scan stays in bounds |
| `PartialBlock.PartiallyDownloadedBlock.MatchPool` | src/blockencodings.cpp:106-134 | each short id's slot after the mempool transactions looked at; the loop ends the first time all slots are filled, and not before |
| `PartialBlock.PartiallyDownloadedBlock.MatchExtra` | src/blockencodings.cpp:136-165 | the same for the extra transactions, with the witness hash compared |
| `CompactBlock.PoolLaw` | src/blockencodings.cpp:109-126 | a slot is filled by the mempool exactly when exactly one transaction looked at matches, and then with it |
| `CompactBlock.ExtraLaw` | src/blockencodings.cpp:136-157 | a filled slot stays iff all further matches have its witness hash; an unseen one takes the first match and then does so; a cleared one stays clear |
| `CompactBlock.Offer.FinalLaw` | src/blockencodings.cpp:106-165 | two mempool matches leave the slot free, one stays unless a different extra match follows, without any the first extra match is taken unless a different one follows |
| `CompactBlock.Offer.WholePool` | src/blockencodings.cpp:127-132 | while some short id has no match in the mempool, the whole mempool is looked at |
| `CompactBlock.Offer.WholeExtra` | src/blockencodings.cpp:158-163 | and all extra transactions, while some short id has no match at all |
| `PartialBlock.FinalOffered` | src/blockencodings.cpp:106-165 | wherever the loops stopped, a slot holds only what was offered for it, and the only offer if there is just one |
| `PartialBlock.CountFull` | src/blockencodings.cpp:131 | the count equals the number of short ids exactly when every one has a transaction |
| `PartialBlock.PartiallyDownloadedBlock.FillBlock` | src/blockencodings.cpp:179-214 | too few or too many are rejected; the right number gives the merged list |
| `PartialBlock.Rebuilt` | src/blockencodings.cpp:186-194 | own transactions in the slots and the wanted ones supplied rebuild the block exactly |
| `PartialBlock.RelayRebuilds` | src/blockencodings.cpp:19-29 | from a block's own message, without short id collisions, the block comes back |
| `PartialBlock.CompactMessage` | src/blockencodings.cpp:19-29 | the first transaction prefilled, short ids for the others in order |
| `PartialBlock.MessageAccepted` | src/blockencodings.cpp:49-78 | a block's own message is never rejected |
| `PartialBlock.IndexesRoundTrip` | src/blockencodings.h:37-71 | a written index list reads back as itself iff it is strictly increasing; any other is refused |
| `PartialBlock.WriteIndexes` | src/blockencodings.h:64-69 | differences in 64 bits |
| `PartialBlock.ReadIndexes` | src/blockencodings.h:42-63 | refuses values past 16 bits; the offset wraps |
| `CompactBlock.Increasing` | src/blockencodings.cpp:64-70 | prefilled slots are strictly increasing |
| `CompactBlock.FreeSlotOrder` | src/blockencodings.cpp:85-92 | free slots come in order |
| `CompactBlock.SlotOfSome` | src/blockencodings.cpp:85-92 | every free slot belongs to some short id |
| `CompactBlock.SixteenBits` | src/blockencodings.cpp:85-92 | 16-bit slots are intact iff there are at most 65536 transactions |
| `BoolExpr.SingleParse` | src/LibBoolEE.cpp:19-68 | the subexpressions between top-level operators, and its two errors; pieces are shorter than the whole when there are two or more |
| `BoolExpr.NameCharacters` | src/LibBoolEE.cpp:154-156 | the characters of a name are exactly letters, digits, underscore, hash and dot; no space, parenthesis or operator |
| `BoolExpr.RemoveWhitespaces` | src/LibBoolEE.cpp:158-166 | the string without whitespace |
| `BoolExpr.Resolve` | src/LibBoolEE.cpp:70-72 | ends on every string, with a value or the error found first |
| `BoolExpr.ResolveRec` | src/LibBoolEE.cpp:74-146 | or before and before unary; the same on a string without spaces |
| `BoolExpr.ResolveAll` | src/LibBoolEE.cpp:127-144 | all subexpressions are evaluated, the first error wins |
| `BoolFormula.ResolvesFormula` | src/LibBoolEE.cpp:70-146 | any string that without its spaces is the printed text of a formula, all variables valued, evaluates to the formula's truth value |
| `BoolFormula.ResolvesPrinted` | src/LibBoolEE.cpp:74-146 | the same for the text itself |
| `BoolFormula.ParsedParts` | src/LibBoolEE.cpp:19-68 | splitting a printed formula gives the texts of its parts |
| `BoolFormula.ScanNested` | src/LibBoolEE.cpp:23-32 | inside parentheses nothing is split |
| `BoolFormula.PartsValue` | src/LibBoolEE.cpp:127-144 | a formula has the value of its parts joined |

## Left out

- PartialBlock.PartiallyDownloadedBlock.InitData: covers messages of at most 65536 transactions; past that the stored 16-bit slots no longer name the slots, as `CompactBlock.SixteenBits` states. The extra_count statistic is not modelled.
- PartialBlock.PartiallyDownloadedBlock.FillBlock: the block check is a parameter; only the assembled list and the rejection of a wrong number are stated.
- CuckooCache.Cache.Setup: the depth limit is a parameter, because it comes from a float logarithm; marking by concurrent readers is not modelled.
- RollingBloom.RollingBloomFilter.constructor: the number of filter bits and hash functions are parameters, because they come from float formulas; false positive rates are not stated.
- AddrManStream.Unserialize: states the reading of what a valid state wrote, in the current format and bucket count; arbitrary or older files are not covered.
- Coins.CoinsViewCache.SpendCoin: the token side effects that depend on the token cache are not modelled.
- Coins.CoinsViewCache.Flush: the best-block hash passed along is not modelled.
- Miner.BlockAssembler.AddPackageTxs: scores are compared exactly, the code multiplies as doubles; whether a transaction may be included (finality, witness) and the fee rate function are parameters.
- BlockChain.BlockIndex.GetAncestor: says nothing about the number of steps.
- BoolExpr.ResolveRec: malformed strings get some value or some error as in the code; no claim that they are refused.
- Base58.EncodeBase58: 32-bit overflow of the size computation for inputs of many megabytes is not modelled; neither are the checksum and address layers above.
- MerkleBlock.PartialMerkleTree.TraverseAndBuild: positions are unbounded numbers; the shifts of the code fit 32 bits for every transaction count it admits.
- The coin database's files and write batches, the LevelDB wrapper, and transaction-level AddCoins.
- Select_, GetChance and the probabilities of the address manager.
- The other operators of 256-bit numbers (bitwise, hex, double) and GetBlockProofEquivalentTime.
- GetLocator, FindEarliestAtLeast and the block status flags.
- The non-rolling bloom filter, CMerkleBlock's matching of transactions, the fast Merkle root of the consensus code.
- Token, wallet, messaging, network, RPC and staking code, configuration and start-up.
- Simple value types (amount compression, subnets, limited maps): easy members only.
