# A verified model of the node's core data structures

This project models, in Dafny, eight parts of the node and proves what each of them is for:

- **Address manager** (`AddrManState`, `AddrManBooks`, `AddrManSteps`, `AddrManOutcomes`, `AddrManRuns`, `AddrMan`,
  `AddrManCheck`, `AddrManStore`, `AddrManRoundTrip`, `AddrManRebucket`, `AddrManLoaded`, `AddrManDisk`). The new and tried tables, the id
  maps, the random order, the counters and the pending collisions are one state; its full consistency is kept by every
  operation and every run, survives saving and loading, and holds of every file, however corrupt, that loads at all.
  What each operation does to an entry and when is stated on the state before it, and so is what is lost when a file is
  read under another asmap version.
- **Coins cache** (`CoinsStack`, `CoinsCache`). A stack of write-back caches with DIRTY and FRESH flags over a database,
  proved to show the same coins as plain maps, call by call, and exactly when a change below the top is safe.
- **Check queue** (`CheckQueue`). The worker protocol as a state machine over its critical sections, for any number of
  threads and any interleaving: every round is sound, and every round ends.
- **Block index and active chain** (`Chain`). Skip lists, fork points and tips over a mutable tree of blocks.
- **256-bit arithmetic and compact targets** (`WordMath`, `ArithShift`, `ArithUint`, `Compact`, `CompactTarget`).
  In-place 32-bit word loops proved to be integer arithmetic; the compact form and the work of a target.
- **Base 58** (`Radix`, `Base58`, `Base58Codec`). The digit buffers are large enough for inputs of any length, and both
  round trips hold.
- **Bech32** (`Bech32Code`, `Bech32Distance`, `Bech32Errors`, `Bech32`, `Bech32Text`, `Bech32Vectors`). The packed checksum loop is
  polynomial division over the field of 32 elements. Encoding and decoding invert each other, and every change of one to
  three symbols that leaves the separator in place is caught; the proof is the BCH argument over the field of 1024
  elements. A character after the separator is one symbol, a character of the readable part is two.
- **Compact blocks** (`CompactBlocks`, `CompactMatch`, `CompactOutcome`, `CompactRebuild`, `PartialBlock`). Slots, short
  ids, matching of known transactions, and the reconstruction of the block. What the two matching loops with their early
  exits leave behind is read off the lists of transactions alone.

Where the original changes objects or buffers in place, the model does too: classes with `modifies` clauses, arrays for
fixed-size tables and buffers, loops where the original loops. Each such method is proved equal to a function on values,
and the theorems are lemmas about those functions.

Clocks, random choices, hash functions, the order in which hash maps are walked and the outcome of the scheduler are
parameters, or are left open so that the theorems hold for every choice.

Some properties turned out to hold only under a condition. Each has its exact condition and a counterexample:

- `AddCoin` without permission to overwrite keeps the cache consistent if and only if the coin is not visible below
  (`CoinsStack.AddKeepsIff`, `CoinsStack.UnguardedAddResurrects`).
- The address manager's own check accepts a state if and only if it is consistent up to four listed points that it does
  not look at (`AddrManCheck.ConsistentIff`, `AddrManCheck.HiddenCounter`); no operation and no file leads to such a state
  (`AddrManRuns.RunSafe`, `AddrManDisk.Unserialize`).
- The list of extra transactions may hold entries without a transaction. One of them is dereferenced if and only if it is
  looked at, its short id is asked for, and the offers before it agree on a transaction (`CompactOutcome.LoopsEnd`,
  `PartialBlock.NullReached`).
- The count of matched transactions is the number of filled slots if and only if no such entry was the first offer for a
  short id asked for (`PartialBlock.CountersMean`, `PartialBlock.NullCounted`).
- The counter of transactions taken from the extra list stays within the count if and only if no more ids are lost to
  conflicting extra entries than are gained from them; otherwise the unsigned counter wraps (`PartialBlock.CountersMean`,
  `CompactOutcome.FreshExtraWithinTotal`, `PartialBlock.ExtraWraps`).

## Model

| member | source | states |
|---|---|---|
| AddrManBooks.CreateKeeps | src/addrman.cpp:416-430 | a created entry is the only one without a table reference; all other books (permutation, address index, tables, counters) stay exact |
| AddrManBooks.SwapKeeps | src/addrman.cpp:432-454 | swapping two places of the random order keeps it a permutation matched by every entry's own position |
| AddrManBooks.DeleteKeeps | src/addrman.cpp:456-471 | deleting an unreferenced new entry leaves all books exact without it |
| AddrManBooks.UnlinkKeeps | src/addrman.cpp:473-489 | the holder of an occupied new slot exists with a positive reference count, and dropping the slot keeps counts equal to occupied slots |
| AddrManBooks.LinkKeeps | src/addrman.cpp:610-613 | a reference added at the entry's own position in an empty slot keeps the books, up to eight references per entry |
| AddrManBooks.ClearNewKeeps | src/addrman.cpp:473-489 | clearing any slot, occupied or not, keeps the books; an entry left without references is gone |
| AddrManSteps.EvictKeeps | src/addrman.cpp:515-541 | an evicted tried entry is new again with exactly one reference; nothing else in tried changes |
| AddrManSteps.MakeTriedKeeps | src/addrman.cpp:491-548 | promotion keeps full consistency: the slot holds the promoted entry, its former holder is new with one reference, every other tried entry stays |
| AddrManSteps.PlaceKeeps | src/addrman.cpp:599-623 | the last part of AddSingle restores full consistency whether or not the entry gets a slot, and leaves tried alone |
| AddrManSteps.AddSingleKeeps | src/addrman.cpp:550-624 | for every address, source, penalty, clock and chance AddSingle keeps full consistency and never touches tried |
| AddrManSteps.GoodKeeps | src/addrman.cpp:626-679 | Good keeps consistency and the collision set sound, and removes nothing from tried |
| AddrManSteps.ResolveOneKeeps | src/addrman.cpp:912-973 | resolving one collision keeps the manager sound; a tried entry leaves only by the eviction rule, and no tried slot becomes empty |
| AddrManSteps.SelectFinds | src/addrman.cpp:975-1001 | a pending collision that still exists always has a tried entry to test |
| AddrManOutcomes.TerribleIff | src/addrman.cpp:69-92 | an entry is worth keeping exactly when it was tried within a minute, or is neither from the future nor too old nor has failed too often, with the limits in seconds |
| AddrManOutcomes.PlaceOutcome | src/addrman.cpp:599-623 | placing succeeds exactly when the entry does not hold the slot and the slot is free or given up; no other slot and no statistics change, and an entry without a first place is gone |
| AddrManOutcomes.AddSingleOutcome | src/addrman.cpp:550-624 | exactly when an address is added, by conditions on the state before: unknown, if its slot is free or its holder is terrible or has references to spare; known, if the time is news, it is not in tried, has fewer than eight references, the draw is lucky and the slot is free or its holder terrible; and the time, services and source its entry then has |
| AddrManOutcomes.EvictOutcome | src/addrman.cpp:515-541 | an evicted entry takes the slot that its own source gives it, and no other slot changes |
| AddrManOutcomes.MakeTriedOutcome | src/addrman.cpp:491-548 | promotion takes all new slots from the entry, gives the displaced one its own, and changes no statistics |
| AddrManOutcomes.GoodOutcome | src/addrman.cpp:626-679 | an address moves exactly when it is known, not in tried and its tried slot is free; it then holds that slot and no new slot; otherwise both tables stay and it is pending exactly if it is not in tried and fewer than ten are; its success and try are now, its attempts zero and its time untouched |
| AddrManOutcomes.ResolveOutcome | src/addrman.cpp:912-973 | one turn by the statistics of the two entries: the pending one replaces the other exactly when that one has had no success for four hours and failed its test or could not be tested for forty minutes; it waits exactly when the four hours are over but neither holds; else it is forgotten |
| AddrManOutcomes.SelectOutcome | src/addrman.cpp:975-1001 | a pending collision is tested against the tried entry whose slot it would take, and nothing changes |
| AddrManOutcomes.AttemptOutcome | src/addrman.cpp:693-711 | which statistics an attempt changes, and that it counts as a failure exactly if asked to and none was counted since the last good connection |
| AddrManOutcomes.CountedOnce | src/addrman.cpp:705-710 | two attempts without a good connection in between count as one failure at most |
| AddrManOutcomes.ConnectedOutcome | src/addrman.cpp:877-894 | only the time changes, and exactly if it is more than twenty minutes behind |
| AddrManOutcomes.SetServicesOutcome | src/addrman.cpp:896-910 | only the services of a known address change |
| AddrManRuns.StepSafe | src/addrman.cpp:550-1001 | every public operation keeps the manager sound, and tried loses entries only by proper eviction |
| AddrManRuns.RunSafe | src/addrman.cpp:550-1001 | over every run of any length the manager stays consistent, occupied tried slots stay occupied and the number of tried entries never falls |
| AddrManRuns.TriedCount | src/addrman.cpp:1110-1130 | the tried counter equals the number of occupied tried slots |
| AddrManRuns.EmptySound | src/addrman.cpp:109-125 | a new manager is sound, so every run from it is safe |
| AddrManRuns.LeavesTriedOnlyResolved | src/addrman.cpp:912-973 | if an entry is in tried before a run and not after, some collision resolution in the run evicted it by the rule |
| AddrManRuns.ResolveAllIsRun | src/addrman.cpp:912-973 | the loop over the collisions is a run with exactly one turn for each, in the order of its walk |
| AddrMan.AddrMan.constructor | src/addrman.cpp:109-125 | an empty, valid manager |
| AddrMan.AddrMan.Find | src/addrman.cpp:401-414 | in a consistent manager, an id is returned exactly when its entry has this address, and none exactly when no entry has it |
| AddrMan.AddrMan.Create | src/addrman.cpp:416-430 | the in-place update equals the value-level creation |
| AddrMan.AddrMan.SwapRandom | src/addrman.cpp:432-454 | the in-place swap equals the value-level swap; its asserts hold |
| AddrMan.AddrMan.Delete | src/addrman.cpp:456-471 | its asserts hold and the new state is the value-level deletion |
| AddrMan.AddrMan.ClearNew | src/addrman.cpp:473-489 | its assert holds and the array slot and entry are cleared as specified |
| AddrMan.AddrMan.RemoveReferences | src/addrman.cpp:495-509 | the walk over all buckets with early stop removes every reference of the entry |
| AddrMan.AddrMan.MakeTried | src/addrman.cpp:491-548 | no assert fires and the state is the value-level promotion with eviction |
| AddrMan.AddrMan.Place | src/addrman.cpp:599-623 | slot choice and overwrite rule as specified, in place |
| AddrMan.AddrMan.AddSingle | src/addrman.cpp:550-624 | a valid manager stays valid; result and state equal the specification for every clock and chance |
| AddrMan.AddrMan.Good_ | src/addrman.cpp:626-679 | state and result equal the specification; with test-before-evict the manager stays valid |
| AddrMan.AddrMan.Attempt_ | src/addrman.cpp:693-711 | only the entry's statistics change; the manager stays valid |
| AddrMan.AddrMan.Connected_ | src/addrman.cpp:877-894 | only the entry's time changes; the manager stays valid |
| AddrMan.AddrMan.ResolveCollisions_ | src/addrman.cpp:912-973 | in whatever order the set is walked, each collision pending at the start is treated exactly once and the manager stays valid |
| AddrMan.AddrMan.Resolve | src/addrman.cpp:914-971 | one turn of the walk equals the value-level resolution |
| AddrMan.AddrMan.SelectTriedCollision_ | src/addrman.cpp:975-1001 | the returned entry, if the collision still exists, is in tried; the manager stays valid |
| AddrMan.AddrMan.GetAddr_ | src/addrman.cpp:812-851 | no entry twice, never above the limit, only wanted entries, and none wanted is missing when the limit is not reached |
| AddrMan.LimitMeans | src/addrman.cpp:817-824 | the limit is the largest number within the size, the percentage of the size and the maximum, where these are given |
| AddrMan.WantsIff | src/addrman.cpp:841-845 | wanted are the entries of the network asked for, and if filtered only those that are not terrible |
| AddrManCheck.CheckEntries | src/addrman.cpp:1077-1108 | the pass over the entries succeeds exactly when no entry contradicts the other indexes, and then has collected the tried ids, reference counts and network counts |
| AddrManCheck.CheckTriedTable | src/addrman.cpp:1115-1130 | striking off tried ids succeeds with none left exactly when the table holds each tried entry once, at its own place |
| AddrManCheck.CheckNewTable | src/addrman.cpp:1132-1145 | counting down references succeeds with none left exactly when each new entry occupies as many own slots as its count says |
| AddrManCheck.CheckAddrman | src/addrman.cpp:1063-1166 | returns zero exactly when the stated conditions hold of the whole state |
| AddrManCheck.ConsistentIff | src/addrman.cpp:1063-1166 | full consistency is exactly what the check accepts plus four points the check does not look at |
| AddrManCheck.HiddenCounter | src/addrman.cpp:1154-1163 | the check accepts a state in which the counter of a network in use is missing |
| AddrManRoundTrip.CountsFit | src/addrman.cpp:268-280 | a consistent manager never has more entries than the reader accepts |
| AddrManRoundTrip.RoundTrip | src/addrman.cpp:133-399 | reading back what was written succeeds, loses nothing, is consistent and rebuilds the same records, tables, reference counts and counters up to renumbering |
| AddrManDisk.Serialize | src/addrman.cpp:133-228 | the written stream is the specified file for the order in which the map was walked |
| AddrManDisk.ReadContent | src/addrman.cpp:282-376 | entries, bucket references and their replacement rule, read into the arrays, equal the specification for any content |
| AddrManLoaded.LoadNewGrounded | src/addrman.cpp:282-291 | whatever the records say, the entries read for the new table have positions, ids, an address index without stale ids, and counters |
| AddrManLoaded.LoadTriedOneGrounded | src/addrman.cpp:295-314 | a tried record, kept or lost, keeps that |
| AddrManLoaded.PlaceOneGrounded | src/addrman.cpp:348-376 | so does a bucket reference of any file, and it gives references only to valid addresses |
| AddrManLoaded.DeleteGrounded | src/addrman.cpp:456-471 | so does deleting an entry, also when another entry shared its address |
| AddrManLoaded.GroundedSound | src/addrman.cpp:378-398 | once no entry is left unreferenced, such a state passes the check exactly if it is fully consistent |
| AddrManLoaded.PlaceOneOutcome | src/addrman.cpp:348-376 | what a bucket reference of any file comes to: the recorded place, the place of the own source, or none, each exactly when |
| AddrManLoaded.LoadTriedOneOutcome | src/addrman.cpp:295-314 | a tried record is kept exactly if its address is valid and its slot is free |
| AddrManLoaded.HeaderOutcome | src/addrman.cpp:241-280 | which files are refused before any entry is read, and why |
| AddrManLoaded.HeaderWritten | src/addrman.cpp:175-189 | format, compatibility, counts and bucket count as written, and the bucket count a reader takes from them |
| AddrManDisk.Prune | src/addrman.cpp:378-388 | exactly the new entries without a reference are deleted, each once, and none is left |
| AddrManDisk.Unserialize | src/addrman.cpp:231-399 | every file, good or corrupt, ends in the specified status and state with no internal assertion failing on the way; a file that loads without complaint leaves a valid manager, so every later run is safe |
| AddrManRebucket.Rebuckets | src/addrman.cpp:231-399 | a manager written with one set of bucket hashes and read with another, under another asmap version or bucket count: the load succeeds, the own slot of every new entry is taken, an entry is lost exactly if another has taken it, and no entry holds any other slot |
| AddrManRebucket.KeptIff | src/addrman.cpp:295-314 | a tried entry is kept exactly if none written before it has the same slot now |
| AddrManRebucket.KeptAll | src/addrman.cpp:295-314 | with the hashes of the writer all tried entries are kept |
| AddrManDisk.SaveAndLoad | src/addrman.cpp:133-399 | saving one manager object and loading it into another always succeeds and leaves a valid one: the same up to renumbering under the same asmap version, and what rebucketing leaves under another |
| CoinsStack.NeverMisapplied | src/coins.cpp:208-277 | from a consistent stack the FRESH-misapplied exception cannot be reached |
| CoinsStack.FetchKeeps | src/coins.cpp:68-87 | a caching lookup keeps every layer consistent and changes no layer's view |
| CoinsStack.FetchFills | src/coins.cpp:68-87 | a lookup adds a clean copy to every layer down to the first that holds the outpoint, and touches nothing else |
| CoinsStack.AddKeepsIff | src/coins.cpp:89-130 | adding a coin keeps the stack consistent if and only if overwriting is allowed, or the entry is cached here, or the base does not show the coin |
| CoinsStack.AddShows | src/coins.cpp:89-130 | after adding, the view is the old view with the coin |
| CoinsStack.AddOutcome | src/coins.cpp:89-130 | an add is refused exactly if it would overwrite an unspent coin of this cache without permission; else the entry is dirty, and FRESH exactly if it was or if no overwriting was foreseen and it was not dirty |
| CoinsStack.UnspendableIff | src/script/script.h:563-566 | which scripts make a coin unspendable |
| CoinsStack.SpendKeeps | src/coins.cpp:153-177 | spending keeps consistency and removes exactly the coin from the view, although a FRESH entry is simply dropped |
| CoinsStack.SpendOutcome | src/coins.cpp:153-177 | a FRESH coin leaves no trace, any other a dirty spent entry |
| CoinsStack.UncacheKeeps | src/coins.cpp:310-323 | uncaching keeps consistency and the view |
| CoinsStack.UncacheOutcome | src/coins.cpp:310-323 | a clean entry is gone, a dirty one stays |
| CoinsStack.WriteDownKeeps | src/coins.cpp:208-277 | after a batch write the parent is consistent and shows what the child showed |
| CoinsStack.WrittenOutcome | src/coins.cpp:208-277 | each entry of the parent after a batch write: coin, flags, and when it is dropped |
| CoinsStack.FlushKeeps | src/coins.cpp:279-289 | a flush leaves an empty cache whose view is unchanged |
| CoinsStack.SyncKeeps | src/coins.cpp:291-300 | a sync keeps the unspent coins cached, all clean, with the view unchanged |
| CoinsStack.UnflaggedOutcome | src/coins.cpp:291-300 | after a sync exactly the unspent coins are cached, all clean |
| CoinsStack.StepRefines | src/coins.cpp:44-323 | each guarded call moves the stack and plain maps in step, in every layer's view and in the result |
| CoinsStack.RunRefines | src/coins.cpp:44-323 | over every guarded run, every layer's coins and every result equal those of plain maps |
| CoinsStack.UnguardedAddResurrects | src/coins.cpp:89-130 | without the guard a spent coin reappears |
| CoinsStack.LowerShows | src/coins.cpp:68-87 | after a change below, the top shows it exactly where no layer between holds the outpoint |
| CoinsStack.LowerChangeIff | src/coins.cpp:89-323 | a change of a lower layer keeps the layers above consistent if and only if every outpoint that changes is dirty in the first layer above that holds it, and not FRESH if it becomes unspent |
| CoinsStack.LowerAddIff | src/coins.cpp:89-130 | the same for an add on a lower layer, together with that layer's own guard |
| CoinsStack.LowerSpendIff | src/coins.cpp:153-177 | the same for a spend on a lower layer: no layer above may hold the coin clean |
| CoinsStack.LowerResetIff | src/coins.cpp:302-308 | the same for a reset of a lower layer |
| CoinsCache.TallyCounts | src/coins.cpp:351-381 | the maintained total is the number of dirty entries |
| CoinsCache.CoinsDatabase.BatchWrite | src/txdb.cpp:131-155 | the database takes every dirty entry, and erases the spent ones, in whatever order the walk visits them |
| CoinsCache.CoinsViewCache.PeekCoin | src/coins.cpp:44-50 | returns the coin of the view and changes nothing |
| CoinsCache.CoinsViewCache.FetchCoin | src/coins.cpp:68-81 | fills the caches on the way as specified and keeps both totals exact |
| CoinsCache.CoinsViewCache.GetCoin | src/coins.cpp:83-87 | returns what PeekCoin would have |
| CoinsCache.CoinsViewCache.AddCoin | src/coins.cpp:89-130 | throws exactly if overwriting is not permitted, the coin is spendable and this cache holds an unspent one; a throw or an unspendable coin leaves every layer as it was; else the view gains the coin, with the flags stated; totals exact |
| CoinsCache.CoinsViewCache.SpendCoin | src/coins.cpp:153-177 | moves out the coin of the view; a FRESH entry goes, any other is a dirty spent one; totals stay exact |
| CoinsCache.CoinsViewCache.BatchWrite | src/coins.cpp:208-277 | throws exactly when some FRESH entry of the child is unspent here; otherwise both layers and all totals are as specified, for every walk order; after a throw a set of entries has been taken, none of them misapplied, every other entry is untouched on both sides, and the totals here are exact |
| CoinsCache.CoinsViewCache.Flush | src/coins.cpp:279-289 | cannot throw on a consistent stack; the cache is empty and the base as specified |
| CoinsCache.CoinsViewCache.Sync | src/coins.cpp:291-300 | cannot throw on a consistent stack; exactly the unspent coins stay cached, all clean |
| CoinsCache.CoinsViewCache.Reset | src/coins.cpp:302-308 | drops this layer's changes only |
| CoinsCache.CoinsViewCache.UncacheCoin | src/coins.cpp:310-323 | the entry is gone exactly if it was clean, no other is touched, totals exact |
| CoinsCache.CoinsViewCache.SanityCheck | src/coins.cpp:351-381 | passes exactly when the totals are exact and no entry has an excluded flag combination |
| CoinsCache.ConsistentEntriesPass | src/coins.cpp:351-381 | every entry of a consistent stack passes those flag checks |
| CheckQueue.BatchBounds | src/checkqueue.h:116-125 | a batch is never empty, never longer than the queue and never longer than the batch size allows |
| CheckQueue.BatchFair | src/checkqueue.h:116-121 | a batch is the largest number up to the batch size that every thread, idle ones included, could take from the queue, and at least one |
| CheckQueue.TakeOutcome | src/checkqueue.h:121-127 | a batch is the end of the queue, and is skipped exactly if a failure is known |
| CheckQueue.StopsAtFailure | src/checkqueue.h:128-135 | a batch is over exactly at its end or after its first failure |
| CheckQueue.CleanUpResultOk | src/checkqueue.h:83-97 | the shared result is set only to a verdict of a check of this round |
| CheckQueue.NextOk | src/checkqueue.h:72-190 | every critical section and every executed check keeps the counters exact and every added check accounted for |
| CheckQueue.RunKeepsInv | src/checkqueue.h:72-190 | the same over every interleaving of any length |
| CheckQueue.RoundSound | src/checkqueue.h:98-108 | when the master returns, all checks are accounted for and the result is justified |
| CheckQueue.EveryRoundSound | src/checkqueue.h:72-190 | every finished round of every run returns no failure exactly when all added checks pass, all of which then have run; a failure is the verdict of a check that ran |
| CheckQueue.NeverStuck | src/checkqueue.h:72-190 | while the master is inside a round some useful step is always enabled |
| CheckQueue.WorkShrinks | src/checkqueue.h:72-137 | every useful step strictly reduces the remaining work, and idle wake-ups never add to it |
| CheckQueue.RoundBounded | src/checkqueue.h:72-137 | however the threads are scheduled, a round has no more useful steps than its work at the start |
| CheckQueue.RoundEnds | src/checkqueue.h:72-137 | from every reachable state useful steps alone lead to the master leaving, even if no sleeping worker wakes |
| Chain.GetSkipHeight | src/chain.cpp:69-82 | a skip goes strictly down |
| Chain.SkipHeightIs | src/chain.cpp:69-82 | a skip goes to the height with its lowest set bit cleared, and from an odd height to one more than the even one below with two cleared |
| Chain.BlockIndex.GetAncestor | src/chain.cpp:84-108 | whatever mix of skips and single steps is taken, the result is the ancestor found by walking parents, or null outside the range; no null parent is met |
| Chain.BlockIndex.BuildSkip | src/chain.cpp:115-119 | sets the ancestor at the skip height and keeps all skips right |
| Chain.LastCommonAncestor | src/chain.cpp:155-178 | terminates and returns the highest block that is an ancestor of, or equal to, both |
| Chain.SkipToFork | src/chain.cpp:164-172 | jumping back in step while skips differ keeps the common ancestors and leaves two different blocks |
| Chain.ActiveChain.SetTip | src/chain.cpp:16-24 | despite the early exit every height holds the new tip's ancestor |
| Chain.ActiveChain.FindFork | src/chain.cpp:50-59 | the highest ancestor-or-self in the chain, null exactly if there is none |
| Chain.InPlace | src/chain.h:402-428 | in a well-formed chain every block's ancestors are the blocks below it |
| ArithUint.BaseUint.AssignWord | src/arith_uint256.h:70-77 | the number becomes the 64-bit value |
| ArithUint.BaseUint.GetLow64 | src/arith_uint256.h:222-226 | the number modulo 2^64 |
| ArithUint.BaseUint.Add | src/arith_uint256.h:117-127 | the sum modulo 2^BITS, for every width and also when both operands are one object; the 64-bit intermediate never overflows |
| ArithUint.BaseUint.Not | src/arith_uint256.h:51-57 | 2^BITS - 1 minus the number |
| ArithUint.BaseUint.Negate | src/arith_uint256.h:59-66 | the negation modulo 2^BITS |
| ArithUint.BaseUint.Sub | src/arith_uint256.h:129-133 | the difference modulo 2^BITS |
| ArithUint.BaseUint.AddWord | src/arith_uint256.h:135-141 | the sum with a 64-bit value modulo 2^BITS |
| ArithUint.BaseUint.Increment | src/arith_uint256.h:155-162 | plus one modulo 2^BITS, with the early stop of the carry |
| ArithUint.BaseUint.Decrement | src/arith_uint256.h:172-179 | minus one modulo 2^BITS, with the early stop of the borrow |
| ArithUint.BaseUint.MulWord | src/arith_uint256.cpp:47-57 | the product with a 32-bit word modulo 2^BITS, no intermediate overflow |
| ArithUint.BaseUint.Mul | src/arith_uint256.cpp:59-73 | the product modulo 2^BITS, also for a square of one object, no intermediate overflow |
| ArithUint.BaseUint.ShiftLeftBy | src/arith_uint256.cpp:13-28 | multiplication by a power of two modulo 2^BITS, for every shift amount |
| ArithUint.BaseUint.ShiftRightBy | src/arith_uint256.cpp:30-45 | division by a power of two rounded down, for every shift amount |
| ArithUint.BaseUint.CompareTo | src/arith_uint256.cpp:101-111 | the sign of the difference of the two numbers |
| ArithUint.BaseUint.EqualTo | src/arith_uint256.cpp:113-125 | equality with a 64-bit value |
| ArithUint.BaseUint.Bits | src/arith_uint256.cpp:155-168 | the position of the highest set bit plus one, zero for zero |
| ArithUint.BaseUint.Div | src/arith_uint256.cpp:75-99 | the exact quotient rounded down; an error exactly for a zero divisor |
| Compact.RoundTrip | src/arith_uint256.cpp:175-216 | for every 256-bit number the compact word decodes without overflow to the number with only low bytes cleared, keeps at least 16 significant bits, and is negative exactly when asked for and nonzero |
| Compact.CanonicalIff | src/arith_uint256.cpp:175-216 | a compact word survives decoding and re-encoding if and only if its mantissa is normalised and has no bits below the unit |
| Compact.EncoderCanonical | src/arith_uint256.cpp:195-216 | the encoder produces only such words, so re-encoding a decoded encoding gives the same word |
| CompactTarget.SetCompact | src/arith_uint256.cpp:175-193 | the value modulo 2^256; overflow is flagged exactly when the mantissa times its power of 256 does not fit, negative exactly when the sign bit is set on a nonzero value |
| CompactTarget.GetCompact | src/arith_uint256.cpp:195-216 | the specified compact word; both assertions hold |
| CompactTarget.GetBitsProof | src/chain.cpp:121-134 | 2^256 divided by target plus one, rounded down, for every valid nonzero target, and zero for all others |
| Radix.EncodeRoom | src/base58.cpp:98-100 | the base 58 buffer is large enough for inputs of any length |
| Radix.DecodeRoom | src/base58.cpp:53-55 | the base 256 buffer is large enough for texts of any length |
| Base58.AlphabetInverse | src/base58.cpp:19-38 | the decoding table inverts the alphabet |
| Base58.MapInverse | src/base58.cpp:19-38 | the table accepts only characters of the alphabet |
| Base58.AlphabetIs | src/base58.cpp:19-22 | the alphabet is all letters and digits except 0, I, O and l, in ascending order |
| Base58.SpacesAre | src/util/strencodings.h:166-168 | the six characters that count as space |
| Base58.MulAdd | src/base58.cpp:103-113 | multiply-and-add in the digit buffer: no carry is left over and the length has no leading zero |
| Base58Codec.EncodeBase58 | src/base58.cpp:89-127 | the digit loops give the text defined by quotients and remainders |
| Base58Codec.DecodeBase58 | src/base58.cpp:40-135 | accepts exactly the texts without NUL whose trimmed body is all digits and whose bytes fit the limit, and returns those bytes |
| Base58Codec.RoundTrip | src/base58.cpp:40-135 | decoding an encoding gives the bytes back exactly when they are within the limit |
| Base58Codec.Reencode | src/base58.cpp:40-135 | encoding a decoded text gives the text without surrounding spaces |
| Bech32.CharsetInverse | src/bech32.cpp:22-35 | the decoding table inverts the character set |
| Bech32Code.PolyMod | src/bech32.cpp:130-216 | the packed loop computes the remainder modulo the generator polynomial of the input with a one in front, for all bytes as coefficients |
| Bech32Code.PackedOver | src/bech32.cpp:199-212 | the five listed constants are the multiples of the generator they are said to be |
| Bech32Code.RemainderPlus | src/bech32.cpp:130-216 | the checksum is linear: the remainder of a sum is the sum of the remainders |
| Bech32Distance.Order | src/bech32.cpp:37-45 | the element e has order 1023: fewer multiplications by it move every nonzero element |
| Bech32Errors.Vanishes | src/bech32.cpp:172-175 | the generator polynomial vanishes at the powers 997, 998 and 999 of e |
| Bech32Errors.RemainderRoot | src/bech32.cpp:132-142 | reduction keeps the value of the polynomial at those three powers |
| Bech32Errors.Detects | src/bech32.cpp:137-142 | two symbol sequences of equal length up to 1023 that differ in one, two or three places never have the same checksum |
| Bech32Text.CheckCharacters | src/bech32.cpp:286-309 | succeeds exactly for printable text of one case, and otherwise lists exactly the offending positions in order |
| Bech32Text.PreparePolynomialCoefficients | src/bech32.cpp:311-324 | the expanded readable part, of any bytes, followed by the values |
| Bech32Text.VerifyChecksum | src/bech32.cpp:326-339 | the encoding whose constant is the remainder, or none |
| Bech32Text.CreateChecksum | src/bech32.cpp:341-353 | the six values that bring the remainder to the constant |
| Bech32Text.ChecksumVerifies | src/bech32.cpp:326-353 | a created checksum always verifies, under its own encoding |
| Bech32Text.ChecksumUnique | src/bech32.cpp:326-353 | no other six values verify |
| Bech32Text.Encode | src/bech32.cpp:357-371 | readable part, separator, values and checksum as text |
| Bech32Text.Decode | src/bech32.cpp:373-400 | result and every failure as specified, for any text and limit |
| Bech32Text.DecodeEncoded | src/bech32.cpp:357-400 | decoding an encoding gives back encoding, readable part and values if and only if the readable part is nonempty and printable and the text is within the limit |
| Bech32Text.EncodeDecoded | src/bech32.cpp:357-400 | encoding what a text decodes to gives the text in lower case |
| Bech32Text.CatchesThree | src/bech32.cpp:373-400 | a valid text with one to three symbols changed, in the readable part or after the separator, is never valid under the same encoding if the last separator stays in its place |
| Bech32Text.LetterChange | src/bech32.cpp:317-320 | a letter put for a letter in the readable part changes only one of its two symbols |
| Bech32Vectors.CaseFree | src/bech32.cpp:373-400 | texts that differ only in case, each in one case, decode to the same |
| Bech32Vectors.ShortBech32 | src/test/bech32_tests.cpp:18 | "A12UEL5L" decodes as Bech32 with readable part "a" and no values, and encodes back in lower case |
| Bech32Vectors.ShortBech32m | src/test/bech32_tests.cpp:38 | "A1LQFN3A" does as Bech32m |
| Bech32Vectors.AllSymbolsBech32 | src/test/bech32_tests.cpp:21 | the text with all values in order decodes and encodes as Bech32, which fixes the character set and the expansion of the readable part |
| CompactBlocks.PlacedMeans | src/blockencodings.cpp:72-88 | a slot holds a prefilled transaction exactly when its decoded position is that slot |
| CompactBlocks.PositionsInvert | src/blockencodings.cpp:72-88 | the indexes of a message are exactly the numbers of places skipped between the places they decode to |
| CompactBlocks.PlacesFit | src/blockencodings.cpp:74-85 | the places are accepted exactly when every transaction is there and inside the block |
| CompactBlocks.FreeCount | src/blockencodings.cpp:94-99 | exactly as many slots stay free as there are short ids |
| CompactBlocks.IdMapSize | src/blockencodings.cpp:113-116 | the table is as large as the list of ids exactly when no id repeats |
| CompactBlocks.IdMapSlots | src/blockencodings.cpp:94-99 | the i-th short id is mapped to the i-th slot that is not prefilled |
| CompactMatch.PoolStepTracks | src/blockencodings.cpp:121-144 | after one more pool transaction every slot holds what the offers for its id agree on, and the count is the number of ids claimed |
| CompactMatch.ExtraStepTracks | src/blockencodings.cpp:147-176 | so after one more extra entry, which dereferences a missing transaction exactly when it has none and the offers before it agree on one |
| CompactOutcome.PoolLoopTracks | src/blockencodings.cpp:118-145 | the loop ends at the first prefix of the pool that claims enough ids, with every slot as that prefix determines |
| CompactOutcome.ExtraLoopTracks | src/blockencodings.cpp:147-176 | the same for the extra entries, and the exact condition for dereferencing a missing transaction |
| CompactOutcome.LoopsEnd | src/blockencodings.cpp:118-176 | both loops together, for any count they start from: the exact condition for a null dereference, and otherwise every slot and the count as functions of the two lists |
| CompactOutcome.CountIs | src/blockencodings.cpp:121-176 | the ids claimed are those with a filled slot and those claimed without a transaction |
| CompactOutcome.StaleCount | src/blockencodings.cpp:141-144 | with a count left over from an earlier message the loops stop early with exactly that many ids unclaimed, or never if it exceeds the number of ids |
| CompactOutcome.ExtraTracks | src/blockencodings.cpp:147-176 | the extra counter follows the change of the total, modulo 2^64 |
| CompactOutcome.ExtraWithinTotal | src/blockencodings.cpp:147-176 | it stays within the total if and only if among the entries looked at no more ids are lost than gained |
| CompactOutcome.FreshExtraWithinTotal | src/blockencodings.cpp:147-176 | on a fresh object: if and only if some prefix of the extra list claims every id, or over the whole list no more are lost than gained |
| CompactRebuild.OwnSlots | src/blockencodings.cpp:20-33 | a block's own message is well formed and gives transaction i + 1 the i-th short id |
| CompactRebuild.MergeIff | src/blockencodings.cpp:195-216 | filling gives a list if and only if the list agrees with the available slots and its gaps are exactly what was sent, in order |
| CompactRebuild.Rebuilds | src/blockencodings.cpp:20-216 | without short id collisions, wherever the loops stopped and whatever entries lack a transaction, only transactions of the block are in place and sending the missing ones in order gives back the block |
| CompactRebuild.FindsKnown | src/blockencodings.cpp:118-176 | and if no entry without a transaction is asked for, exactly the known transactions are in place |
| PartialBlock.PartiallyDownloadedBlock.PlacePrefilled | src/blockencodings.cpp:72-88 | succeeds exactly for messages whose positions are in range; no index is out of range and no 32-bit position overflows |
| PartialBlock.PartiallyDownloadedBlock.MapShortIds | src/blockencodings.cpp:94-112 | never runs past the slots, the 16-bit offset never wraps, and the table is the i-th id to i-th free slot map |
| PartialBlock.PartiallyDownloadedBlock.MatchPool | src/blockencodings.cpp:118-145 | the loop with its early exit equals the specified fold |
| PartialBlock.PartiallyDownloadedBlock.MatchExtra | src/blockencodings.cpp:147-176 | the loop with its early exit equals the specified fold, and fails exactly where that dereferences a missing transaction |
| PartialBlock.PartiallyDownloadedBlock.InitData | src/blockencodings.cpp:59-181 | for every message, every list and any counters found: which messages are invalid and how far their prefilled transactions got, which fail, which dereference a missing transaction, and otherwise prefilled slots untouched, every other slot holds what the offers looked at agree on, and both counters |
| PartialBlock.RefusedIff | src/blockencodings.cpp:62-67 | the messages that are refused before anything is changed |
| PartialBlock.CountersMean | src/blockencodings.cpp:118-176 | the count has grown by the number of filled slots if and only if no entry without a transaction claimed an id, and the extra counter stays within it if and only if no more ids are lost than gained |
| PartialBlock.PartiallyDownloadedBlock.FillBlock | src/blockencodings.cpp:191-237 | invalid exactly when there are too few or too many transactions; otherwise the merged list, checked for mutation; the object is reset unless there were too few, and then exactly the slots before the first gap left open have been moved out |
| PartialBlock.Reconstruct | src/blockencodings.cpp:20-237 | a block sent in its own compact form comes back whole, whatever part of it is known, unless a bucket overflows, short ids repeat, or a missing transaction is dereferenced, each exactly when stated |
| PartialBlock.ExtraWraps | src/blockencodings.cpp:163-168 | a message, a pool transaction and a conflicting extra one that wrap the extra counter |
| PartialBlock.NullReached | src/blockencodings.cpp:163-165 | a message and an extra entry without a transaction that is dereferenced |
| PartialBlock.NullCounted | src/blockencodings.cpp:151-155 | a message and an extra entry without a transaction that is counted, so that a known transaction is not looked at |

## Left out

- Address manager `Select_` and `GetChance`: a probabilistic loop with floating point weights.
- Address manager `Add_`, `Size_`, `GetEntries_`, `FindAddressEntry_` and the locking wrappers: easy members around the modelled ones.
- Address manager bucket hashes and network groups: arbitrary functions of the key and the address.
- AddrManDisk.Serialize: the stream is a record of fields; the byte encoding of each field and the checksum of the file are not modelled.
- AddrMan.AddrMan.Good_: the variant without test-before-evict is modelled as a step, but only the public variant is part of runs.
- Coins cache best-block hash, `AccessCoin`, `HaveCoin`, `EmplaceCoinInternalDANGER`, memory resources and `ReallocateCache`.
- CoinsStack.RunRefines: in a run the calls that change coins work on the top layer; a change below it has no counterpart on independent plain maps, and `CoinsStack.LowerChangeIff` says when it is safe.
- CoinsCache.CoinsViewCache.BatchWrite: the linked list of flagged entries is a set walked in any order; where an erasing walk moves a coin out of the child, the model leaves a copy behind, which matters only after a throw.
- CoinsCache.CoinsDatabase.BatchWrite: the best block, the head blocks and the splitting into several database batches.
- Check queue shutdown, and which sleeping thread a notification reaches: a sleeping thread may resume at any time. That the scheduler eventually takes an enabled useful step is not modelled; that one is always enabled while the master is inside, and that only so many fit into a round, is.
- Chain `FindEarliestAtLeast`, `LocatorEntries` and `GetBlockProofEquivalentTime`.
- Chain.ActiveChain.SetTip: heights and parents of the blocks in the tree are fixed during a call.
- `base_uint` bitwise operators between numbers, `getdouble` and hexadecimal text.
- Base58Check: appending and checking four hash bytes would only add easy members.
- Bech32 `LocateErrors` and the guarantee for four errors in 89 characters, which rests on an exhaustive search.
- Bech32Text.Encode: plain characters are signed, as on the common platforms; where they are unsigned, the readable part with bytes above 127 expands differently.
- Bech32Text.CatchesThree: a change that moves the last separator is not covered, because it changes which symbols are checked.
- PartialBlock.PartiallyDownloadedBlock.InitData: a message has at most 65535 transactions, as its reader enforces (src/blockencodings.h:125-127).
- PartialBlock.Reconstruct: every extra entry that has a transaction lists that transaction's own witness hash, as the code that fills the list ensures (src/net_processing.cpp:1891).
- PartialBlock.PartiallyDownloadedBlock.InitData: the bucket size test is an arbitrary predicate, and short ids come from an arbitrary function of the witness hash.
- PartialBlock.PartiallyDownloadedBlock.FillBlock: the mutation check is an arbitrary predicate of the transaction list.
