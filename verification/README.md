# Verified models of the core data structures

This project models the self-contained data structures and algorithms of the OrganicLife
Core node (a Bitcoin/PIVX-derived node) in Dafny and proves what they are for. `dafny verify
dfyconfig.toml` checks all of it.

What the source updates in place is a class here, with the source's fields and methods; each
method is proved against a specification on values, and the theorems about runs are proved
about those specifications. Hashes, clocks, random draws, rounded scores and everything the
rest of the node answers are arbitrary inputs.

| part | files |
|---|---|
| address manager | `AddrManState` (state and consistency), `AddrManSteps` and `AddrManSpec` (each step as a function), `AddrManRuns` (runs), `AddrManEffects` (what a step does to the outside), `AddrManReports` (what each call does, field by field), `AddrManStamps` (times over runs), `AddrManCheck` (the self-check), `AddrManStore` (the stream), `AddrManApart` (streams that repeat addresses), `AddrManRoundTrip` and `AddrManSalvage` (writing and reading back under the same and under another asmap), `AddrMan` (the class) |
| block assembly | `Mempool`, `PackageOrder`, `PackageTotals`, `PackageRoom`, `BlockGrowth`, `BlockCuts`, `BlockAssembler` |
| coins | `Coins`, `CoinsRuns` |
| wide integers | `Limbs`, `Shifts`, `CompactTarget`, `ArithUint` |
| check queue | `CheckQueue`, `CheckQueueProgress` |
| caches and filters | `Words`, `RollingBloom`, `CuckooCache` |
| database overlay | `KeyOrder`, `DBTransaction`, `DBIterator` |
| block index | `Chain`, `SkipSteps` |
| text encodings | `Positional`, `Base58`, `Base58Check`, `PolyMod`, `PolyModRemainder`, `Bech32` |
| payments | `Payments` |
| shared by several | `Common` |

## Main results

- **Address manager.** Every run of the public calls from an empty manager keeps the random
  order a permutation, the address table the inverse of the entries, the reference counts exact
  (one to eight for a new address, none for a tried one), every id in its hashed slot and the
  counters right (`AddrManRuns.RunKeeps`); the manager's own self-check therefore passes after any run
  (`AddrManStamps.RunPassesCheck`), and pending collisions never lead to an empty slot
  (`AddrManRuns.RunKeepsCollisions`). Writing and reading back loses nothing under the same
  asmap, and under another one only what collides (`AddrMan.SaveAndLoad`). What each report on an
  address comes to is stated field by field in `AddrManReports`; over any run, at most one failure
  of an address counts between two successes. Reading any stream that does not end too early
  leaves a consistent manager just when no count in it is negative and entries that repeat an
  address are all dropped.
- **Block assembly.** After any number of rounds the greedy loop has appended an ordered, closed
  set of final transactions with exact counters. Until a shielded
  transaction cuts one short, each package that went in was that of the best entry of all
  transactions then left. As long as there is room for the shielded transactions it ends, and gives up no transaction that could still be added: it was turned down
  because no package with it fits, or because what it needed underpaid at one of the blocks the
  selection went through, and the former never changes again. The exception is the early return
  at an entry that pays too little, and at that point no remaining entry is better than the one
  looked at. Where a shielded transaction may not follow, the loop may not end; a round changes
  nothing exactly under a stated condition.
- **Coins.** A stack of caches of any depth is one plain map (`CoinsRuns.Simulate`), and a
  FRESH flag is never misapplied; what is created and spent above a layer leaves nothing in it.
- **Wide integers.** All limb loops, the division included, are arithmetic modulo 2^BITS, and
  the compact form rounds down by less than one unit.
- **Check queue.** In every interleaving the counters account for all work, `Wait` answers for
  exactly the checks added since the last one, the master is never left asleep, and the work left
  goes down to the end under any fair schedule.
- **Bloom filter, cuckoo cache, database transaction, block index.** Each agrees with a plain
  abstract object: the history of inserts, the multiset of live elements, the overlaid map, the
  path of parents. An ancestor is found in at most n * n steps if the heights agree but for their
  last n bits.
- **Base58 and Bech32.** Round trips in both directions, buffer estimates that always
  suffice, a checksum register that is the one remainder by the generator over the field of 32
  elements, and a checksum that notices every single changed symbol.
- **Payments.** The producer conserves value, no accepted mint passes the supply cap, and which
  mints are accepted is stated branch by branch.

## Where the code does something unexpected

The model follows the code in each of these places.

- `CAddrMan::Clear` and `Unserialize` leave `m_tried_collisions` as it is. A stale id can then
  make `SelectTriedCollision_` look up slot -1, which also plants an entry for id -1; the
  contract of `AddrMan.AddrMan.SelectTriedCollision_` says exactly when, and
  `AddrManRuns.StaleCollision` gives an instance.
  After `Unserialize`, `AddrManApart.CollisionsAfterReading` says when the ids are sound, and
  `AddrManApart.StaleAfterReading` gives an instance.
- `Unserialize` notices neither repeated addresses nor negative counts. With either the manager is
  not consistent afterwards, unless what repeats an address is dropped
  (`AddrManApart.ReadIsConsistent`, instance `AddrManApart.SameAddressTwice`). A stream that
  repeats no address is safe under any asmap (`AddrManApart.DistinctKeepsApart`).
- `CAddrMan::Add_` returns true for a new address even if it is deleted at once because its slot
  is taken.
- `CAddrMan::Check_` overlooks stray entries of the address table and the id counter; its lookup
  of a missing address yields id 0 (`AddrManCheck.CheckMeans`, instances
  `AddrManCheck.OverlooksStray`).
- An entry of `mapModifiedTx` that is made again after its transaction failed starts from the
  cached totals. It claims what its ancestors in the block weigh on top
  (`PackageTotals.RemadeClaims`, instance `PackageTotals.RemadeClaimsTooMuch`), so it may seem to
  pay too little and end the selection; but it does so only when no other entry is better
  (`BlockAssembly.BlockAssembler.EndsForFee`). An entry is made with the modified fee of the parent
  taken off, and updated with the plain fee.
- A shielded transaction that may not follow cuts its package short. `addPackageTxs` then updates
  the descendants of the whole package all the same, and it neither erases the entry looked at nor
  marks it as failed. The round changes nothing, and so the loop does not end, just when the entry
  is one of `mapModifiedTx` whose package fits and pays, the first of the package may not follow,
  and nothing outside the package depends on it (`BlockAssembly.BlockAssembler.TryEntry`,
  `BlockAssembly.BlockAssembler.Round`, instance `BlockCuts.ShieldedChildStalls`). It cannot happen
  while there is room for all shielded transactions (`BlockCuts.NoneIsCut`).
- `CCoinsViewCache::AddCoin` has already reduced the usage total when it throws. Without an
  overwrite it is right just when the coin is cached or absent below; it trusts its caller there,
  and so does `AddCoins` without its check (`CoinsRuns.AddCoins`).
- `base_uint::operator/=` clears the number before it throws for a zero divisor.
- The first swap of `CuckooCache::cache::insert` goes to the second hash; its comment says the
  first. The epoch size is computed from a product that wraps at 32 bits.
- `DecodeBase58` with a negative length limit accepts the empty text.
- `FillPQMasternodePayment` with a coinstake replaces all coinbase outputs, so the total is
  conserved just when the coinbase paid nothing before. Only `operatorReward` above 10000 can make the outputs
  add up to more than the reward.
- `SortForBlock` keeps parents first even in its fallback for circular packages, but not locks.

## Model

| member | source | states |
|---|---|---|
| AddrManRuns.RunKeeps | src/addrman.cpp:92-631 | any sequence of add, good, attempt, connected, set-services, get-address, resolve-collisions and select-collision calls keeps all five structures and both counters consistent, whatever the hashes, clock and random draws; a filled tried slot never becomes empty. Looking at collisions needs sound ones to start from |
| AddrManStamps.RunPassesCheck | src/addrman.cpp:400-475 | after any run from an empty manager with positive clock readings and a key that is not null, `Check_` finds nothing wrong |
| AddrManRuns.RunKeepsCollisions | src/addrman.cpp:547-631 | any run, with looks at collisions anywhere in it, keeps every pending collision pointing at an occupied tried slot, so the slot that is looked up is never empty |
| AddrManRuns.SelectKeeps | src/addrman.cpp:606-631 | looking at a pending collision keeps the tables consistent just when its tried slot is occupied, and then it leaves them as they are |
| AddrManRuns.ApplyKeeps | src/addrman.cpp:92-604 | a single call keeps the manager consistent and never lowers the id counter, drops a tried slot or changes the service of an id |
| AddrManRuns.FreshIsConsistent | src/addrman.h:568-600 | an empty manager is consistent and has no pending collisions that dangle |
| AddrManRuns.FreshCollisions | src/addrman.h:568-600 | after clearing, the pending collisions are sound just when there are none: clearing does not empty them |
| AddrManRuns.StaleCollision | src/addrman.h:568-600 | a concrete stale collision after clearing: the next added address takes over its id while its tried slot is empty |
| AddrManStamps.RunStamps | src/addrman.cpp:400-475 | over any run, attempts and successes stay non-negative and every tried entry has a success on record |
| AddrManSteps.SwapKeeps | src/addrman.cpp:104-122 | swapping two positions of the random order keeps the manager consistent, the order a permutation and the position fields right |
| AddrManSteps.CreateKeeps | src/addrman.cpp:92-102 | a created entry is consistent apart from being a new entry without references |
| AddrManSteps.DeleteKeeps | src/addrman.cpp:124-136 | deleting an unreferenced new entry keeps the rest consistent and changes no other entry but positions |
| AddrManSteps.ClearNewKeeps | src/addrman.cpp:138-151 | emptying a new slot takes one reference off its holder, and deletes the holder just when that was the last one, keeping the rest consistent |
| AddrManSpec.EvictKeeps | src/addrman.cpp:174-196 | an evicted tried entry goes back to one slot of the new table, whose holder loses a reference, and the manager stays consistent |
| AddrManSpec.MakeTriedKeeps | src/addrman.cpp:153-202 | a promotion, with its eviction cascade, keeps the manager consistent; the tried table changes in exactly the slot of the promoted entry |
| AddrManSpec.AddKeeps | src/addrman.cpp:258-329 | an announcement keeps the manager consistent, the tried table as it is, and the services of all ids |
| AddrManSpec.GoodKeeps | src/addrman.cpp:204-256 | a success report keeps the manager consistent and empties no tried slot |
| AddrManEffects.AnnouncedUnknown | src/addrman.cpp:287-325 | exactly when an unknown address is admitted, which slot it takes, and who is displaced: only a holder with that one reference |
| AddrManEffects.Promoted | src/addrman.cpp:153-202 | after a promotion the entry is tried in its slot, the former occupant is new with one reference, and at most one address has been forgotten, none if the slot was free |
| AddrManReports.GoodSucceeds | src/addrman.cpp:204-256 | field by field: an unknown service changes the last success only; a known one gets a success with attempts at zero; a new one becomes tried in its slot, without references, exactly when no test is asked for or the slot is free, and the former occupant is then new with one reference in a slot whose holder lost one; otherwise the tables keep all but the statistics, and the id is pending exactly if fewer than ten were |
| AddrManReports.AnnouncedKnown | src/addrman.cpp:268-325 | a known address gains one reference, in the slot that the announcing source gives it, exactly when the announcement is news, the entry is new with fewer than eight, the draw is won, and the slot is free or its holder, another one, terrible, which then loses one; otherwise the new table stays; services are joined, and the time is as before or the announced one less the penalty, by a stated condition |
| AddrManReports.UnknownIsAnnounced | src/addrman.cpp:302-325 | an unknown address gets an entry with that time and source exactly when its slot is free or its holder terrible or held elsewhere too; otherwise nothing is left of it but a used number |
| AddrManReports.AddIsAnnounced | src/addrman.cpp:258-329 | which of the two happens: nothing for an address that cannot be routed; no penalty for a source that announces itself; and the answer is true just for a routable unknown address |
| AddrManReports.AttemptIs | src/addrman.cpp:331-351 | an attempt changes only the entry of a known service: a failure counts exactly if it is to be counted and none of it counted since the last success of any address |
| AddrManReports.CountedOnce | src/addrman.cpp:331-351 | so over any run without a success at most one failure of each address counts |
| AddrManReports.ConnectedIs | src/addrman.cpp:509-527 | the time moves on exactly if it lags by more than twenty minutes |
| AddrManReports.ServedIs | src/addrman.cpp:529-545 | only the services of a known service change |
| AddrManReports.ResolvedIs | src/addrman.cpp:555-601 | which way a pending collision goes: an occupant with a success in the last four hours stays and the collision is dropped; a free slot, an occupant tried in the last four hours but not in the last minute, or one not tried and a success of the newcomer more than forty minutes old promote it; otherwise it stays pending |
| AddrManState.GroupReachesTried | src/addrman.cpp:18-26 | the addresses of one group reach at most eight buckets of the tried table |
| AddrManState.GroupReachesNew | src/addrman.cpp:28-37 | what sources of one group announce reaches at most 64 buckets of the new table |
| AddrManState.TerribleIs | src/addrman.cpp:45-63 | which entries are terrible, in seconds and attempts |
| AddrManRuns.LimitIs | src/addrman.cpp:477-486 | how many addresses are asked for: the lesser of the number and the percentage, rounded down, each ignored if zero |
| AddrManRuns.ResolveOneKeeps | src/addrman.cpp:555-601 | resolving one pending collision keeps the manager consistent and adds no collision |
| AddrManRuns.ResolveAllKeeps | src/addrman.cpp:547-604 | so does resolving all of them |
| AddrManRuns.PickedOnce | src/addrman.cpp:477-507 | no address is handed out twice |
| AddrManRuns.PickedWanted | src/addrman.cpp:477-507 | every address handed out is one of those drawn, of the wanted network and not terrible |
| AddrManRuns.PickedAll | src/addrman.cpp:477-507 | every drawn address that is wanted is handed out |
| AddrManRuns.ShuffleKeeps | src/addrman.cpp:488-496 | the partial shuffle keeps the manager consistent and changes nothing but the order |
| AddrMan.AddrMan.SwapRandom | src/addrman.cpp:104-122 | updates the order and both position fields in place as specified |
| AddrMan.AddrMan.Create | src/addrman.cpp:92-102 | the entry, its address and its position are recorded under the next id |
| AddrMan.AddrMan.Delete | src/addrman.cpp:124-136 | the entry is swapped to the end and removed from all structures |
| AddrMan.AddrMan.ClearNew | src/addrman.cpp:138-151 | the slot is emptied, its holder loses a reference or is deleted |
| AddrMan.AddrMan.MakeTried | src/addrman.cpp:153-202 | the scan over all buckets, the eviction and the promotion come to exactly the specified promotion |
| AddrMan.AddrMan.EvictTried | src/addrman.cpp:174-196 | the eviction part on its own, from the tried slot to the new slot |
| AddrMan.AddrMan.Good_ | src/addrman.cpp:204-256 | the whole new state, in every branch: unknown, other port, already tried, not in the new table, colliding, promoted; and field by field what a success comes to |
| AddrMan.AddrMan.Add_ | src/addrman.cpp:258-329 | the whole new state and the result, in every branch, including the slot an unreferenced newcomer fails to get; and field by field what an announcement comes to |
| AddrMan.AddrMan.Attempt_ | src/addrman.cpp:331-351 | the whole new state, and when the failure counts |
| AddrMan.AddrMan.Connected_ | src/addrman.cpp:509-527 | the whole new state, and when the time moves on |
| AddrMan.AddrMan.SetServices_ | src/addrman.cpp:529-545 | the whole new state: the services of a known service, and nothing else |
| AddrMan.AddrMan.GetAddr_ | src/addrman.cpp:477-507 | returns the wanted ones among the addresses drawn, no more than the limit, and stops short of it only when everything was drawn |
| AddrMan.AddrMan.ResolveOne | src/addrman.cpp:555-601 | one pending collision: dropped, promoted over its occupant, or left, and by which times of occupant and newcomer |
| AddrMan.AddrMan.ResolveCollisions_ | src/addrman.cpp:547-604 | all pending collisions, lowest id first |
| AddrMan.AddrMan.SelectTriedCollision_ | src/addrman.cpp:606-631 | the whole new state and the answer: the occupant of the pending entry's tried slot; a number that stands for nothing is struck off; an empty slot plants an entry, and just then the manager is not valid any more |
| AddrMan.AddrMan.Clear | src/addrman.h:568-600 | everything is empty afterwards except the pending collisions |
| AddrManCheck.Check_ | src/addrman.cpp:400-475 | the self-check answers 0 just when what it looks at is right |
| AddrManCheck.CheckMeans | src/addrman.cpp:400-475 | what that is: consistency, except that stray addresses in the address table and the id counter are not looked at, plus times and key |
| AddrManCheck.OverlooksStray | src/addrman.cpp:400-475 | a stray address alone, or a counter below zero, passes the self-check and is not consistent |
| AddrManCheck.ConsistentPasses | src/addrman.cpp:400-475 | a consistent manager with sound times and a key passes the self-check |
| AddrMan.AddrMan.Serialize | src/addrman.h:363-426 | writes each new and each tried entry once, and for each new bucket the numbers of the entries in it |
| AddrMan.AddrMan.Unserialize | src/addrman.h:428-566 | for any stream: refuses just the ones the source refuses, and finds that one ends too early just when it does; otherwise the tables are what the entries and buckets come to with exactly the unreferenced entries pruned, the manager is consistent just when no count is negative and entries that repeat an address are all dropped, and the pending collisions are sound just when each has been given out and leads to an occupied slot |
| AddrMan.SaveAndLoad | src/addrman.h:363-566 | what is written by one manager can be read by another under any asmap, and leaves it valid; nothing is added; each address known came back with its record and its side of new/tried, and an address is known just when its entry was loaded and not dropped; under the same asmap everything is restored |
| AddrManSalvage.SalvagedIs | src/addrman.h:428-566 | under any asmap an address is missing only if its slot under that asmap is taken: for a tried entry by an earlier one, for a new one in the place that its own source gives it |
| AddrManRoundTrip.RoundTrip | src/addrman.h:363-566 | same addresses, same new/tried split, same tried table up to ids, each new entry in exactly one of its former slots, nothing pruned |
| AddrManRoundTrip.SavedReadable | src/addrman.h:428-500 | a written stream fits the limits of the reader and repeats no address, under any asmap, and its bucket lists are usable under the same asmap |
| AddrManStore.PlaceNewKeeps | src/addrman.h:528-548 | putting new entries into their slots keeps the state consistent, with some entries still waiting for a slot |
| AddrManStore.LoadTriedKeeps | src/addrman.h:483-502 | reading tried entries keeps the state consistent, also when slots collide |
| AddrManStore.LostToCollision | src/addrman.h:528-560 | with any asmap, a new entry is left without a reference only if the slot of its own bucket is taken by another |
| AddrManApart.ReadIsConsistent | src/addrman.h:461-566 | what is left of a stream that does not end too early is consistent just when no count is negative and entries that repeat an address are all dropped: of the loaded ones, which are the new entries and the tried ones whose slot no earlier one took, only those without a place are |
| AddrManApart.AddressesAfterPruning | src/addrman.h:473-566 | pruning an entry takes its address out of the table whoever else has it, so the table inverts the entries afterwards just when no two entries shared an address, unless both were pruned |
| AddrManApart.ApartIs | src/addrman.h:473-560 | that condition on the tables in terms of the stream alone |
| AddrManApart.PlacedAre | src/addrman.h:528-548 | which new entries find a place, read off the stream: the slots taken one after the other, and a single reference for each entry but those that found their slots taken |
| AddrManApart.PlacedBySource | src/addrman.h:528-560 | from an older format, another number of buckets or another asmap, a new entry that finds a place is in the slot its own source gives it |
| AddrManApart.PlacedByBucket | src/addrman.h:528-548 | from any other stream, an entry that the last bucket listing it has room for is back in that bucket |
| AddrManApart.DroppedWithoutBuckets | src/addrman.h:528-560 | where the bucket lists are not usable, a new entry is dropped just when an earlier one has the same slot |
| AddrManApart.DistinctKeepsApart | src/addrman.h:473-566 | a stream that repeats no address meets the condition under any asmap |
| AddrManApart.SameAddressTwice | src/addrman.h:461-502 | one new and one tried entry of the same address: a stream that is read without complaint and breaks the address table |
| AddrManApart.CollisionsAfterReading | src/addrman.h:461-566 | reading leaves the pending collisions alone; they are sound just when each has a number that was given out and either no entry or one whose tried slot is taken |
| AddrManApart.StaleAfterReading | src/addrman.h:461-566 | a stream with one new entry makes a collision pending under number 0 unsound |
| BlockAssembly.BlockAssembler.addPackageTxs | src/blockassembler.cpp:572-739 | after any number of rounds: transactions are appended without repetition, each after its parents and, if nothing runs in circles, after the vote locks it names; the counters have grown by the exact sums, that of shielded bytes included; after any append size and sigops are below their limits; all are final; shielded ones come only outside maintenance and within their limit. Unless a package was cut short: each package that went in was the least one of a transaction that was unselected and not turned down and, if the comparator is an order, no other such transaction had a better entry at that block; and at the end, but for an entry that pays too little, everything left out was turned down for good. It ends within a number of rounds, unless nothing of a package tried for a modified entry goes in; with room for all shielded transactions no package is cut short; and once a round has changed nothing it does not end |
| BlockAssembly.BlockAssembler.Round | src/blockassembler.cpp:583-739 | what goes in in one round belongs to the least package of the next entry by score or of a modified one, and if the comparator is an order no other of them is better; the round lowers a measure, unless it cuts a package tried for a modified entry short at once. As every transaction has a size and the comparator tells them apart, it leaves position, entries, failed set and block as they were just when the next entry is a modified one that pays and stalls, and then all counters too |
| BlockAssembly.BlockAssembler.TryEntry | src/blockassembler.cpp:618-737 | one round keeps all of that and either selects the entry, or a first part of its package, or strikes it off, or moves on; for a modified entry it changes nothing just when the entry stalls: its package fits and pays, the first of it may not follow, and nothing outside depends on it |
| BlockAssembly.BlockAssembler.TakePackage | src/blockassembler.cpp:705-737 | taking a package that fits keeps what the selection relies on and the limits, whether all of it goes in or a first part; it changes nothing just when the first may not follow and nothing outside the package depends on it |
| BlockCuts.StallsIs | src/blockassembler.cpp:647-737 | the condition is one on the state before: the package is the only least one, and its first in order the only one |
| BlockCuts.NoneIsCut | src/blockassembler.cpp:716-730 | no package is cut short if there is no shielded transaction, or room for all of them outside maintenance |
| BlockCuts.ShieldedChildStalls | src/blockassembler.cpp:583-739 | a pool of two: the parent is in the block, maintenance is on, and the shielded child, exact and paying, stalls |
| BlockAssembly.BlockAssembler.ConsiderPackage | src/blockassembler.cpp:632-703 | a package passes only if its own totals fit, pay the relay fee and are final; if the entry was exact, one that does not pass is turned down for good |
| BlockAssembly.BlockAssembler.CanGoMeans | src/blockassembler.cpp:417-435 | what it takes to go in, in sizes, sigops, fees and finality of the least package and the totals of the entry |
| BlockAssembly.BlockAssembler.GatherPackage | src/blockassembler.cpp:647-685 | the least set that has all unselected ancestors and vote locks of its members |
| BlockAssembly.BlockAssembler.AddGovDependencies | src/blockassembler.cpp:656-685 | the dependency loop ends with the least closed set around the one it started from |
| BlockAssembly.BlockAssembler.UpdatePackagesForAdded | src/blockassembler.cpp:456-478 | every unselected descendant of what was added gets an entry reduced by exactly its added ancestors |
| BlockAssembly.BlockAssembler.AddToBlock | src/blockassembler.cpp:437-454 | appends one transaction and adds its size, sigops and fee |
| BlockAssembly.BlockAssembler.AddSorted | src/blockassembler.cpp:710-733 | appends the package up to the first shielded transaction that may not follow, adds the sums of just those and erases their modified entries |
| BlockAssembly.BlockAssembler.HistoryGrows | src/blockassembler.cpp:572-739 | the blocks gone through: each grew out of the one before by the least package of some transaction, which fitted and paid, and holds a first part of what was appended |
| BlockAssembly.BlockAssembler.ChooseEntry | src/blockassembler.cpp:585-616 | the entry chosen is the next cached one or the best modified one, and no other is better if the comparator is an order |
| BlockAssembly.BlockAssembler.NoneLeftIsBetter | src/blockassembler.cpp:605-616 | the entry chosen is the best of all transactions that are unselected and not turned down, listed or not |
| BlockAssembly.BlockAssembler.TakesMore | src/blockassembler.cpp:705-739 | so is that of each package taken, as of the block it was added to |
| BlockAssembly.BlockAssembler.EndsForFee | src/blockassembler.cpp:622-625 | when the selection stops for a low fee, no transaction that could still be selected has a better entry than the one it stopped at |
| BlockAssembly.BlockAssembler.EndsWithNothingLeft | src/blockassembler.cpp:583-739 | when it runs out of entries, every transaction is selected or was turned down for good |
| BlockGrowth.GrownByPackage | src/blockassembler.cpp:705-737 | a package appended in the order of `SortForBlock` keeps parents and locks ahead of those that need them |
| BlockGrowth.PartGrown | src/blockassembler.cpp:716-733 | so does the first part of one |
| BlockGrowth.PartClosed | src/blockassembler.cpp:716-733 | and it leaves no ancestor behind |
| BlockGrowth.BlockStaysClosed | src/blockassembler.cpp:572-739 | adding a closed package leaves the block closed under ancestors and locks |
| PackageRoom.TurnedDownStays | src/blockassembler.cpp:572-739 | a transaction once turned down stays so whatever is added later, so never looking at it again loses nothing |
| PackageRoom.NoRoomStays | src/blockassembler.cpp:417-424 | if no package with a transaction fits, none fits after another package went in |
| PackageRoom.RemainingTooMuch | src/blockassembler.cpp:627-638 | an exact entry that does not fit shows that no package with its transaction does |
| PackageTotals.UpdateTracks | src/blockassembler.cpp:456-495 | throughout the loop, an entry outside failedTx says exactly what its unselected ancestors weigh, and their fees if none is prioritised; one that failed and was made again says no less; and every unselected transaction with a selected ancestor has an entry or has failed |
| PackageTotals.CachedTracks | src/blockassembler.cpp:618-625 | the cached totals of a transaction without selected ancestors are exact |
| PackageTotals.EraseTracks | src/blockassembler.cpp:632-638 | striking an entry off keeps that |
| PackageTotals.NothingDepends | src/blockassembler.cpp:456-478 | the update for a package changes no entry just when nothing outside the package depends on it |
| PackageTotals.RemadeClaims | src/blockassembler.cpp:467-472 | an entry made again claims exactly what its ancestors in the block weigh on top of what is left |
| PackageTotals.SurplusStays | src/blockassembler.cpp:473-475 | and goes on doing so through every later update |
| PackageTotals.RemadeIsExact | src/blockassembler.cpp:467-472 | so it is exact just when none of its ancestors was in the block |
| PackageTotals.RemadeClaimsTooMuch | src/blockassembler.cpp:456-478 | a pool of four in which such an entry seems to pay less than one a byte, and what is left of it pays more |
| PackageOrder.SortForBlock | src/blockassembler.cpp:497-559 | a permutation of the package with parents first, also in the fallback; locks come first as well just when the package can be ordered so at all; and which one is first |
| PackageOrder.ByAncestorCount | src/blockassembler.cpp:504-505 | the initial order: the package, fewest ancestors first |
| PackageOrder.FirstIsOnly | src/blockassembler.cpp:529-557 | which one of a package comes first is determined: of those that need nothing in it, or of all if there is none, the one with the fewest ancestors |
| PackageOrder.SomeReady | src/blockassembler.cpp:529-558 | a package that can be ordered never gets stuck |
| PackageOrder.FallbackKeepsParentsFirst | src/blockassembler.cpp:553-557 | the fallback order still has parents first |
| PackageOrder.AcyclicIsOrderable | src/blockassembler.cpp:497-559 | if nothing runs in circles in the pool, every package can be ordered |
| Mempool.AncestorsTransitive | src/blockassembler.cpp:642-648 | ancestors of ancestors are ancestors |
| CoinsRuns.Simulate | src/coins.cpp:66-329 | a stack of caches of any depth, through any sequence of adds with and without overwriting, spends, reads, uncaching, flushes and pushes and pops of layers, shows exactly one plain map |
| Coins.CoinsViewCache.AddCoin | src/coins.cpp:94-113 | when it throws and what it leaves; otherwise the coin shows up, and the cache stays sound just when the coin was cached or absent below or an overwrite was allowed; and the flags of the entry |
| Coins.CoinsViewCache.SpendCoin | src/coins.cpp:132-146 | the coin disappears from the view, everything else stays, and the coin moved out is what was there; an entry is left just when the layer below may have the coin |
| Coins.CoinsViewCache.FetchCoin | src/coins.cpp:66-82 | brings a coin into the cache without changing what any layer shows |
| Coins.CoinsViewCache.GetCoin | src/coins.cpp:84-92 | answers what the view shows and changes nothing |
| Coins.CoinsViewCache.AccessCoin | src/coins.cpp:150-158 | answers what the view shows and changes nothing |
| Coins.CoinsViewCache.HaveCoin | src/coins.cpp:160-164 | whether the view shows a coin, and changes nothing |
| Coins.CoinsViewCache.Uncache | src/coins.cpp:322-329 | drops a clean entry and changes nothing that shows |
| Coins.CoinsViewCache.BatchWrite | src/coins.cpp:239-306 | from a sound child the misapplied-flag error is impossible, and the view becomes the child's view; otherwise it throws just when a FRESH entry meets an unspent one |
| Coins.CoinsViewCache.Flush | src/coins.cpp:308-320 | empties the cache, leaves what it shows as it was and makes the layer below show the same |
| Coins.CoinsViewDB.BatchWrite | src/txdb.cpp:78-143 | the bottom layer takes over exactly the dirty entries: the spent are erased, the others written |
| CoinsRuns.AddCoins | src/coins.cpp:115-130 | each output of a transaction that can be spent shows up with height and flags, skipped ones vanish; it throws for just the first unchecked output whose coin is cached, with the outputs before it added; otherwise, unchecked, the flags stay right just when no stored output hides a coin of the view below |
| CoinEntries.WrittenKeeps | src/coins.cpp:244-298 | writing one child entry over one of our own keeps the flags truthful, cannot be misapplied, and shows the child's coin |
| CoinEntries.MisappliedResurfaces | src/coins.cpp:250-256 | why the flag matters: a FRESH entry over an unspent coin makes a spent coin come back |
| CoinEntries.SpentLeavesNoTrace | src/coins.cpp:66-306 | a coin created in a cache, written down any number of layers and then spent there, or in any cache above that is written down, leaves no entry behind |
| CoinEntries.ReadLeavesNoTrace | src/coins.cpp:66-82 | what was only read changes nothing in the layer below |
| CoinEntries.UsageStored | src/coins.cpp:94-113 | the exact change of the memory total when an entry is replaced |
| ArithUint.BaseUint.Add | src/arith_uint256.h:137-147 | addition modulo 2^BITS |
| ArithUint.BaseUint.Sub | src/arith_uint256.h:149-153 | subtraction modulo 2^BITS |
| ArithUint.BaseUint.Negate | src/arith_uint256.h:79-86 | negation modulo 2^BITS |
| ArithUint.BaseUint.Increment | src/arith_uint256.h:175-182 | plus one modulo 2^BITS |
| ArithUint.BaseUint.Decrement | src/arith_uint256.h:192-199 | minus one modulo 2^BITS |
| ArithUint.BaseUint.MulSmall | src/arith_uint256.cpp:63-73 | multiplication by a limb modulo 2^BITS |
| ArithUint.BaseUint.Mul | src/arith_uint256.cpp:75-89 | multiplication modulo 2^BITS |
| ArithUint.BaseUint.MulRow | src/arith_uint256.cpp:79-86 | one row of the schoolbook product, with what falls off the top accounted for |
| ArithUint.BaseUint.ShiftLeft | src/arith_uint256.cpp:29-44 | multiplication by a power of two modulo 2^BITS, for any shift |
| ArithUint.BaseUint.ShiftRight | src/arith_uint256.cpp:46-61 | floor division by a power of two, for any shift |
| ArithUint.BaseUint.Divide | src/arith_uint256.cpp:91-115 | floor division; a zero divisor throws, with the number already cleared |
| ArithUint.BaseUint.DivideBit | src/arith_uint256.cpp:105-113 | one step of the shift-and-subtract division keeps quotient times divisor plus remainder |
| ArithUint.BaseUint.CompareTo | src/arith_uint256.cpp:117-127 | three-way comparison of the numbers |
| ArithUint.BaseUint.Bits | src/arith_uint256.cpp:214-227 | the position of the highest set bit, plus one |
| ArithUint.BaseUint.SetCompact | src/arith_uint256.cpp:274-292 | the number a compact value stands for, modulo 2^BITS; overflow just when it does not fit; negative just when the sign bit is set on a nonzero mantissa |
| ArithUint.BaseUint.GetCompact | src/arith_uint256.cpp:294-315 | the compact value of the number, within 32 bits, so that `SetCompact` accepts it |
| CompactTarget.CompactIsClose | src/arith_uint256.cpp:294-315 | the compact value of n stands for at most n, and less than one unit of its mantissa below it, with the sign right |
| CompactTarget.ExactIs | src/arith_uint256.cpp:274-292 | a compact value stands for its mantissa times 256 to the size less three, rounded down |
| CompactTarget.CompactExamples | src/arith_uint256.cpp:274-315 | five compact values, with and without sign and at each end of the size, and what they stand for |
| CompactTarget.CompactAgain | src/arith_uint256.cpp:274-315 | encoding what a compact value of n stands for, with the sign, gives the same compact value back |
| CompactTarget.OverflowIsExact | src/arith_uint256.cpp:287-290 | the overflow test of the source holds just when the number needs more than 256 bits |
| Shifts.LeftEnds | src/arith_uint256.cpp:29-44 | the left shift loop over limbs computes the shifted number modulo 2^BITS |
| Shifts.RightEnds | src/arith_uint256.cpp:46-61 | the right shift loop over limbs computes the quotient by a power of two |
| Limbs.TopDecides | src/arith_uint256.cpp:117-127 | the highest limb that differs decides the order of the numbers |
| CheckQueueRuns.RunKeeps | src/checkqueue.h:64-156 | in every interleaving of one master and any number of workers, whenever the lock is free: nTodo is the queue plus all batches in flight, nTotal is nIdle plus the threads at work, every check is queued, in flight or done, fAllOk is the conjunction of those done, and no sleeper is forgotten |
| CheckQueueRuns.WaitResult | src/checkqueue.h:64-138 | `Wait` returns true just when every check added since the last one is good, and leaves the queue idle with all threads accounted for |
| CheckQueueProgress.StepLowers | src/checkqueue.h:64-153 | no step but adding leaves more to do, and every step other than a spurious wake-up leaves less |
| CheckQueueProgress.WaitEnds | src/checkqueue.h:64-138 | so, while nothing is added, there are at most so many such steps before `Wait` returns |
| CheckQueueProgress.NeverStuck | src/checkqueue.h:64-138 | and until then some thread already inside can always take one: under fair scheduling `Wait` ends |
| CheckQueueRuns.MasterIsWokenUp | src/checkqueue.h:84-98 | a master asleep without notification always has work outstanding and a worker that is running it |
| CheckQueueRuns.CanStep | src/checkqueue.h:64-156 | whatever a thread may do in a reachable state has an outcome: no critical section gets stuck |
| CheckQueueRuns.AddKeeps | src/checkqueue.h:141-156 | adding checks keeps the invariant |
| CheckQueueRuns.LockKeeps | src/checkqueue.h:72-92 | a thread entering, waking up or reporting a batch keeps the invariant |
| CheckQueueRuns.SettleKeeps | src/checkqueue.h:84-113 | returning, going to sleep or taking a batch keeps the invariant |
| CheckQueueObject.CheckQueue.Round | src/checkqueue.h:64-121 | one critical section of `Loop` updates the fields as the step says and wakes the master just when a worker finished the last work |
| CheckQueueObject.CheckQueue.Resume | src/checkqueue.h:84-113 | the same for a thread that wakes up |
| CheckQueueObject.CheckQueue.Add | src/checkqueue.h:141-156 | the checks are queued and counted |
| CheckQueueObject.CheckQueue.IsIdle | src/checkqueue.h:159-163 | whether all threads are idle, nothing is left to do and the status is reset |
| CheckQueueObject.CheckQueue.RunBatch | src/checkqueue.h:116-120 | a batch is good just when all its checks are, and it was good before |
| CheckQueueState.BatchSize | src/checkqueue.h:100-105 | a batch is the largest that each thread could take with one share left over, within the limit; at least one and at most all of the queue |
| RollingBloom.RollingBloomFilter.Insert | src/bloom.cpp:274-303 | the filter holds exactly what the history of inserts says: for each position the generation of its last touch, unless that is three generations old |
| RollingBloom.RollingBloomFilter.Contains | src/bloom.cpp:311-323 | true just when every position of the key was touched by an insert of the current or the two last generations; in particular for every key with at most 2 * nEntriesPerGeneration inserts after it |
| RollingBloom.RollingBloomFilter.Wipe | src/bloom.cpp:282-294 | the masked loop clears exactly the positions of one generation |
| RollingBloom.RollingBloomFilter.Mark | src/bloom.cpp:296-302 | the two words of a pair record the generation of one position and leave the others |
| RollingBloom.RollingBloomFilter.Reset | src/bloom.cpp:331-339 | an empty history |
| RollingBloom.FastMod | src/bloom.cpp:270-272 | the scaled product is always a valid index |
| RollingBloom.HashesOf | src/bloom.cpp:270-272 | the hashes that get to a position are an interval |
| RollingBloom.HashesCount | src/bloom.cpp:270-272 | of 2^32 / n hashes, rounded down or up, and the intervals cover them all |
| BloomHistory.WipeForgets | src/bloom.cpp:276-295 | starting a generation forgets just the touches three generations back |
| BloomHistory.InsertTouches | src/bloom.cpp:296-302 | an insert touches just its positions, with the current generation |
| BloomHistory.SetIfLive | src/bloom.cpp:311-323 | a position is set just when some insert of the last three generations touched it |
| BloomHistory.RecentIsLive | src/bloom.cpp:274-295 | an insert with at most two generations of inserts after it is in one of the last three generations |
| CuckooCache.Cache.Insert | src/cuckoocache.h:368-416 | an element that is in place is kept; with garbage in one of its slots it is stored there and nothing moves; otherwise elements move along and at most one is lost; the element and every other one that was in one of its slots, garbage or not, is in one of its slots again unless it was the one overwritten or dropped; the epoch bound holds; and the exact way it goes: each move swaps the element in hand, with its flag, into the slot after the one last looked at, only while it has no garbage to go to, and one is dropped only after depth_limit moves |
| CuckooCache.Cache.Replay | src/cuckoocache.h:368-454 | over any run of inserts and lookups, every element inserted and neither overwritten nor dropped since is found, whatever was erased or aged in between |
| CuckooCache.Cache.Contains | src/cuckoocache.h:443-454 | true just when one of the eight slots holds the element, and for every element written and not overwritten; erasing marks one slot that holds it |
| CuckooCache.Cache.EpochCheck | src/cuckoocache.h:264-296 | ages just when the countdown ran out and the epoch is full, and leaves counter plus live slots of the epoch within epoch_size + epoch_size / 16 |
| CuckooCache.Cache.Age | src/cuckoocache.h:280-285 | the old epoch becomes garbage and the current one old |
| CuckooCache.Cache.CountEpoch | src/cuckoocache.h:271-276 | counts the live slots of the current epoch |
| CuckooCache.Cache.LiveIsFound | src/cuckoocache.h:418-454 | every element in a slot that is not garbage is in one of its eight slots |
| CuckooCache.Cache.FoundWhereWritten | src/cuckoocache.h:418-454 | so is every element that was written and not overwritten, garbage or not |
| CuckooCache.Cache.SwapInto | src/cuckoocache.h:406-411 | element and epoch flag change places with those of a slot |
| CuckooCache.Cache.StoreOverGarbage | src/cuckoocache.h:384-391 | stores just when one of the slots is garbage, in the first that is |
| CuckooCache.Cache.KeepIfPresent | src/cuckoocache.h:374-382 | finds the element just when it is in place and then saves it from collection |
| CuckooCache.Cache.NextSlot | src/cuckoocache.h:406-406 | the slot after the one last looked at; from the start, the second of the eight |
| CuckooCache.BitPackedAtomicFlags.BitSet | src/cuckoocache.h:92-96 | sets one flag and leaves the others |
| CuckooCache.BitPackedAtomicFlags.BitUnset | src/cuckoocache.h:103-107 | clears one flag and leaves the others |
| CuckooCache.BitPackedAtomicFlags.constructor | src/cuckoocache.h:61-68 | room for all flags, all set |
| CuckooSlots.Swapped | src/cuckoocache.h:406-411 | a swap keeps elements and live elements apart from the exchange, and the epoch count with the flag carried along |
| CuckooSlots.Filled | src/cuckoocache.h:384-391 | storing over garbage loses only the garbage |
| DBTransaction.CDBTransaction.Write | src/dbwrapper.h:599-613 | the key shows the value, `writes` and `deletes` stay disjoint and the memory total exact |
| DBTransaction.CDBTransaction.Erase | src/dbwrapper.h:666-676 | the key shows nothing, with the same invariants |
| DBTransaction.CDBTransaction.Read | src/dbwrapper.h:621-639 | lookup in the parent overlaid with the pending changes, through any number of nested transactions |
| DBTransaction.CDBTransaction.Exists | src/dbwrapper.h:647-658 | whether that lookup finds something |
| DBTransaction.CDBTransaction.Clear | src/dbwrapper.h:678-683 | nothing is pending and the parent shows through |
| DBTransaction.CDBTransaction.Commit | src/dbwrapper.h:685-694 | the parent becomes the overlay, nothing is pending, and what the transaction shows does not change |
| DBTransaction.CDBTransaction.CommitTo | src/dbwrapper.h:685-694 | the same into a store other than the parent, such as a batch |
| DBTransaction.CDBTransaction.CommitToTransaction | src/dbwrapper.h:685-694 | the same into another transaction |
| DBOverlay.WriteUsage | src/dbwrapper.h:599-613 | the exact change of the memory total by a write |
| DBOverlay.AddedUsage | src/dbwrapper.h:666-676 | the exact change of the memory total by an erase |
| DBIterator.CDBTransactionIterator.Seek | src/dbwrapper.h:426-437 | what lies ahead is the overlay from the key on |
| DBIterator.CDBTransactionIterator.SeekToFirst | src/dbwrapper.h:417-423 | what lies ahead is the whole overlay |
| DBIterator.CDBTransactionIterator.Next | src/dbwrapper.h:444-458 | passes exactly the current key |
| DBIterator.CDBTransactionIterator.CurIsLeast | src/dbwrapper.h:518-532 | the current key is the least of what lies ahead |
| DBIterator.CDBTransactionIterator.SkipDeletedAndOverwritten | src/dbwrapper.h:507-516 | skips parent keys that do not show and nothing else |
| DBIterator.CDBTransactionIterator.Drain | src/dbwrapper.h:417-505 | the keys come in strictly ascending order, each once, with the overlay value |
| DBIterator.ListFrom | src/dbwrapper.h:417-505 | so seeking and reading to the end lists exactly the overlay from that key on |
| DBIterator.ListStack | src/dbwrapper.h:392-505 | and so does the iterator of a transaction on transactions, to any depth |
| DBIterator.Gather | src/dbwrapper.h:392-505 | what each of them reads from the one below is all that one shows |
| KeyOrder.BytesOrder | src/dbwrapper.h:543-551 | comparing bytes, with the shorter first, is a strict total order |
| Chain.CBlockIndex.GetAncestor | src/chain.cpp:88-111 | mixing skips and parents ends at the block that walking back parent by parent reaches, or at none for a height out of range; and takes at most n * n steps if the two heights agree but for their last n bits |
| SkipSteps.StepsAreFew | src/chain.cpp:78-111 | that bound, for the walk over heights alone |
| SkipSteps.StepsBounded | src/chain.cpp:78-111 | below the highest bit j in which the heights differ: at most j * j steps and two more for each bit set below it |
| SkipSteps.TwoBelow | src/chain.cpp:99-109 | where stepping past the parent's skip is taken, it does not cost more than it clears |
| Chain.CBlockIndex.BuildSkip | src/chain.cpp:118-122 | the skip pointer leads to the ancestor at the skip height |
| SkipHeights.SkipsDown | src/chain.cpp:78-86 | the skip height of a block is below its own |
| SkipHeights.ClearsLowestOne | src/chain.cpp:75-75 | the bit trick clears the lowest set bit |
| Chain.LastCommonAncestor | src/chain.cpp:337-355 | the highest block that is an ancestor of both, or none for unrelated blocks |
| Chain.LastCommonIsUnique | src/chain.cpp:335-355 | there is just one such block |
| Chain.CChain.SetTip | src/chain.cpp:14-25 | the chain is the full path to the new tip, in spite of the early exit |
| Chain.CChain.FindFork | src/chain.cpp:56-65 | the last common ancestor with the tip |
| Chain.CChain.GetLocator | src/chain.cpp:27-54 | starts at the block, lists ancestors at exactly ten single and then doubling steps, ends at genesis, and has at most 12 + log2 of the height entries |
| Chain.CChain.LocatesMore | src/chain.cpp:36-52 | each hash added is that of an ancestor at the height it should be at |
| Base58.EncodeThenDecode | src/base58.cpp:23-111 | every byte vector within the limit decodes from its encoding |
| Base58.DecodeThenEncode | src/base58.cpp:23-111 | every text without white space that decodes encodes to itself |
| Base58.EncodeBase58 | src/base58.cpp:73-111 | leading ones for leading zero bytes, then the base 58 digits of the number; the buffer always suffices |
| Base58.DecodeBase58 | src/base58.cpp:23-71 | what decoding answers for any text, with white space, length limit and characters outside the alphabet; the buffer always suffices |
| Base58.MultiplyAdd | src/base58.cpp:88-99 | the carry loop multiplies and adds in place; no carry is left over when the result fits |
| Base58Sizes.EncodeFits | src/base58.cpp:83-83 | n bytes never need more than n * 138 / 100 + 1 digits |
| Base58Sizes.DecodeFits | src/base58.cpp:37-37 | n digits never need more than n * 733 / 1000 + 1 bytes |
| Base58.AlphabetSpelledOut | src/base58.cpp:21-21 | the digits stand for the characters of the alphabet string |
| Positional.DigitsAreDigits | src/base58.cpp:73-111 | every number is the value of its digits |
| Positional.DigitsOfVal | src/base58.cpp:73-111 | digits without a leading zero are the digits of their value |
| Base58Check.EncodeBase58Check | src/base58.cpp:126-133 | four checksum bytes are appended before encoding |
| Base58Check.DecodeBase58Check | src/base58.cpp:135-158 | succeeds just when the text has no NUL and decodes to something with its checksum, and answers what comes before |
| Base58Check.CheckRoundTrip | src/base58.cpp:126-158 | what was encoded with a checksum decodes, and to nothing else |
| Bech32.EncodeThenDecode | src/bech32.cpp:137-178 | what was encoded decodes to the same prefix and values (section "Bech32" of BIP 173, section "Bech32m" of BIP 350) |
| Bech32.DecodeThenEncode | src/bech32.cpp:137-178 | what decodes re-encodes to its lower-case form |
| Bech32.OneSymbolChanged | src/bech32.cpp:114-122 | changing the value of exactly one data symbol always makes decoding fail |
| Bech32.NotBoth | src/bech32.cpp:181-196 | no text decodes as both variants |
| Bech32.Encode | src/bech32.cpp:137-148 | the text of prefix, separator, values and checksum |
| Bech32.Decode | src/bech32.cpp:150-178 | what decoding answers for any text: mixed case, unprintable characters, separator, length, symbols, checksum |
| Bech32.PolyMod | src/bech32.cpp:33-91 | the register is the remainder of the polynomial of the values, behind a one, by the generator over the field of 32 elements (section "Bech32" of BIP 173) |
| PolyModRemainder.FoldIsRemainder | src/bech32.cpp:33-91 | there is a quotient with which quotient times generator plus register is the polynomial, coefficient by coefficient |
| PolyModRemainder.OnlyRemainder | src/bech32.cpp:33-91 | no other register has one |
| PolyModRemainder.StepRemainder | src/bech32.cpp:60-91 | one step multiplies by x, adds the value and takes off the top coefficient times the generator |
| PolyModRemainder.PutsBack | src/bech32.cpp:83-87 | what the five constants put back for any top value is that value times 29, 22, 20, 21, 29 and 18 in the field where z^5 is z^3 + 1 |
| PolyModRemainder.FieldExample | src/bech32.cpp:50-53 | a product in that field |
| Bech32.ShortestTexts | src/bech32.cpp:137-178 | the shortest text of each variant, as published in BIP 173 and BIP 350, encodes and decodes |
| Bech32.CharsetIs | src/bech32.cpp:16-16 | the 32 characters in order |
| Bech32.CreateChecksum | src/bech32.cpp:124-135 | the six values that make the checksum come out right |
| Bech32.VerifyChecksum | src/bech32.cpp:114-122 | whether the fold gives the constant of the variant |
| Bech32.ExpandHRP | src/bech32.cpp:99-112 | high bits, zero, low bits of the prefix |
| Bech32.CharIsRight | src/bech32.cpp:16-28 | the tables of characters and of values invert each other |
| PolyModSteps.StepLinear | src/bech32.cpp:33-91 | a step is linear over exclusive or |
| PolyModSteps.StepInjective | src/bech32.cpp:33-91 | no nonzero state steps to zero by a zero value |
| PolyModSteps.OneChangeShows | src/bech32.cpp:33-91 | changing one value changes the fold |
| PolyModSteps.ChecksumFits | src/bech32.cpp:124-135 | the checksum makes the fold come out as the constant |
| PolyModSteps.ChecksumIsOnly | src/bech32.cpp:114-135 | no other six values do |
| Payments.IsBlockValueValid | src/masternode-payments.cpp:83-155 | accepts just the mints that are allowed, in every branch, and hands back the limit and the budget amount |
| Payments.VotedPayment | src/masternode-payments.cpp:103-115 | with payments by vote, a block is accepted exactly if it mints the reward and the scheduled payment, if that is positive and fits in the budget and below the cap |
| Payments.SuperblockPayment | src/masternode-payments.cpp:116-155 | with budget data, a superblock's payment that fits may be minted on top of the reward, and has to be where the mint is exact |
| Payments.UnknownPayment | src/masternode-payments.cpp:116-155 | without budget data, where there may be a superblock, anything up to the whole budget that fits may be minted on top; the reward has to be where the mint is exact |
| Payments.HandedBack | src/masternode-payments.cpp:83-155 | the limit and the budget amount handed back, in each of the branches |
| Payments.TruncatedIs | src/masternode-payments.cpp:36-41 | quotients are rounded towards zero |
| Payments.CapHolds | src/masternode-payments.cpp:83-155 | off the regression network nothing that is accepted takes the supply above the cap |
| Payments.Validate | src/masternode-payments.cpp:83-155 | so no run of accepted blocks does; the run stops only at a mint that is not allowed |
| Payments.GetGovernanceCapacity | src/masternode-payments.cpp:73-85 | the whole budget exactly when it is positive, the minted supply in range and it fits below the cap, else nothing; the cycle amount on the regression network |
| Payments.GetPQMasternodePayment | src/masternode-payments.cpp:24-47 | fails just when the payment cannot be known; otherwise the outputs of the payment |
| Payments.PaymentIs | src/masternode-payments.cpp:36-41 | the outputs add up to the reward, or the commission if that is more; operator and owner get their shares |
| Payments.FillPQMasternodePayment | src/masternode-payments.cpp:49-70 | succeeds just when there is enough to take the payment out of; then the totals are conserved, except that a coinbase beside a coinstake is overwritten; otherwise nothing changes |
| Payments.SubtractMnPaymentFromCoinstake | src/masternode-payments.cpp:326-344 | takes exactly the payment, evenly, with the rest from the last stake output |

## Left out

- `CAddrMan::Select_`, `GetChance` and `DecodeAsmap`: termination of the draw is only probabilistic, and the chance is floating point.
- AddrMan.AddrMan.Unserialize: of a stream that ends too early, or whose counts are refused, it says what is returned and, where entries are missing, that the manager is not consistent, but not the tables the exception leaves. That a count is an int of 32 bits and that a list is no longer than its count say what can be in a stream. Objects that do not deserialise are not part of this model.
- AddrManCheck.Check_: the lookup of a missing address inserts it with id 0 in the source; the model looks it up without inserting.
- AddrMan.AddrMan.GetAddr_: states which of the drawn addresses are returned for any draws; nothing is said about their distribution.
- BlockAssembly.BlockAssembler.addPackageTxs: as the loop of the source need not end, the model takes any number of rounds; where packages are cut short at once again and again and something depends on them, it is not said whether it ends. Entries are unbounded integers: those of what depends on a package that is cut short again and again would wrap in the source. Scores are compared by an arbitrary comparator, because the source compares rounded products; that nothing better remains at an early return is stated for comparators that are orders. Log lines are left out.
- PackageTotals.UpdateTracks: fees are stated to be exact if no transaction is prioritised; the source mixes two notions of fee, and what it comes to otherwise is not said.
- The rest of `BlockAssembler`: coinbase, stake and header fields, the Sapling root.
- `CCoinsViewCache`: best block, Sapling anchors and nullifiers, `GetValueIn`, `HaveInputs` and the other queries, which are sums and conjunctions of `AccessCoin`; `SetBackend`. The memory use of a script that does not fit inline is what allocating its length takes, without spare capacity.
- `base_uint`: hexadecimal text, conversion to double, bitwise operators and `EqualTo`, which would add easy members.
- CheckQueueRuns.RunKeeps: the queue swaps checks instead of copying them, and the mutex is one step per critical section. Fairness of the scheduler is not modelled; `CheckQueueProgress` says what follows from it.
- RollingBloom.RollingBloomFilter.Contains: false positives are characterised by positions, not by probability; the size formula of the constructor, which uses logarithms, is a parameter.
- CuckooCache.Cache.Insert: the depth limit, which the source computes with a floating point logarithm, is a parameter; `setup_bytes` is arithmetic on it. Memory ordering of the atomic flags is not modelled.
- DBTransaction.CDBTransaction.Read: serialisation of keys and values is left out, so reading a value at another type than it was written with is too.
- DBIterator.CDBTransactionIterator.Drain: the iterator works on the keys, its own and those below, as they are when it is made.
- Chain.CBlockIndex.GetAncestor: the bound on the steps is a square of the number of bits; that it is less by a factor, as the 110 steps the source names for 2^18 blocks, is not stated.
- Chain.CChain.GetLocator: heights near 2^31, where the doubling step of the source wraps, are not modelled; heights are unbounded.
- `CChain::FindEarliestAtLeast`, `CBlockIndex` disk positions, stake modifiers and median time: easy, or dependent on code that is not part of this model.
- Base58Check.DecodeBase58Check: the double SHA-256 checksum is an arbitrary function that gives four bytes.
- Payments.IsBlockValueValid: reward schedule, budget data and network parameters are inputs, and amounts are unbounded integers. `IsBlockPayeeValid`, `FillBlockPayee` and the finality votes depend on code that is not part of this model.
- Payments.GetPQMasternodePayment: the masternode index and the chain tip are inputs.
- `CBloomFilter`, key handling, hashing, networking, start-up and storage: easy, foreign or input and output.
