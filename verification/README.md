# A Dafny model of the node's core data structures

This project models the parts of a Bitcoin-derived full node (a proof-of-stake
chain with smart contracts) on which its correctness rests and whose code is
stateful, in place, or concurrent, and proves what they promise.

| file | what it models |
|---|---|
| `CheckQueue.dfy` | the parallel script-check queue: one master and any number of workers under one mutex and two condition variables, as an object and as a system of interleaved steps |
| `Coins.dfy` | stacks of write-back caches of unspent outputs over the coin database, with the DIRTY and FRESH flags |
| `MerkleBlock.dfy`, `MerkleSize.dfy` | partial Merkle trees: building, parsing, packing, extracting the matches, and their size |
| `AddrMan.dfy`, `AddrManOps.dfy`, `AddrManRuns.dfy` | the address manager as a value: its indexes, every operation, runs of operations |
| `AddrManClear.dfy` | what clearing it leaves behind |
| `AddrManTimes.dfy` | the times it is given, and exactly which keep it consistent |
| `AddrManObject.dfy` | the address manager object, with its two bucket tables updated in place |
| `AddrManCheck.dfy` | its self-check, exactly what that tests, and what it cannot see |
| `AddrManEffects.dfy` | what its operations bring about |
| `AddrManDisk.dfy`, `AddrManRoundTrip.dfy`, `AddrManReload.dfy`, `AddrManRepeats.dfy`, `AddrManStream.dfy` | writing it to disk and reading it back, also under another address map, bucket count or version, and with repeated addresses |
| `ArithUint.dfy`, `Compact.dfy` | multi-word unsigned arithmetic, the compact form of targets, the work of a block |
| `Chain.dfy`, `SkipHeights.dfy` | the tree of block headers with skip pointers, the walk over them, the active chain, forks and locators |
| `Cuckoo.dfy`, `CuckooAges.dfy`, `CuckooCache.dfy` | the eight-way cuckoo cache with epochs, the ages of its elements over runs, and its bit-packed flags |
| `RollingBloom.dfy` | the rolling Bloom filter over pairs of 64-bit words |
| `BitStream.dfy`, `Gcs.dfy`, `GcsFilter.dfy` | bit streams, Golomb-Rice codes, compact block filters (section "Golomb-Coded Sets" of BIP 158) |
| `Base58.dfy` | Base58 encoding and decoding |
| `Basics.dfy`, `Powers.dfy`, `Positional.dfy`, `Limbs.dfy`, `LimbShift.dfy`, `BitOps.dfy`, `ByteBits.dfy`, `WordBits.dfy` | numbers, digits, limbs and bits that the others share |

Code that changes an object is a class whose methods change it, loop for loop;
each method is proved to do what a function on values says, and the theorems
are about those functions. Hash functions, random draws and clocks are
parameters, so every theorem holds for all of them. Two theorems on Merkle
trees ask that the hash of a pair be injective, which stands for collision
resistance; the check of honest trees also asks for distinct transactions, as
the code itself does where it rejects equal siblings.

## Main results

- Every verdict of the check queue is right, in every interleaving: `true`
  means that all checks added in the round ran and succeeded, `false` that one
  failed. No wake-up is lost, the queue is never stuck, and a wait ends after a
  bounded number of steps of the threads.
- A stack of coin caches of any depth, under any sequence of operations that
  adds a coin without leave to overwrite only where there is none, shows
  what plain maps show. The DIRTY and FRESH flags never lead a flush astray.
- A partial Merkle tree proves what it claims and nothing else, and what was
  built is always accepted.
- The indexes of the address manager agree all along a run of operations, at
  whatever times, if and only if no pending collision is selected whose entry is
  known and whose tried slot is empty. Of these only Clear brings that about, as it
  keeps what is pending, and ResolveCollisions repairs it. It is known exactly
  which operations also keep the statistics in order ("consistent" means both).
  The self-check tests all of that but three facts, and each of the three has a
  state that shows it. A trip to disk keeps every entry, and a change of address
  map or bucket count on the way loses exactly the entries that find their slots
  taken; an image that repeats an address gives agreeing indexes if and only if
  no entry with such an address finds a slot.
- Multi-word arithmetic is exact modulo its width, division included; compact
  targets round as they should and overflow exactly when they must; the work of
  a block is exact.
- Ancestors found over skip pointers are the ancestors; below height 2^k, k at
  least 9, the longest walk takes exactly k^2 / 4 + 2 k - 7 steps. Forks are the
  last common ancestors; locators are logarithmic.
- The cuckoo cache keeps every element at a place of its own and loses at most
  one per insertion. In every run, an element that was inserted stays for a
  whole epoch, unless it is erased or an insertion runs out of depth with it.
- The rolling Bloom filter finds all recent keys, and it is known exactly which
  others.
- Block filters match exactly the hash collisions, and so every element; they
  read back as they were written up to the size limit. What a filter read from
  any accepted bytes matches is known exactly too.
- Base58 decoding and encoding are inverse to each other, spaces and limits
  included, and their buffers never overflow.

## Where code and comments differ

The model follows the code.

- `src/cuckoocache.h:416-430`: the comment has the first displacement at the
  first of the eight places; the code starts at the second
  (`Cuckoo.FirstDisplaced`, with the hash of `Cuckoo.SecondPlaceForExample`). It
  also has the element just put in stay where it is; that holds exactly when the
  element pushed out has another place next (`Cuckoo.JustPutStays`, with the hash
  of `Cuckoo.JustPutGoesForExample`).
- `src/cuckoocache.h:187` and `347-348`: an epoch is 45% of the table only while
  45 times its size fits in 32 bits (`CuckooCache.EpochExactly`,
  `CuckooCache.EpochForExample`).
- `src/chain.cpp:42`: the comment calls the walk over skip pointers O(log n); it
  is quadratic in the logarithm (`SkipHeights.FromPower`,
  `SkipHeights.NotLogarithmic`). The 110 steps for 2^18 blocks of
  `src/chain.cpp:79-82` are exact (`SkipHeights.WalkShort`,
  `SkipHeights.WalkAttained`).
- `src/merkleblock.h:46-47`: the comment bounds the flag bits by 2 N - 1 for N
  hashes. Nodes with a single child take one more bit each, so the bound can
  fail (`MerkleBlock.BitBoundFails`); `MerkleBlock.BitBoundExactly` says when it
  holds.
- `src/merkleblock.h:31-34`: the guaranteed size of 10 + ceil(32.25 N) bytes
  fails with it, for example with 1025 transactions, all matched
  (`MerkleSize.SizeFails`); `MerkleSize.SizeExactly` says when it holds.
- `src/addrman.cpp:262-333`: `Add_` answers true for an address that was not
  known, also when the entry was refused a slot and deleted again
  (`AddrManEffects.AddFresh`, with the state of
  `AddrManEffects.RefusedForExample`).
- `src/addrman.cpp:620-624`: for a collision whose tried slot is empty,
  `SelectTriedCollision_` inserts a blank entry of number -1 under which the
  indexes no longer agree (`AddrManRuns.SelectExactly`). `Clear`
  (`src/addrman.h:502-524`) keeps the pending collisions, so that a run can get
  there (`AddrManClear.ClearSpoils`); `AddrManRuns.RunExactly` and
  `AddrManRuns.RunKeeps` say which runs do not.
- `src/addrman.cpp:429`: the lookup in the self-check inserts a zero for a
  missing address; so it cannot tell a missing address from entry 0. This and
  two other facts are outside the check (`AddrManCheck.ConsistentIsChecked`);
  `AddrManCheck.LostEntryUnseen`, `AddrManCheck.LateIdUnseen` and
  `AddrManCheck.LostAddressUnseen` give states that pass it and are wrong.
- `src/blockfilter.cpp:111-132`: filters of up to 2^32 - 1 elements can be
  built, but reading the count fails above the maximum size of 2^28
  (`GcsFilter.MatchExact`, `GcsFilter.Reload`).
- `src/blockfilter.cpp:118-131`: bytes whose differences add up to 2^64 or more
  are accepted, and then a stored value may not be found
  (`GcsFilter.WrapForExample`, `GcsFilter.ExactForAll`).

## Model

| member | source | states |
|---|---|---|
| CheckQueueModel.BatchCount | src/checkqueue.h:101-106 | at least one check is taken, never more than are queued; a batch of more than one stays within the batch size and within an even share of the queue among all threads |
| CheckQueueModel.CheckQueue.constructor | src/checkqueue.h:127-130 | the queue starts empty, idle, with nothing to do and a good verdict |
| CheckQueueModel.CheckQueue.Add | src/checkqueue.h:145-157 | the checks go to the back of the queue in their order, the to-do count grows by their number, and no worker, one, or all are notified for none, one, or more checks |
| CheckQueueModel.CheckQueue.CleanUp | src/checkqueue.h:75-86 | on re-entry the batch's result is folded into the verdict and its size leaves the to-do count; a first entry counts the thread; the master is notified exactly when a worker finishes the last outstanding check |
| CheckQueueModel.CheckQueue.WakeUp | src/checkqueue.h:97-99 | a thread that leaves its wait is no longer idle, and nothing else changes |
| CheckQueueModel.CheckQueue.GetWork | src/checkqueue.h:88-115 | under the lock a thread returns the verdict and resets it (a master with nothing left), goes idle (an empty queue), or takes a batch from the back of the queue |
| CheckQueueModel.InitInv | src/checkqueue.h:127-130 | the invariant of the interleaved system holds at the start |
| CheckQueueModel.CallKeeps | src/checkqueue.h:139-142 | a thread that enters Loop keeps the invariant |
| CheckQueueModel.PushKeeps | src/checkqueue.h:145-157 | Add keeps the invariant, whichever waiting threads its notifications reach |
| CheckQueueModel.RunKeeps | src/checkqueue.h:117-120 | running (or, after a failure, skipping) one check outside the lock keeps the invariant: the check stays accounted for and a failure stays known |
| CheckQueueModel.LockTaken | src/checkqueue.h:75-99 | taking the lock leads to the invariant of a thread inside the critical section; the idle and total counts are in range and a finishing thread never takes more off the to-do count than is there |
| CheckQueueModel.ReleaseReturn | src/checkqueue.h:89-96 | the master's return keeps the invariant and starts a new round |
| CheckQueueModel.ReleaseSleep | src/checkqueue.h:97-99 | going to sleep keeps the invariant |
| CheckQueueModel.ReleaseTake | src/checkqueue.h:106-115 | taking a batch keeps the invariant |
| CheckQueueModel.TakeConserves | src/checkqueue.h:106-115 | a taken batch conserves the checks: for every check, queued + held by threads + run + skipped equals added |
| CheckQueueModel.StepKeeps | src/checkqueue.h:66-123 | every step of every thread keeps the invariant |
| CheckQueueModel.RunInv | src/checkqueue.h:66-157 | every state of every interleaving satisfies the invariant |
| CheckQueueModel.VerdictAtReturn | src/checkqueue.h:89-96 | with an empty queue and nothing to do, the verdict held is right for the round: true means all added checks ran and none failed, false means one failed |
| CheckQueueModel.VerdictsRight | src/checkqueue.h:139-142 | in every interleaving, each verdict that Wait returns is right for the checks added since the previous return |
| CheckQueueModel.RunsAtMostOnce | src/checkqueue.h:117-120 | at every moment of every interleaving no check has run that was not added in the round, and none more often than it was added |
| CheckQueueModel.TodoNeverWraps | src/checkqueue.h:77-83 | in every interleaving the unsigned to-do count is at least the size of the batch subtracted from it |
| CheckQueueModel.WaitingMasterHasWorker | src/checkqueue.h:88-99 | a master asleep without a notification always has a worker busy with a batch: the wake-up cannot be lost |
| CheckQueueModel.NeverStuck | src/checkqueue.h:66-123 | while the master is in Wait, some thread can take a step that no spurious wake-up is needed for, and the step leads to a state |
| CheckQueueModel.OwnStepShrinks | src/checkqueue.h:66-123 | every step of the threads themselves lowers a non-negative weight |
| CheckQueueModel.OwnRunBounded | src/checkqueue.h:66-123 | a run of such steps keeps the invariant and is no longer than the weight lost |
| CheckQueueModel.WaitReturns | src/checkqueue.h:139-142 | whatever the schedule, a run of the threads' own steps is bounded, and where it can go no further the master has returned |
| Coins.OverlayAt | src/coins.cpp:42-57 | what a stack of a cache over a view shows at each outpoint: the cache entry if there is one (a spent one hides the coin), else what lies below |
| Coins.PutKeeps | src/coins.cpp:42-115 | replacing one entry by one that fits its base keeps the layer's flag discipline and changes the view at that outpoint only |
| Coins.AddSafeExactly | src/coins.cpp:68-87 | AddCoin's choice of DIRTY and FRESH is right if and only if the caller allowed an overwrite, or the outpoint was cached, or it is absent below |
| Coins.AddView | src/coins.cpp:68-87 | adding an unspent coin, whatever was there, makes the view show exactly that coin more |
| Coins.SpendView | src/coins.cpp:101-115 | spending (erasing a FRESH entry, or keeping a DIRTY spent one) keeps the discipline and removes exactly that outpoint from the view |
| Coins.MergeShowsChild | src/coins.cpp:148-204 | merging a child's entries into its parent, in all four DIRTY/FRESH cases, keeps the parent's flag discipline towards its own base and leaves the parent showing what the child showed |
| Coins.FreshNeverMisapplied | src/coins.cpp:173-179 | a child entry that is FRESH never meets an unspent parent entry, so the logic error is never thrown |
| Coins.WriteShowsChild | src/txdb.cpp:144-168 | writing the dirty entries (erasing the spent ones) leaves the database showing what the cache showed, with no spent coin stored |
| Coins.CoinsDB.constructor | src/txdb.cpp:92-94 | a database view over given coins |
| Coins.CoinsDB.GetCoin | src/txdb.cpp:96-98 | found exactly when stored, and then the stored coin |
| Coins.CoinsDB.BatchWrite | src/txdb.cpp:119-175 | after the batch the database shows what the flushed cache showed over it |
| Coins.CoinsViewCache.constructor | src/coins.cpp:36-36 | a new cache shows what its base shows; the views below are untouched |
| Coins.CoinsViewCache.BackedGetCoin | src/coins.cpp:24-30 | the base is asked; it may fill its own caches but no view of the stack changes |
| Coins.CoinsViewCache.FetchCoin | src/coins.cpp:42-57 | found exactly when cached or in the base; a coin from the base enters the cache clean; every view of the whole stack stays the same |
| Coins.CoinsViewCache.GetCoin | src/coins.cpp:59-66 | the answer is that of the view, for a stack of any depth, and no view changes |
| Coins.CoinsViewCache.HaveCoin | src/coins.cpp:128-131 | true exactly when the view has the coin, and no view changes |
| Coins.CoinsViewCache.AddCoin | src/coins.cpp:68-87 | throws exactly when an unspent coin is cached there and no overwrite is allowed; otherwise the view gains exactly that coin (nothing for an unspendable one); the views below stay; the flags are still right afterwards if and only if the caller allowed an overwrite, or the outpoint was cached, or it is absent below |
| Coins.CoinsViewCache.SpendCoin | src/coins.cpp:101-115 | the view loses exactly that outpoint; a coin that was there is returned; the views below stay |
| Coins.CoinsViewCache.BatchWrite | src/coins.cpp:148-204 | the cache, updated entry by entry in place, ends up showing what the child showed, with the views below untouched |
| Coins.CoinsViewCache.BackedBatchWrite | src/coins.cpp:30-30 | the base's view becomes that of the flushed cache, and all views below it stay |
| Coins.CoinsViewCache.Flush | src/coins.cpp:206-211 | the cache is empty, its own view is the same, and the base now shows that view |
| Coins.CoinsViewCache.Uncache | src/coins.cpp:213-220 | no view changes; at most that one entry is dropped |
| Coins.Apply | src/coins.cpp:36-220 | one operation on a stack of caches does to the list of views what one plain step on maps does |
| Coins.Run | src/coins.cpp:36-220 | any sequence of adds, spends, reads, flushes, uncaches and pushed or popped layers does to the views of a stack of any depth what the plain maps do |
| MerkleBlock.NodeExists | src/merkleblock.h:65-68 | a position lies within the computed width of its level exactly when some leaf lies under it |
| MerkleBlock.NodeSplit | src/merkleblock.cpp:70-74 | the leaves under a node are those of its left child followed by those of its right child if it has one |
| MerkleBlock.HeightFrom | src/merkleblock.cpp:120-123 | the level found is the lowest from the start on whose width is at most one |
| MerkleBlock.CalcTreeHeight | src/merkleblock.cpp:120-123 | the loop finds the height of the tree |
| MerkleBlock.RootCovers | src/merkleblock.cpp:120-126 | the root covers all leaves |
| MerkleBlock.LeafSound | src/merkleblock.cpp:77-96 | at a node where the recursion stops, a hash equal to the genuine one yields only genuine matches |
| MerkleBlock.ExtractSound | src/merkleblock.cpp:77-113 | a parsed branch whose hash equals the genuine node hash reports only genuine leaves of that node, in increasing order of position, whatever the bits and hashes |
| MerkleBlock.NodesDistinct | src/merkleblock.cpp:99-106 | with distinct transactions no two nodes of a level have the same hash, so an honest tree never trips the equal-children test |
| MerkleBlock.ExtractBuild | src/merkleblock.cpp:59-113 | parsing a built branch consumes exactly what was built and gives back its hash, its matches and their positions, without setting the bad flag |
| MerkleBlock.ExtractBuildLeaf | src/merkleblock.cpp:84-96 | the same where the recursion stops |
| MerkleBlock.ExtractBuildTwo | src/merkleblock.cpp:97-112 | the same at a node with two children |
| MerkleBlock.ExtractBuildOne | src/merkleblock.cpp:97-112 | the same at a node whose only child is paired with itself |
| MerkleBlock.BranchSize | src/merkleblock.cpp:59-75 | a branch has at most one hash per leaf, at most one plus (matches x height) hashes, and no more hashes than bits |
| MerkleBlock.BitCount | src/merkleblock.cpp:59-75 | a branch of N hashes has 2 N - 1 bits and one more for each node descended from that has only one child |
| MerkleBlock.BitBoundExactly | src/merkleblock.h:42-48 | the documented bound of 2 N - 1 bits for N hashes holds if and only if no level below the root has an odd number of nodes and a match under its last one |
| MerkleBlock.BitBoundFails | src/merkleblock.h:42-48 | the tree of three transactions with the last one matched: two hashes, four bits |
| MerkleSize.PrefixIs | src/serialize.h:306-312 | the bytes that a length takes |
| MerkleSize.SizeExactly | src/merkleblock.h:31-48 | the promised size of 10 + ceil(32.25 N) bytes for N hashes holds if and only if the bits that nodes with a single child add fit in the bytes that the two length prefixes leave free |
| MerkleSize.SizeWithin | src/merkleblock.h:31-48 | where the bound on flag bits holds, the size holds up to 65535 hashes and not beyond |
| MerkleSize.SizeSmall | src/merkleblock.h:31-48 | with at most 2^32 transactions, the size holds for fewer than 253 hashes, whatever is matched |
| MerkleSize.FewOnlyChildren | src/merkleblock.cpp:59-75 | a branch has at most one node with a single child on each level |
| MerkleSize.PowerShape | src/merkleblock.cpp:59-75 | a tree of 2^m + 1 transactions, all matched, has m such nodes |
| MerkleSize.SizeFails | src/merkleblock.h:31-48 | for 2^m + 1 transactions, all matched, m at least 10: above the promised size |
| MerkleBlock.Pack | src/merkleblock.h:100-102 | the bytes hold the bits in order, padded with zero bits |
| MerkleBlock.Soundness | src/merkleblock.cpp:131-162 | if an extraction reports the root of a transaction list (and not the null hash), then every match it reports is the transaction at the position it reports |
| MerkleBlock.Completeness | src/merkleblock.cpp:115-162 | extracting from a tree built for distinct transactions, after a trip through bytes, reports the root and exactly the chosen transactions and positions, without error, with few hashes |
| MerkleBlock.PartialMerkleTree.constructor | src/merkleblock.cpp:115-127 | the recursive build over all levels, from an empty tree |
| MerkleBlock.PartialMerkleTree.ParentOfMatch | src/merkleblock.cpp:60-63 | true exactly when a matched leaf lies under the node |
| MerkleBlock.PartialMerkleTree.TraverseAndBuild | src/merkleblock.cpp:59-75 | appends the branch of the node to the bits and hashes collected so far |
| MerkleBlock.PartialMerkleTree.TraverseAndExtract | src/merkleblock.cpp:77-113 | the recursive parse, in place: cursors, matches, positions and the bad flag are those of the parsed branch |
| MerkleBlock.PartialMerkleTree.ExtractMatches | src/merkleblock.cpp:131-162 | all sanity tests in order; the root and the matches, or the null hash when any of them fails |
| MerkleBlock.PartialMerkleTree.Serialize | src/merkleblock.h:88-105 | the bytes written hold the bits, padded |
| MerkleBlock.PartialMerkleTree.Unserialize | src/merkleblock.h:88-105 | the tree read has eight bits a byte and is not bad |
| AddrMan.CreateKeeps | src/addrman.cpp:87-97 | a new entry is indexed by id, by address and in the random order, and every other index stays right |
| AddrMan.SwapKeeps | src/addrman.cpp:99-117 | swapping two places of the random order keeps all indexes right |
| AddrMan.DeleteKeeps | src/addrman.cpp:119-131 | deleting an unreferenced entry keeps all indexes right |
| AddrMan.TouchKeeps | src/addrman.cpp:335-355 | changing statistics only keeps all indexes right |
| AddrMan.DropKeeps | src/addrman.cpp:133-146 | emptying a new slot takes one reference; an entry that loses its last one is the only thing left to delete |
| AddrMan.TakeKeeps | src/addrman.cpp:322-325 | an entry that takes a free new slot of its own, below the limit of references, keeps everything right |
| AddrMan.ClearNewKeeps | src/addrman.cpp:133-146 | clearing a new slot keeps everything right, also when it deletes the entry |
| AddrMan.ClearNewTouches | src/addrman.cpp:133-146 | clearing a new slot empties it and leaves every other entry as it was |
| AddrMan.LeaveNewKeeps | src/addrman.cpp:150-158 | taking an entry out of all its new buckets leaves it without references, with all else right |
| AddrMan.LeaveTriedKeeps | src/addrman.cpp:168-176 | taking an entry out of its tried slot keeps all else right |
| AddrMan.EnterTriedKeeps | src/addrman.cpp:189-193 | an entry without references, put in its free tried slot, is accounted for |
| AddrMan.EvictKeeps | src/addrman.cpp:166-188 | evicting a tried entry back to the new table keeps everything right |
| AddrMan.EvictTouches | src/addrman.cpp:166-188 | an eviction frees that tried slot and no other, and touches no entry in transit |
| AddrMan.ReenterKeeps | src/addrman.cpp:178-187 | an evicted entry in a cleared new slot has one reference and is counted as new again |
| AddrMan.MakeRoomKeeps | src/addrman.cpp:148-188 | with the entry out of the new table and its tried slot freed, only that entry is in transit |
| AddrMan.MakeRoomTouches | src/addrman.cpp:148-188 | the tried table loses that slot only, and the entry keeps its data |
| AddrMan.MakeTriedKeeps | src/addrman.cpp:148-194 | moving a new entry to the tried table keeps all indexes in agreement |
| AddrMan.MakeTriedTouches | src/addrman.cpp:148-194 | the tried table gains that entry in its slot and is otherwise the same; no entry appears or changes address |
| AddrManOps.MarkKeeps | src/addrman.cpp:214-217 | recording a success keeps all indexes in agreement, whatever the time |
| AddrManOps.NewEntryHasSlot | src/addrman.cpp:225-240 | an untried entry sits in some new bucket, so the search in Good cannot fail |
| AddrManOps.PromoteKeeps | src/addrman.cpp:242-259 | a promotion, or the collision recorded in its place, keeps all indexes in agreement |
| AddrManOps.GoodKeeps | src/addrman.cpp:196-260 | Good keeps all indexes in agreement, on every branch and whatever the time |
| AddrManOps.AttemptKeeps | src/addrman.cpp:335-355 | Attempt keeps all indexes in agreement, whatever the time |
| AddrManOps.ConnectedKeeps | src/addrman.cpp:503-539 | Connected and SetServices keep all indexes in agreement |
| AddrManOps.PlaceNewKeeps | src/addrman.cpp:311-331 | placing a known or just created entry in the new table (taking the slot, overwriting it, or deleting the newcomer) keeps all indexes in agreement |
| AddrManOps.AddKeeps | src/addrman.cpp:262-333 | Add keeps all indexes in agreement, on every branch |
| AddrManOps.GatherKeeps | src/addrman.cpp:482-501 | GetAddr keeps all indexes in agreement although it shuffles while it reads |
| AddrManOps.GatherLeaves | src/addrman.cpp:482-501 | GetAddr changes nothing but the random order |
| AddrManOps.GatherFinds | src/addrman.cpp:482-501 | what GetAddr returns is within its limit and lists distinct entries that are not terrible; below the limit, all of them |
| AddrManOps.GatherStep | src/addrman.cpp:489-499 | one turn of the loop extends the list of distinct good entries by at most the entry drawn |
| AddrManRuns.ResolveOneKeeps | src/addrman.cpp:543-596 | resolving one collision (kept, dropped, or promoted) keeps all indexes in agreement, whatever the clock says |
| AddrManRuns.ResolveKeeps | src/addrman.cpp:541-598 | resolving all pending collisions keeps all indexes in agreement, every tried slot filled, and pending collisions meaningful |
| AddrManRuns.PromoteEvolves | src/addrman.cpp:242-259 | a promotion empties no tried slot, reuses no id, and a recorded collision has its tried slot taken |
| AddrManRuns.GoodEvolves | src/addrman.cpp:196-260 | the same of Good; without test-before-evict the collisions stay |
| AddrManRuns.ResolveOneEvolves | src/addrman.cpp:543-596 | the same of resolving one collision, which adds none |
| AddrManRuns.PlaceNewEvolves | src/addrman.cpp:311-331 | placing an entry in the new table leaves the tried table, the ids and the collisions alone |
| AddrManRuns.AddEvolves | src/addrman.cpp:262-333 | the same of Add as a whole, up to one new id |
| AddrManRuns.ApplyKeeps | src/addrman.cpp:196-625 | every operation, Clear included, keeps the indexes in agreement whatever the times, except exactly a selection that is blind: of a pending entry that is known and whose tried slot is empty; all but Clear also keep filled tried slots, ids, and the meaning of pending collisions |
| AddrManRuns.EmptyIndexed | src/addrman.h:502-524 | the indexes of a new manager agree and no collision is pending |
| AddrManRuns.RunKeeps | src/addrman.cpp:405-479 | in every run of operations, Clear included, at whatever times, the indexes agree, provided that nothing is selected between a Clear with collisions pending and the next ResolveCollisions; outside those stretches at most ten collisions are pending and each is meaningful |
| AddrManRuns.ClearedIndexed | src/addrman.h:502-524 | the indexes of a cleared manager agree under the new key; the pending collisions it keeps are meaningful only if there are none |
| AddrManRuns.ResolveBacks | src/addrman.cpp:541-598 | after ResolveCollisions has been through some ids, those of them still pending are known ones with a filled tried slot, or gone |
| AddrManRuns.ResolveRepairs | src/addrman.cpp:541-598 | so one call to ResolveCollisions makes whatever is pending meaningful again |
| AddrManRuns.RunExactly | src/addrman.cpp:405-479 | in every run the indexes agree all along if and only if no selection in it is blind |
| AddrManRuns.QuietClears | src/addrman.h:502-524 | where Clear is only called with nothing pending, what is pending stays meaningful |
| AddrManRuns.SelectExactly | src/addrman.cpp:600-625 | selecting a collision keeps the indexes in agreement if and only if its entry is gone or the entry's tried slot is filled; otherwise the lookup inserts an entry of number -1 |
| AddrManRuns.SelectSafe | src/addrman.cpp:600-625 | in every run from an empty manager, outside those stretches, each pending collision whose entry still exists has its tried slot filled by an existing tried entry, so SelectTriedCollision never reads an empty slot |
| AddrManClear.ClearedSelect | src/addrman.h:502-524 | for every manager with id 0 pending, new key and address: Clear, then Add, then a selection of 0 is blind, and spoils the indexes |
| AddrManClear.ClashPends | src/addrman.cpp:242-259 | for all hashes and every two addresses that want the same tried slot and different new ones: two Adds and two Goods leave id 0 pending in a new manager |
| AddrManClear.ClearSpoils | src/addrman.h:502-524 | the seven operations together, from a new manager to one whose indexes disagree |
| AddrManObject.ProbeReaches | src/addrman.cpp:225-235 | the probe from a random start visits every bucket |
| AddrManObject.Factor | src/addrman.cpp:298-301 | the loop computes 2 to the number of references |
| AddrManObject.AddrManager.constructor | src/addrman.h:502-529 | the object starts as the empty manager |
| AddrManObject.AddrManager.Clear | src/addrman.h:502-524 | both tables wiped in place, all indexes and counts reset, the new key in force; the pending collisions stay |
| AddrManObject.WipeTable | src/addrman.h:507-516 | the two nested loops leave no slot filled |
| AddrManObject.AddrManager.Create | src/addrman.cpp:87-97 | returns the next id and adds the entry to all three indexes |
| AddrManObject.AddrManager.SwapRandom | src/addrman.cpp:99-117 | exchanges two places of the random order and the positions their entries remember |
| AddrManObject.AddrManager.Delete | src/addrman.cpp:119-131 | removes the entry from all three indexes and the count of new entries |
| AddrManObject.AddrManager.ClearNew | src/addrman.cpp:133-146 | empties the slot in place and deletes an entry with no reference left |
| AddrManObject.AddrManager.RemoveFromBuckets | src/addrman.cpp:150-158 | the loop over all new buckets removes exactly the entry's own slots and counts them off its references |
| AddrManObject.AddrManager.RemoveFromNew | src/addrman.cpp:150-160 | the entry has left the new table and the count of new entries |
| AddrManObject.AddrManager.MakeSpace | src/addrman.cpp:162-188 | the entry's tried slot is free; what held it has moved back to the new table |
| AddrManObject.AddrManager.MakeTried | src/addrman.cpp:148-194 | the two bucket tables, updated in place, hold what the specified move gives |
| AddrManObject.AddrManager.FindNewBucket | src/addrman.cpp:225-240 | always finds a bucket that holds the entry |
| AddrManObject.AddrManager.Good_ | src/addrman.cpp:196-260 | keeps the indexes of the object in agreement and does what the specified Good does, at whatever time |
| AddrManObject.AddrManager.Promote_ | src/addrman.cpp:242-259 | records a collision or moves the entry to the tried table, as specified |
| AddrManObject.AddrManager.FindExact | src/addrman.cpp:74-85 | found exactly when the address is known with the same port, and then its id |
| AddrManObject.AddrManager.Attempt_ | src/addrman.cpp:335-355 | updates the last try and, under the stated condition, the failure count of that entry only |
| AddrManObject.AddrManager.Connected_ | src/addrman.cpp:503-521 | updates the time of that entry only |
| AddrManObject.AddrManager.SetServices_ | src/addrman.cpp:523-539 | updates the services of that entry only |
| AddrManObject.AddrManager.MayInsert | src/addrman.cpp:313-321 | an occupied slot may be taken exactly when its holder is terrible, or has other references and the newcomer none |
| AddrManObject.AddrManager.PlaceNew_ | src/addrman.cpp:311-331 | places the entry in its slot or deletes it, as specified |
| AddrManObject.AddrManager.Add_ | src/addrman.cpp:262-333 | state and result are those of the specified Add |
| AddrManObject.AddrManager.AddKnown | src/addrman.cpp:276-331 | an address already known is updated and, if it passes all four tests, placed once more |
| AddrManObject.AddrManager.GetAddr_ | src/addrman.cpp:482-501 | state and list are those of the specified shuffle |
| AddrManObject.AddrManager.Judge_ | src/addrman.cpp:548-590 | the decision on one collision: drop, keep, or replace |
| AddrManObject.AddrManager.ResolveCollisions_ | src/addrman.cpp:541-598 | the loop that erases from the set while it walks it resolves every collision that was pending at its start exactly once, in order |
| AddrManObject.AddrManager.ResolveTurn | src/addrman.cpp:543-596 | one turn of that loop: one collision resolved, the rest still to come unchanged, one less to do |
| AddrManObject.AddrManager.SelectTriedCollision_ | src/addrman.cpp:600-625 | for every manager: nothing when none is pending; otherwise the drawn collision is erased if its entry is gone, else the holder of its tried slot is returned, or the blank entry that the lookup inserts where the slot is empty |
| AddrManCheck.ConsistentIsChecked | src/addrman.cpp:405-479 | consistency is exactly what Check_ tests together with three facts that it does not look at |
| AddrManCheck.LateIdUnseen | src/addrman.cpp:405-479 | for every hash and address: a manager with an entry whose id is still to be given out passes the check and is not consistent |
| AddrManCheck.LostAddressUnseen | src/addrman.cpp:405-479 | the same with an address that leads to a missing entry |
| AddrManCheck.LostEntryUnseen | src/addrman.cpp:426-430 | the same with entry 0 not found under its address |
| AddrManCheck.PositionsCount | src/addrman.cpp:431-432 | if every entry is found at the place it remembers and there are as many places as entries, then every place holds the entry that remembers it |
| AddrManCheck.CheckEntry | src/addrman.cpp:413-437 | the tests of one entry pass exactly when it is right |
| AddrManCheck.CheckEntries | src/addrman.cpp:413-437 | the loop over the map of entries succeeds exactly when all are right, and then has collected the tried ids and the references of the new ones |
| AddrManCheck.CheckTried | src/addrman.cpp:444-456 | the walk over the tried table, crossing ids off, leaves none exactly when table and entries agree |
| AddrManCheck.CheckNew | src/addrman.cpp:458-469 | the walk over the new table, counting references down to zero, leaves none exactly when table, entries and reference counts agree |
| AddrManCheck.TriedNext | src/addrman.cpp:446-454 | one tried slot: crossed off, or a failure that means the tables are wrong |
| AddrManCheck.NewNext | src/addrman.cpp:460-467 | one new slot: one reference counted off, or a failure that means the tables are wrong |
| AddrManCheck.TriedEnd | src/addrman.cpp:471-472 | ids left over mean that the tried table is wrong, and none left means that it is right |
| AddrManCheck.NewEnd | src/addrman.cpp:473-474 | references left over mean that the new table is wrong, and none left means that it is right |
| AddrManCheck.Check | src/addrman.cpp:405-479 | Check_ returns zero if and only if the manager satisfies the condition it stands for |
| AddrManEffects.ClearNewLoses | src/addrman.cpp:133-146 | clearing a slot loses at most the entry that had its only reference there |
| AddrManEffects.EvictDemotes | src/addrman.cpp:166-188 | an evicted entry is back in the new table, with its data, in the one slot of its own source, at the cost of at most the entry that had only that slot |
| AddrManEffects.MakeRoomDisplaces | src/addrman.cpp:148-188 | the same of making room for an entry; with the slot free no entry is lost |
| AddrManEffects.MakeTriedMoves | src/addrman.cpp:148-194 | the entry ends up tried, with its data and no reference, in its tried slot |
| AddrManEffects.GoodEstablishes | src/addrman.cpp:196-260 | Good of a known untried address: its tried slot taken and test-before-evict asked for, a collision is recorded (up to ten) and the tables stay; otherwise it is tried with fresh statistics and its predecessor demoted |
| AddrManEffects.GoodOtherwise | src/addrman.cpp:196-223 | Good of an unknown or already tried address changes statistics only |
| AddrManEffects.DeleteUndoesCreate | src/addrman.cpp:87-131 | deleting the entry just created restores the manager, but for the next id |
| AddrManEffects.AddFresh | src/addrman.cpp:304-333 | Add of an unknown address always answers true; refused, it leaves the manager as it was but for the id; otherwise the entry sits in exactly one new slot and at most one entry is lost |
| AddrManEffects.RefusedForExample | src/addrman.cpp:304-333 | a consistent manager with its only slot taken, and an address that it answers true for and does not keep |
| AddrManEffects.AddAgain | src/addrman.cpp:276-333 | Add of a known address answers false, creates nothing, and either leaves the new table alone or adds one reference in the slot of the announcing source |
| AddrManEffects.ResolveEstablishes | src/addrman.cpp:565-589 | a collision judged replaceable ends with the newcomer tried, the old holder demoted, and the collision gone |
| AddrManTimes.MakeTriedExactly | src/addrman.cpp:148-194 | moving an entry to tried leaves a consistent manager if and only if a success is on record for it and its last try is not negative |
| AddrManTimes.TimesSurvive | src/addrman.cpp:414-437 | entries that keep their times and come into no tried slot are as fine for the check as before |
| AddrManTimes.GoodExactly | src/addrman.cpp:196-260 | a consistent manager is consistent after Good if and only if the address is unknown, or the time is positive, or it is zero and the untried address is left waiting for its collision |
| AddrManTimes.AttemptExactly | src/addrman.cpp:335-355 | the same of Attempt if and only if the address is unknown or the time is not negative |
| AddrManTimes.ResolveOneExactly | src/addrman.cpp:543-596 | the same of resolving one collision if and only if it is not judged replaceable or the clock is positive |
| AddrManTimes.EarlyJudge | src/addrman.cpp:543-596 | with the clock at or below zero, a collision of a consistent manager is judged replaceable if and only if its entry is known and its tried slot empty |
| AddrManTimes.ResolveEarly | src/addrman.cpp:541-598 | with such a clock, resolving only drops collisions if there is no such entry among them, and otherwise ends with an entry tried at that time |
| AddrManTimes.ResolveExactly | src/addrman.cpp:541-598 | resolving any collisions leaves a consistent manager consistent if and only if the clock is positive or no pending entry that is known has its tried slot empty |
| AddrManTimes.BackedResolves | src/addrman.cpp:541-598 | which is so whenever what is pending is meaningful |
| AddrManTimes.AddTimes | src/addrman.cpp:262-333 | Add keeps a consistent manager consistent at every time |
| AddrManTimes.ApplyExactly | src/addrman.cpp:196-625 | every operation, Clear included, leaves a consistent manager consistent if and only if it is one of those named above; only Good, Attempt, ResolveCollisions and SelectTriedCollision can be others |
| AddrManTimes.RunConsistent | src/addrman.cpp:405-479 | a run keeps a consistent manager consistent all along if and only if each of its operations is such a one where it happens |
| AddrManDisk.FlipTwice | src/addrman.h:334-335 | the exclusive or that marks the bucket count is undone by itself |
| AddrManRoundTrip.LoadNewKeeps | src/addrman.h:407-415 | reading distinct new entries gives a state that is right but for the slots still to be filled |
| AddrManRoundTrip.LoadTriedKeeps | src/addrman.h:417-436 | reading distinct tried entries loses none and keeps that state right |
| AddrManRoundTrip.PlaceKeeps | src/addrman.h:462-482 | placing the new entries in their stored buckets fills one slot each |
| AddrManRoundTrip.NothingPruned | src/addrman.h:484-494 | nothing is pruned when every new entry has a reference |
| AddrManRoundTrip.LoadFaithful | src/addrman.h:380-500 | an acceptable image loads into a manager whose indexes agree, with exactly its entries in their stored buckets |
| AddrManRoundTrip.WrittenOnce | src/addrman.h:337-355 | every entry is written once, the new ones first, as many of each as the counts say |
| AddrManRoundTrip.SavedDistinct | src/addrman.h:337-355 | the entries written have distinct addresses and distinct tried slots |
| AddrManRoundTrip.StoredSlot | src/addrman.h:356-369 | the bucket noted for a new entry on reading is one in which it was |
| AddrManRoundTrip.CountsFit | src/addrman.h:399-405 | a manager whose indexes agree never exceeds the size limits that reading enforces |
| AddrManRoundTrip.SaveAcceptable | src/addrman.h:322-378 | what such a manager writes is acceptable for reading |
| AddrManRoundTrip.SameSlot | src/addrman.h:462-482 | every new slot filled on reading was held by the same entry on writing |
| AddrManRoundTrip.RoundTrip | src/addrman.h:322-500 | writing and reading back, with the same key and address map, gives a manager whose indexes agree, with the same counts, the same new and tried entries, one reference for each new entry, each in a slot it had; it is consistent if the one written was |
| AddrManReload.ThinnedReadable | src/addrman.h:417-436 | without the tried entries that are not the first in their slot, an image with distinct addresses has distinct tried slots |
| AddrManReload.LoadTriedThin | src/addrman.h:417-436 | reading the tried entries gives what reading only the first one in each slot gives, and counts the others as lost |
| AddrManReload.SeatStep | src/addrman.h:462-482 | one new entry takes the slot in its stored bucket, or that of its source, or stands without one; the rest is as it was |
| AddrManReload.SeatAll | src/addrman.h:462-482 | after all new entries have looked for a slot, the table is filled first come, first served, and exactly the others are without reference |
| AddrManReload.PruneKeeps | src/addrman.h:484-494 | pruning deletes exactly the entries without reference and keeps all indexes in agreement |
| AddrManReload.PlacedAndPruned | src/addrman.h:462-494 | placing and pruning together leave indexes that agree, and the survivors described below |
| AddrManReload.NewSurvivors | src/addrman.h:462-494 | the new entries that survive are those that found a slot free |
| AddrManReload.TriedSurvivors | src/addrman.h:417-436 | the tried entries that survive are those that were the first in their slot |
| AddrManReload.LoadDistinct | src/addrman.h:380-500 | every image of the promised shape with distinct addresses, written under whatever address map, bucket count or version, is read into a manager whose indexes agree; what is lost is exactly what found its slots taken; it is consistent if and only if the survivors' times are fine |
| AddrManRepeats.LoadAlike | src/addrman.h:380-500 | reading an image gives the same, but for the map of addresses, as reading it with its addresses made distinct under hashes that do not see the difference |
| AddrManRepeats.PruneFewer | src/addrman.h:484-494 | pruning forgets exactly the addresses of the entries it deletes, also where another entry has the same one |
| AddrManRepeats.AddrsExactly | src/addrman.h:407-494 | the map of addresses is right in the end if and only if no entry is left whose address another entry had |
| AddrManRepeats.LoadAny | src/addrman.h:380-500 | every image of the promised shape is read, also one that repeats addresses; what is lost is exactly what found its slots taken; the indexes agree if and only if no entry with a repeated address found a slot |
| AddrManStream.WriteEntries | src/addrman.h:337-355 | the two loops over the map write the chosen entries in order of id and number the new ones |
| AddrManStream.WriteBucket | src/addrman.h:356-369 | one bucket's entries, by number, in order of position |
| AddrManStream.Serialize | src/addrman.h:322-378 | the fields written are those of the specified image |
| AddrManStream.ReadNew | src/addrman.h:407-415 | reads the new entries as specified |
| AddrManStream.ReadTried | src/addrman.h:417-436 | reads the tried entries, drops those whose slot is taken, and lowers the count by them |
| AddrManStream.ReadBuckets | src/addrman.h:438-451 | the last bucket named for each valid entry number is kept |
| AddrManStream.PlaceEntries | src/addrman.h:462-482 | each new entry goes to its stored bucket where the bucketing still applies, else to its source's slot, where free |
| AddrManStream.PruneEntries | src/addrman.h:484-494 | the entries without references are deleted |
| AddrManStream.PlaceAndPrune | src/addrman.h:462-494 | the two loops one after the other, as specified |
| AddrManStream.Unserialize | src/addrman.h:380-500 | for every image, also a malformed one, the object read or the exception thrown is that of the specified reading |
| ArithUint.BaseUint.constructor | src/arith_uint256.h:31-37 | zero |
| ArithUint.BaseUint.Copy | src/arith_uint256.h:39-45 | a separate object with the same value |
| ArithUint.BaseUint.AssignSmall | src/arith_uint256.h:85-92 | takes the 64-bit value |
| ArithUint.BaseUint.GetLow64 | src/arith_uint256.h:245-249 | the value modulo 2^64 |
| ArithUint.BaseUint.EqualTo | src/arith_uint256.cpp:120-132 | true exactly when the values are equal |
| ArithUint.BaseUint.Add | src/arith_uint256.h:132-142 | the sum modulo 2^(32 width), also when both operands are the same object |
| ArithUint.BaseUint.Not | src/arith_uint256.h:66-72 | 2^(32 width) - 1 minus the value |
| ArithUint.BaseUint.Increment | src/arith_uint256.h:170-177 | one more, modulo 2^(32 width) |
| ArithUint.BaseUint.Negate | src/arith_uint256.h:74-81 | the negative modulo 2^(32 width) |
| ArithUint.BaseUint.Subtract | src/arith_uint256.h:144-148 | the difference modulo 2^(32 width) |
| ArithUint.BaseUint.Decrement | src/arith_uint256.h:187-194 | one less, modulo 2^(32 width) |
| ArithUint.BaseUint.MultiplySmall | src/arith_uint256.cpp:54-64 | the product with a 32-bit number modulo 2^(32 width) |
| ArithUint.BaseUint.AddRow | src/arith_uint256.cpp:71-76 | one row of the schoolbook product is added, up to a multiple of 2^(32 width) |
| ArithUint.BaseUint.Multiply | src/arith_uint256.cpp:66-80 | the product modulo 2^(32 width), also when both operands are the same object |
| ArithUint.BaseUint.CompareTo | src/arith_uint256.cpp:108-118 | the sign of the comparison of the values |
| ArithUint.BaseUint.Bits | src/arith_uint256.cpp:190-203 | the number of bits of the value |
| ArithUint.BaseUint.ShiftLeft | src/arith_uint256.cpp:20-35 | the value times 2^shift modulo 2^(32 width), for any shift |
| ArithUint.BaseUint.ShiftRight | src/arith_uint256.cpp:37-52 | the value divided by 2^shift, for any shift |
| ArithUint.BaseUint.DivideTurn | src/arith_uint256.cpp:96-103 | one turn of the long division keeps quotient x divisor + remainder and shrinks the remainder below the shifted divisor |
| ArithUint.BaseUint.DivideTurns | src/arith_uint256.cpp:96-103 | the loop over all turns leaves the floor of the quotient |
| ArithUint.BaseUint.Divide | src/arith_uint256.cpp:82-106 | an error, and the value zero, exactly when the divisor is zero; otherwise the floor of the quotient |
| ArithUint.SubtractExact | src/arith_uint256.cpp:97-98 | the subtraction in the division never wraps |
| Compact.OverflowExactly | src/arith_uint256.cpp:239-242 | the three-way overflow test is true exactly when mantissa x 256^(size-3) is at least 2^256 |
| Compact.CompactParts | src/arith_uint256.cpp:246-267 | the mantissa and size of an encoded number, with the shift that frees the sign bit |
| Compact.BytesOfBits | src/arith_uint256.cpp:248-248 | the byte count computed from the bit count is that of the number |
| Compact.CompactRounds | src/arith_uint256.cpp:226-267 | decoding what was encoded rounds down by less than one part in 2^15, and encoding that again changes nothing |
| Compact.SetCompact | src/arith_uint256.cpp:226-244 | the value is the meaning modulo 2^256; negative exactly when the sign bit is set on a non-zero number; overflow exactly when the meaning is at least 2^256 |
| Compact.GetLeading | src/arith_uint256.cpp:250-255 | the three leading bytes of the number |
| Compact.GetCompact | src/arith_uint256.cpp:246-267 | the compact form with its sign bit, for every 256-bit value |
| Compact.TargetRoom | src/chain.cpp:131-135 | a target that does not overflow leaves room for the + 1 that follows |
| Compact.ProofValue | src/chain.cpp:131-135 | (~t / (t + 1)) + 1 is 2^256 / (t + 1), although 2^256 does not fit |
| Compact.GetBlockProof | src/chain.cpp:123-136 | 2^256 / (target + 1) for a valid target; zero for a negative, overflowing or zero one |
| SkipHeights.LowestOneGoes | src/chain.cpp:71-72 | n & (n - 1) removes exactly the lowest set bit |
| SkipHeights.SkipGoes | src/chain.cpp:74-83 | an even height skips to where its lowest set bit is gone, an odd one to where the two lowest above its last bit are gone |
| SkipHeights.OddDescent | src/chain.cpp:85-110 | from an odd height above the middle of an aligned block of heights each step to the middle clears two ones: half as many steps as bits |
| SkipHeights.EightDescent | src/chain.cpp:85-110 | from a multiple of eight each step clears one: as many steps as bits above the third |
| SkipHeights.Descent | src/chain.cpp:85-110 | from any height above the middle, the larger of the two |
| SkipHeights.TopToStart | src/chain.cpp:85-110 | from the end of an aligned block of 2^m heights to its start: at most m + 1 steps |
| SkipHeights.TopToNext | src/chain.cpp:85-110 | to the height after its start: the same |
| SkipHeights.FromTop | src/chain.cpp:85-110 | to any other: at most (m^2 + 6 m - 7) / 4 steps |
| SkipHeights.WalkShort | src/chain.cpp:74-110 | from any height below 2^k to any lower one: at most k^2 / 4 + 2 k - 7 steps for k from 9 on (110 for k = 18), and the corresponding number below |
| SkipHeights.FromPower | src/chain.cpp:85-110 | from height 2^j to height 2 the walk takes exactly (j^2 + 6 j - 7) / 4 steps, rounded down |
| SkipHeights.WalkAttained | src/chain.cpp:74-110 | the walk from 2^k - 8 to 2 takes that many, so that the bound is exact from k = 9 on |
| SkipHeights.NotLogarithmic | src/chain.cpp:85-110 | so no multiple of the number of bits bounds the walk: for every c, the one from 2^(4 c + 4) to 2 takes more than c times the bits |
| Chain.BlockIndex.constructor | src/validation.cpp:4597-4611 | a new entry is one above its predecessor and has no skip pointer yet |
| Chain.BlockIndex.GetAncestor | src/chain.cpp:85-110 | the walk that mixes skip and predecessor pointers finds the ancestor at that height, and none exactly when there is none; where all skip pointers are built it takes exactly the steps of the walk over heights |
| Chain.BlockIndex.BuildSkip | src/chain.cpp:117-121 | the skip pointer is the ancestor at the skip height, and the tree stays well formed |
| Chain.AncTwice | src/chain.cpp:85-110 | an ancestor's ancestor is the ancestor |
| Chain.AddToBlockIndex | src/validation.cpp:4597-4613 | a header added to a well-formed tree gives a well-formed tree and moves no other skip pointer |
| Chain.LastCommonAncestor | src/chain.cpp:155-172 | the result is a common ancestor and every common ancestor is at or below it |
| Chain.ActiveChain.constructor | src/chain.h:426-434 | an empty chain |
| Chain.ActiveChain.SetTip | src/chain.cpp:12-22 | the chain becomes the ancestors of the tip, by height, although the loop stops at the first entry that agrees |
| Chain.Agrees | src/chain.cpp:17-21 | a chain that agrees with a tip's ancestors at one height agrees at all lower ones |
| Chain.ActiveChain.FindFork | src/chain.cpp:52-61 | the last common ancestor of the block and the tip, or none without a block or a chain |
| Chain.ActiveChain.GetLocator | src/chain.cpp:24-50 | the hashes of the block's ancestors at the locator heights, whether taken from the chain or from the tree |
| Chain.LocatorDescends | src/chain.cpp:24-50 | locator heights start at the block, fall strictly, and end with the genesis block |
| Chain.LocatorShort | src/chain.cpp:24-50 | with doubling steps, a distance below step x (2^k - 1) takes at most k + 1 entries |
| Chain.LocatorLength | src/chain.cpp:24-50 | a locator of a block below height 2^k has at most 11 + k entries |
| Limbs.ScaledEven | src/cuckoocache.h:205-252 | the 2^32 hash values are spread evenly over the places: equally many, give or take one, lead to each of them |
| Cuckoo.SetupOrderly | src/cuckoocache.h:339-352 | a new cache is in order |
| Cuckoo.ContainsExactly | src/cuckoocache.h:469-479 | looking at an element's own eight places finds it exactly when it is at one of them, and so, but for the default value, exactly when it is anywhere in the table |
| Cuckoo.FirstDisplaced | src/cuckoocache.h:406-439 | a newcomer without a free place is put at its second place, for every hash; at its first one if and only if the two are the same |
| Cuckoo.SecondPlaceForExample | src/cuckoocache.h:406-439 | a hash at which the two differ |
| Cuckoo.JustPutStays | src/cuckoocache.h:416-439 | the next displacement leaves the element just put in alone if and only if the element pushed out has another place next; otherwise the two change places again |
| Cuckoo.JustPutGoesForExample | src/cuckoocache.h:416-439 | a hash at which the element just put in is always the next to be pushed out |
| Cuckoo.DisplaceOrderly | src/cuckoocache.h:406-439 | a chain of displacements leaves every element at one of its own places, and none twice |
| Cuckoo.StoreOrderly | src/cuckoocache.h:392-440 | the same of a whole insertion |
| Cuckoo.DisplaceCounts | src/cuckoocache.h:406-439 | displacing conserves the elements: table plus dropped equals table before plus the newcomer |
| Cuckoo.StoreCounts | src/cuckoocache.h:392-440 | an insertion drops exactly one slot's content for the newcomer, and moves nothing when it is already there |
| Cuckoo.DisplaceLive | src/cuckoocache.h:406-439 | no element that is not garbage is lost, except the one in hand when the depth runs out |
| Cuckoo.StoreLive | src/cuckoocache.h:386-440 | after an insertion every element that was live, and the newcomer, is live, except at most one, and only when the depth ran out; nothing else is live |
| Cuckoo.SetupTimes | src/cuckoocache.h:339-352 | a new cache respects the ages |
| Cuckoo.AgingIsLate | src/cuckoocache.h:300-310 | an element marked as garbage by aging was last written before the latest turn of the epoch, and more than an epoch's worth of insertions ago |
| Cuckoo.EpochTimes | src/cuckoocache.h:288-320 | the two-flag bookkeeping of epochs is that of real insertion times |
| Cuckoo.DisplaceTimes | src/cuckoocache.h:406-439 | displacing keeps the bounds on the ages |
| Cuckoo.DisplaceFlags | src/cuckoocache.h:432-435 | the flag that travels with a displaced element is the flag of its own time |
| Cuckoo.InsertTimes | src/cuckoocache.h:392-440 | an insertion keeps the bounds, and its flags are those of the times |
| Cuckoo.LookTimes | src/cuckoocache.h:469-479 | the same of a lookup, with or without erasing |
| Cuckoo.LookOrderly | src/cuckoocache.h:469-479 | a lookup keeps the cache in order |
| Cuckoo.EpochOrderly | src/cuckoocache.h:288-320 | the epoch check keeps the cache in order |
| Cuckoo.InsertOrderly | src/cuckoocache.h:392-440 | insert, with its epoch check, keeps the cache in order |
| Cuckoo.RunKeeps | src/cuckoocache.h:288-479 | after every sequence of inserts and lookups from setup the cache is in order, and its flags mean what the insertion times say |
| CuckooAges.RunStamped | src/cuckoocache.h:288-479 | in every run the time kept with each element is the number of its last insert |
| CuckooAges.NotAgedSoon | src/cuckoocache.h:288-320 | in every run the epoch check marks no element whose last insert is at most an epoch back |
| CuckooAges.StaysOnce | src/cuckoocache.h:386-479 | one more operation within the epoch, not an erasing lookup of it, leaves a live element live or runs out of depth with it in hand |
| CuckooAges.StaysForAnEpoch | src/cuckoocache.h:288-479 | in every run an element inserted stays live through the next epoch's worth of inserts, whatever the other operations, unless it is erased or an insert runs out of depth with it in hand |
| CuckooCache.BitPackedFlags.constructor | src/cuckoocache.h:52-82 | all flags start set |
| CuckooCache.BitPackedFlags.BitSet | src/cuckoocache.h:90-93 | sets that flag and no other |
| CuckooCache.BitPackedFlags.BitUnset | src/cuckoocache.h:101-104 | clears that flag and no other |
| CuckooCache.Cache.constructor | src/cuckoocache.h:339-352 | at least two slots, all free, a whole epoch to wait |
| CuckooCache.EpochExactly | src/cuckoocache.h:339-352 | the epoch is 45% of the table if and only if 45 times its size is below 2^32; above, it is less |
| CuckooCache.EpochForExample | src/cuckoocache.h:339-352 | a table of 2^28 elements: an epoch of 34896609 and not of 120795955 |
| CuckooCache.Cache.EpochCheck | src/cuckoocache.h:288-320 | counts down, or scans and ages in place, as specified |
| CuckooCache.Cache.CountRecent | src/cuckoocache.h:294-299 | the loop counts the live elements of the latest epoch |
| CuckooCache.Cache.Age | src/cuckoocache.h:305-309 | the loop frees the old epoch's slots and moves the current one to the old |
| CuckooCache.Cache.Insert | src/cuckoocache.h:392-440 | the table and both kinds of flags, updated in place, end up as specified |
| CuckooCache.Cache.Contains | src/cuckoocache.h:469-479 | the answer is that of the specification, and only the element's garbage flag may change, only when erasing |
| Limbs.ScaledExactly | src/bloom.cpp:239-244 | the hash values that lead to a given result are exactly those of one interval |
| RollingBloom.MarkedAt | src/bloom.cpp:266-274 | an insertion marks exactly the key's cells with the current generation |
| RollingBloom.InsertExact | src/bloom.cpp:246-275 | one insertion, with the change of generation and the wiping it may bring, keeps each cell holding the generation of the last key that touched it, for as long as that is one of the last three |
| RollingBloom.AdvanceExact | src/bloom.cpp:248-263 | the reused generation number is wiped from exactly the cells that still held it |
| RollingBloom.RunExact | src/bloom.cpp:246-275 | the same after every sequence of insertions |
| RollingBloom.RecentFound | src/bloom.h:95-110 | each of the last two generations' worth of keys, at least nElements, is found: no false negative |
| RollingBloom.FoundExactly | src/bloom.cpp:283-295 | a key is found if and only if every one of its cells was last touched within the last three generations |
| RollingBloom.WipeWord | src/bloom.cpp:254-262 | the mask arithmetic on two 64-bit words clears exactly the cells of that generation |
| RollingBloom.RollingBloomFilter.constructor | src/bloom.cpp:206-231 | two words for each 64 cells, all clear; a generation holds half of nElements, rounded up, so that two hold them all |
| RollingBloom.RollingBloomFilter.NextGeneration | src/bloom.cpp:249-262 | the next generation number, and its old cells wiped |
| RollingBloom.RollingBloomFilter.Wipe | src/bloom.cpp:257-262 | the loop wipes exactly the cells of that generation |
| RollingBloom.RollingBloomFilter.InsertKey | src/bloom.cpp:246-275 | the words hold what the specified insertion gives |
| RollingBloom.RollingBloomFilter.MarkCell | src/bloom.cpp:270-273 | two masked writes set one cell and no other |
| RollingBloom.RollingBloomFilter.ContainsKey | src/bloom.cpp:283-295 | the answer is that of the specification |
| BitStream.BitsJoin | src/streams.h:567-571 | bits of a number followed by bits of another are those of the joined number |
| BitStream.BitsSplit | src/streams.h:567-571 | the high and low bits of a number, one after the other |
| BitStream.ValBits | src/streams.h:519-532 | reading n written bits gives the number modulo 2^n |
| BitStream.BitWriter.constructor | src/streams.h:552-552 | nothing written yet |
| BitStream.BitWriter.Write | src/streams.h:562-577 | refuses a width outside 0 to 64 and changes nothing; otherwise appends exactly the low nbits bits, most significant first, however they straddle bytes |
| BitStream.BitWriter.Flush | src/streams.h:579-590 | everything written is in the stream, padded by fewer than eight bits |
| BitStream.BitReader.constructor | src/streams.h:509-509 | all bits are still to be read |
| BitStream.BitReader.Read | src/streams.h:514-533 | refuses a width outside 0 to 64 and changes nothing; otherwise the next nbits bits as a number, and an error exactly when fewer are left |
| Gcs.GolombRoundTrip | src/blockfilter.cpp:26-55 | decoding an encoded number, whatever follows it, gives it back and consumes exactly its code |
| Gcs.GolombRiceEncode | src/blockfilter.cpp:26-41 | appends the code: the quotient in ones, a zero, and P low bits, although the ones go out 64 at a time |
| Gcs.GolombRiceDecode | src/blockfilter.cpp:43-55 | the number decoded, or an error exactly when the stream ends first |
| Gcs.MapIntoRange | src/blockfilter.cpp:62-86 | the piecewise 32-bit product gives the upper 64 bits of x n |
| Gcs.RangeBound | src/blockfilter.cpp:57-62 | the result lies below n |
| Gcs.LittleEndianRoundTrip | src/serialize.h:316-371 | a number written in k bytes is read back, wherever it stands |
| Gcs.CompactSizeRoundTrip | src/serialize.h:316-371 | a 32-bit size written is read back, and refused exactly when above the maximum size |
| GcsFilter.HashElement | src/blockfilter.cpp:88-94 | the element's place in the range |
| GcsFilter.BuildHashedSet | src/blockfilter.cpp:96-105 | the hashes of exactly the elements, sorted, one for each |
| GcsFilter.Build | src/blockfilter.cpp:134-162 | refused exactly for 2^32 elements or more; otherwise the bytes are the count and the coded differences of the sorted hashes |
| GcsFilter.EncodeSorted | src/blockfilter.cpp:152-161 | the differences' codes one after the other, padded by fewer than eight bits |
| GcsFilter.MatchInternal | src/blockfilter.cpp:164-194 | the interleaved walk over the codes and the sorted queries answers as specified, for any bytes |
| GcsFilter.ScanExact | src/blockfilter.cpp:174-193 | on a well-coded list the walk answers true exactly when a query and an element share a hash |
| GcsFilter.MatchExact | src/blockfilter.cpp:164-194 | on a built filter matching answers exactly that, and fails exactly when the count exceeds the maximum size |
| GcsFilter.ScanAny | src/blockfilter.cpp:164-194 | the interleaved walk over any codes, whatever sums they give on 64 bits, finds exactly the queries equal to a value that no earlier one exceeds |
| GcsFilter.MatchAccepted | src/blockfilter.cpp:164-194 | the same of every filter whose bytes were accepted |
| GcsFilter.SumsSorted | src/blockfilter.cpp:175-178 | the running sum stays below 2^64 if and only if the values never fall |
| GcsFilter.MatchUnwrapped | src/blockfilter.cpp:164-194 | then matching is exact against the values decoded |
| GcsFilter.ExactForAll | src/blockfilter.cpp:164-194 | matching finds all that is stored, for all queries, if and only if each value is equal to one that no earlier one exceeds |
| GcsFilter.WrapForExample | src/blockfilter.cpp:164-194 | two differences whose sum wraps around: a value is stored and not found |
| GcsFilter.SharedExactly | src/blockfilter.cpp:196-206 | sharing a hash is the collision of an element and a query |
| GcsFilter.MatchAny | src/blockfilter.cpp:202-206 | for every filter that was built, true exactly on a collision of an element and a query, or an error exactly above the maximum size; for every one that was read, true exactly when a query falls on a stored value that no earlier one exceeds |
| GcsFilter.Match | src/blockfilter.cpp:196-200 | the same for one query |
| GcsFilter.NoFalseNegative | src/blockfilter.h:75-90 | a query that is an element always collides, so it is always matched |
| GcsFilter.SkipCodes | src/blockfilter.cpp:125-128 | the loop consumes n codes, or fails exactly when there are fewer |
| GcsFilter.FromEncoding | src/blockfilter.cpp:111-132 | accepted if and only if the count is readable, that many codes follow, and no whole byte is left over |
| GcsFilter.CodesLength | src/blockfilter.cpp:125-131 | skipping n codes consumes exactly the codes of n elements |
| GcsFilter.Reload | src/blockfilter.cpp:111-162 | a filter built from at most the maximum size of elements is read back as the same filter, and one with more is refused |
| GcsFilter.Reloads | src/blockfilter.cpp:111-132 | the bytes of a built filter are accepted exactly when its count is at most the maximum size |
| Base58.EncodeRoom | src/base58.cpp:97-97 | n x 138 / 100 + 1 base-58 digits hold every n-byte number |
| Base58.DecodeRoom | src/base58.cpp:52-52 | n x 733 / 1000 + 1 bytes hold every number of n base-58 digits |
| Base58.CharOf | src/base58.cpp:18-36 | the decoding table maps a digit's character back to the digit |
| Base58.CharOfDigit | src/base58.cpp:18-36 | and only that character has that digit |
| Base58.MulAdd | src/base58.cpp:100-113 | one pass over the buffer multiplies and adds exactly, ends with no carry, and the used length stays the shortest |
| Base58.BufferDigits | src/base58.cpp:114-117 | the used part of the buffer is the shortest form of the number |
| Base58.EncodeBase58 | src/base58.cpp:87-125 | the string is a '1' for each leading zero byte followed by the shortest base-58 form of the rest |
| Base58.WriteDigits | src/base58.cpp:118-124 | the digits after the leading zeros, as characters |
| Base58.DecodeWord | src/base58.cpp:51-71 | the bytes of the word, or failure exactly on a foreign character or when they exceed the room |
| Base58.DecodeBase58 | src/base58.cpp:38-85 | the bytes, or failure, as specified, for every string and every limit |
| Base58.ParsePadded | src/base58.cpp:40-76 | spaces around the word do not matter |
| Base58.DecodeEncode | src/base58.cpp:38-125 | decoding what was encoded, with spaces around it, gives the bytes back, and fails exactly when they exceed the limit |
| Base58.EncodeDecode | src/base58.cpp:38-125 | encoding what was decoded gives the string without its spaces: no two words decode to the same bytes |

## Left out

- AddrManObject.AddrManager.ResolveCollisions_: the clock is read once for the whole call.
- AddrManStream.Unserialize: reads into a new manager; the pending collisions that an existing one would keep, and its state after an exception, are not modelled.
- AddrManCheck.Check: the test for a null key (code -16) is not modelled, nor is the entry that the lookup inserts for a missing address.
- MerkleBlock.Completeness: transactions are distinct and the hash of a pair is injective; without either the code's test of equal siblings can reject an honest tree.
- MerkleBlock.Soundness: the hash of a pair is injective.
- Gcs.GolombRiceEncode: parameter P below 64; for larger ones the shifts of the code are undefined.
- Gcs.GolombRiceDecode: parameter P below 64, for the same reason.
- RollingBloom.RollingBloomFilter.constructor: the number of hash functions and of filter bits, computed in floating point, are parameters.
- CuckooCache.Cache.constructor: the depth limit, a logarithm in floating point, is a parameter.
- Chain.AddToBlockIndex: only the links, the height and the skip pointer of a header that is not yet known.
- Widths of counters and lengths (32-bit ids, tree widths, string and vector lengths) are unbounded, except in the arithmetic, bit stream, filter and Bloom filter code, where words are the subject.
- Memory orders, spurious failures and interruption of threads; the flags of the cuckoo cache are plain, not atomic.
- The best block hash, memory accounting (`cachedCoinsUsage`), `AccessCoin` and `AddCoins` of the coin caches, and the database's batches on disk.
- `GetChance` and `Select_` of the address manager, which draw at random by floating-point weights; the bucket hashes themselves; the byte layout of the stream (its fields are modelled, and a short stream is an error).
- Hexadecimal and floating-point conversions and bitwise operators of the arithmetic class; `GetBlockProofEquivalentTime`, `FindEarliestAtLeast` and the other fields of a block header.
- The standard library's sort, modelled by insertion into a sorted list.
- `CBloomFilter`, `Base58Check`, Bech32, compact blocks, transaction and script code, consensus rules, staking, the contract machine, networking, wallet and user interface.
