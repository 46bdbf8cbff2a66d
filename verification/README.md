# Models of the concurrent hash table, the thread pool and the CHECK engine

This project models three components of the repository and proves what they are
relied on for.

* **Open-addressing hash tables** (`external/boost_concurrent.hpp`).
  Elements live in groups of 15 slots; a group has one tag per slot and an overflow
  byte, and a key is looked for along a quadratic probe sequence.
  `Prober`, `Group15`, `Hashing`, `TableLayout`, `TableCore` and `Tables` model the
  sequential table, up to whole sequences of operations. `ConcurrentModel`,
  `ConcurrentInvariant`, `ConcurrentLoad`, `ConcurrentTheorems`, `ConcurrentAnswers`,
  `ConcurrentProgress` and `ConcurrentMarks` model insert, lookup and erase running
  concurrently, one atomic access at a time, for any number of threads. `RwSpinlock` models the lock used for groups and tables,
  `LockOrder` the two levels of locks, and `HashRange` and `HashWords` the byte-range hash.
* **Thread pool** (`external/BS_thread_pool.hpp`). `ThreadPool` is a transition
  system whose steps are the critical sections, `ThreadPoolRuns` tells by events what
  the calls do over a run; `Blocks` is the splitting of a
  parallel loop.
* **CHECK engine** (`scripts/slang-lit.py`). `RunChecks` is the scanner, proved
  against a functional description. `CheckMeaning` says what success means without the
  scanner: a scan passes with an assignment of lines to directives exactly when that
  assignment explains the output, and `CheckFailures` says which directive a failure
  blames and why. `CheckClaims` derives from this what the directives
  promise and exactly when they keep it.

Code that changes things step by step is written as methods over classes, arrays
and loops (`Prober.QuadraticProber`, `Tables.Table`, `TableCore`, `Blocks`,
`HashRange`, `RunChecks`), each with a contract that says what it computes.
Protocols between threads are state machines: a `Step` or `Next` predicate lists
every step, a `Behavior` is any finite run, and theorems speak of every state of
every run. The runs are those of sequentially consistent memory.

## Where code and documentation differ

The model follows the code.

* The header of `slang-lit.py` (lines 22-23) says a CHECK-NOT pattern may match no line
  between the current and the next positive CHECK. The code holds it against the lines
  scanned for the positive check before it (lines 324-327). A successful scan keeps the
  documented promise, for all patterns and outputs, exactly when the next positive
  directive is a CHECK-NEXT or there is none (`CheckClaims.NotHonouredExactly`). What a
  CHECK-NOT always guarantees is `CheckClaims.NotHolds`; one before the first positive
  directive is held against no line (`CheckClaims.LeadingNotIsEmpty`).
* The scan is greedy. Without labels and CHECK-NOTs it finds every placement there is, for
  all patterns and outputs, exactly when no CHECK-NEXT comes after a CHECK or CHECK-DAG
  (`CheckClaims.GreedyCompleteExactly`).
* `wait` is described as waiting for tasks to be completed. A `purge`, a `pause` or a reset
  that raises the pause flag can make its condition true without waking it, and
  waiters share one flag. `ThreadPool.WakeupLostExactly` says exactly which steps
  strand a waiter, `ThreadPool.WakeupLostExactlyInRun` lifts this to runs, and two runs
  show that both ways happen.
* In the bit-interleaved group layout `is_sentinel` answers only for the last slot. The two
  layouts agree for exactly the slots named in `Group15.SentinelRefines`; in a group that
  a table builds, no other slot ever holds the sentinel (`Group15.OnlyLastIsSentinel`).
* The next label is not always matched where the code ends the region before it. It is,
  for all patterns and outputs, exactly when the last positive directive before it is not a
  CHECK-NEXT (`CheckClaims.LabelOnRegionEndExactly`). Every positive directive always lies
  strictly between the lines its labels matched (`CheckClaims.MatchedBetweenLabels`).

## Model

| member | source | states |
|---|---|---|
| Prober.ProbesDistinct | external/boost_concurrent.hpp:8624-8645 | two different numbers of steps below 2^n lead to different groups, from any home group |
| Prober.ProbeIsPermutation | external/boost_concurrent.hpp:8624-8645 | every group of a 2^n array is reached after exactly one number of steps below 2^n |
| Prober.VisitedCount | external/boost_concurrent.hpp:8624-8645 | the first k positions are k different groups |
| Prober.QuadraticProber.constructor | external/boost_concurrent.hpp:8626 | a new prober stands at its home group with no step made |
| Prober.QuadraticProber.Next | external/boost_concurrent.hpp:8636-8641 | the incremental, masked position stays the home position plus a triangular number modulo 2^n, and the result is false exactly when the whole array has been traversed |
| Prober.MaskIsModulo | external/boost_concurrent.hpp:8619-8622 | masking with 2^n - 1 is reduction modulo 2^n |
| Group15.StoreRefines | external/boost_concurrent.hpp:8500-8531 | writing a tag into the two interleaved words is writing the byte at that slot and leaves all other slots and the overflow byte alone |
| Group15.MarkRefines | external/boost_concurrent.hpp:8432-8435 | setting the top bit of a 16-bit lane is setting the bucket's bit of the overflow byte |
| Group15.TagMatchRefines | external/boost_concurrent.hpp:8533-8551 | the word-parallel match gives the same 15-bit mask as comparing the bytes one by one, for every group state and tag |
| Group15.AvailableRefines | external/boost_concurrent.hpp:8446-8452 | the mask of free slots is the same in both layouts |
| Group15.OccupiedRefines | external/boost_concurrent.hpp:8461-8467 | the mask of occupied slots is the same in both layouts |
| Group15.OccupiedSlotRefines | external/boost_concurrent.hpp:8454-8459 | asking for one slot gives the same answer in both layouts |
| Group15.OverflowRefines | external/boost_concurrent.hpp:8427-8430 | the overflow question has the same answer in both layouts for every hash |
| Group15.CausedOverflowRefines | external/boost_concurrent.hpp:8437-8444 | gathering the low bits of a tag from the words asks about the same bucket as the stored byte does |
| Group15.SentinelRefines | external/boost_concurrent.hpp:8399-8407 | the layouts agree on is_sentinel exactly when the slot is the last or does not hold the sentinel value |
| Group15.HistoryRefines | external/boost_concurrent.hpp:8374-8554 | after any sequence of set, reset, sentinel and overflow updates both layouts describe the same group |
| Group15.OnlyLastIsSentinel | external/boost_concurrent.hpp:7993-8008 | after any legal sequence of updates no slot but the last holds the sentinel |
| Group15.LayoutsAgree | external/boost_concurrent.hpp:7976-8175 | after any legal sequence of updates every query has the same answer in both layouts |
| Group15.CausedOverflowByHash | external/boost_concurrent.hpp:8437-8444 | for a slot just set, maybe_caused_overflow asks about the bucket of the hash stored, because the tag keeps the hash modulo 8 |
| Group15.OverflowIsRemembered | external/boost_concurrent.hpp:8427-8435 | after any legal sequence of updates a group reports overflow for a hash exactly when it has been marked for a hash with the same bit |
| Group15.MatchFindsStored | external/boost_concurrent.hpp:8533-8551 | after any legal sequence of updates a match finds exactly the slots whose last update stored a hash with the same tag |
| Hashing.HomeInRange | external/boost_concurrent.hpp:8606-8609 | the top bits of a 64-bit hash always name an existing group |
| Hashing.HomeIsTop | external/boost_concurrent.hpp:8606-8609 | the hashes of one home group are one stretch of all hashes: the home is the top bits |
| Hashing.Tag | external/boost_concurrent.hpp:8476-8498 | tags avoid the two reserved values and keep the hash modulo 8 |
| Hashing.TagsCollideExactly | external/boost_concurrent.hpp:8476-8498 | two hashes share a tag exactly when they share the low byte, or the low bytes are 0 and 8 or 1 and 9 |
| Group15.TagOnBytes | external/boost_concurrent.hpp:8476-8498 | the reduction on machine bytes is the tag reduction of the tables |
| Hashing.ExponentExact | external/boost_concurrent.hpp:8588-8601 | the policy allocates at least the groups asked for, and no larger power of two (from two up) than needed |
| Hashing.CapacitySuffices | external/boost_concurrent.hpp:10023-10026 | the capacity computed for n elements holds n elements |
| Hashing.CapacityStable | external/boost_concurrent.hpp:9572-9579 | asking for the capacity of an array gives an array of the same size |
| Hashing.CapacityExactly | external/boost_concurrent.hpp:8588-8601 | the arrays of an exponent suffice for n elements exactly when n is at most their capacity |
| Hashing.LoadSuffices | external/boost_concurrent.hpp:9305-9316 | a capacity of at least n / (7/8) has a maximum load of at least n |
| Hashing.MaxLoadExactly | external/boost_concurrent.hpp:9305-9316 | the maximum load is the whole capacity up to 29 slots, and above that the largest m with 8m at most 7 times the capacity |
| TableLayout.SearchComplete | external/boost_concurrent.hpp:9466-9502 | if a key is in none of the groups probed so far and the overflow bit of the last is clear or all are probed, it is nowhere in the table |
| TableLayout.PutSettles | external/boost_concurrent.hpp:10113-10132 | filling a reachable free slot keeps every element findable and adds exactly that entry |
| TableLayout.DropSettles | external/boost_concurrent.hpp:10007-10016 | freeing a slot keeps every other element findable and removes exactly that key, without a tombstone |
| TableLayout.MarkSettles | external/boost_concurrent.hpp:10130 | setting an overflow bit keeps every element findable |
| TableLayout.FreeSlotExists | external/boost_concurrent.hpp:10023-10026 | below capacity some slot is free |
| TableCore.SeekFree | external/boost_concurrent.hpp:10113-10132 | the loop that ignores the prober's result finds the first group of the walk with a free slot, within 2^n probes, and marks the one overflow bit in exactly the full groups it passes |
| TableCore.EmplaceAt | external/boost_concurrent.hpp:10113-10132 | one new entry is stored in the first group of its walk that is not full, all other elements stay where they are, at most 2^n groups are probed, and only the full ones among them are marked |
| TableCore.TransferStep | external/boost_concurrent.hpp:10034-10069 | one slot further, the contents transferred grow by that slot's element and by nothing else |
| TableCore.TransferAll | external/boost_concurrent.hpp:10034-10069 | rehashing moves the whole map into the new arrays, and the number of elements is kept |
| Tables.Table.constructor | external/boost_concurrent.hpp:9861-9864 | a new table is a valid empty map with the capacity and the maximum load for the request |
| Tables.Table.Find | external/boost_concurrent.hpp:9466-9502 | a slot is returned exactly when the key is in the map, and it is the slot holding that key |
| Tables.Table.EraseSlot | external/boost_concurrent.hpp:10007-10016 | exactly that key leaves the map, no other slot changes, and the maximum load falls by one exactly if the element may have caused overflow |
| Tables.Table.Erase | external/boost_concurrent.hpp:11283-11298 | the key leaves the map, the result is 1 exactly when it was there, and the maximum load falls by one exactly if the erased element may have caused overflow |
| Tables.Table.Clear | external/boost_concurrent.hpp:9527-9552 | the map becomes empty and the maximum load is restored |
| Tables.Table.UncheckedRehash | external/boost_concurrent.hpp:10028-10069 | new arrays of the capacity for n hold the same map |
| Tables.Table.UncheckedEmplaceWithRehash | external/boost_concurrent.hpp:9727-9749 | growth keeps the map, adds the new entry and leaves room |
| Tables.Table.Rehash | external/boost_concurrent.hpp:9572-9580 | the map is kept, the capacity becomes that for the larger of n and what the size requires, and nothing is moved if that is the capacity already |
| Tables.Table.RehashIfFull | external/boost_concurrent.hpp:12097-12103 | the map is kept, the arrays are replaced exactly if the load was at its maximum, and afterwards the size is below it |
| Tables.Table.Emplace | external/boost_concurrent.hpp:11985-12000 | inserted exactly when the key was absent; the map gains exactly that entry; a refused insertion changes nothing; the arrays grow exactly if the load was at its maximum |
| Tables.Table.Merge | external/boost_concurrent.hpp:11370-11387 | the target becomes the union with its own values first, the source keeps exactly the keys the target had, the total is conserved and the result is the number moved |
| Tables.Table.MergeItself | external/boost_concurrent.hpp:11370-11387 | merging a table with itself changes nothing and returns 0 |
| Tables.Table.Equals | external/boost_concurrent.hpp:9617-9627 | equal sizes and one-way lookup hold exactly when the two maps are equal |
| Tables.ContainedExactly | external/boost_concurrent.hpp:9617-9627 | containment of equally many elements is equality, both ways |
| Tables.Table.VisitEach | external/boost_concurrent.hpp:11673-11712 | single visits in order meet the present entries in the order of the keys |
| Tables.Table.BulkSearch | external/boost_concurrent.hpp:11744-11783 | a search from a precomputed hash, position and mask finds a slot exactly when the key is present |
| Tables.Table.BulkVisit | external/boost_concurrent.hpp:11587-11605 | bulk visitation in chunks of 16 to 31 visits the same elements in the same order as single visits and returns their number |
| Tables.Table.BulkChunk | external/boost_concurrent.hpp:11714-11789 | one chunk, with hashes, positions and masks computed ahead into arrays of 31, visits what single visits would |
| Tables.GrowthSuffices | external/boost_concurrent.hpp:9866-9880 | the capacity requested for growth takes all present elements and one more |
| Tables.GrowthJumpsExactly | external/boost_concurrent.hpp:9866-9880 | growth ends in arrays no larger than given ones exactly when the present elements, a 61st of them and one more fill at most seven eighths of those |
| Tables.FindAfter | external/boost_concurrent.hpp:9466-9502 | after any sequence of emplace, erase, clear and rehash on any table, a key is found exactly when the plain map modelled has it, with that map's value |
| ConcurrentInvariant.RunKeepsInvariant | external/boost_concurrent.hpp:10778-10803 | the invariant of the optimistic protocol holds in every state of every run |
| ConcurrentInvariant.BumpKeeps | external/boost_concurrent.hpp:12075-12081 | incrementing the insertion counter under the group lock keeps the invariant, whether it finds the recorded value or not |
| ConcurrentInvariant.SearchEnds | external/boost_concurrent.hpp:11673-11712 | a search that ended without a match, its counter unchanged since, leaves no won slot with that key anywhere |
| ConcurrentTheorems.KeysStayUnique | external/boost_concurrent.hpp:12053-12095 | no two slots, stored or won, ever have equal keys |
| ConcurrentTheorems.WinnerHasNoRival | external/boost_concurrent.hpp:12075-12081 | when the counter check succeeds no equal key is stored or won by anyone |
| ConcurrentTheorems.ComparesOnlyConstructed | external/boost_concurrent.hpp:11690-11704 | any occupied slot compared under the group lock holds a constructed element |
| ConcurrentTheorems.NeverMisses | external/boost_concurrent.hpp:11673-11712 | a walk for a key that is in the table in every state of the walk ends only by finding it; what finding and missing mean is ConcurrentAnswers.AnswersAreTrue |
| ConcurrentTheorems.StaysPut | external/boost_concurrent.hpp:12053-12095 | a step after which a stored key is still stored leaves it in its slot |
| ConcurrentTheorems.StoredIsOnWalk | external/boost_concurrent.hpp:11706-11710 | where a walk may stop, the slot of a stored key was already passed |
| ConcurrentLoad.RunStaysBalanced | external/boost_concurrent.hpp:12012-12031 | size, maximum load and pending reservations are accounted for in every state of every run |
| ConcurrentLoad.LoadStaysBounded | external/boost_concurrent.hpp:12012-12031 | stored elements plus reservations that still pass never exceed the maximum load, which never exceeds capacity nor falls below zero |
| ConcurrentLoad.SlotsSuffice | external/boost_concurrent.hpp:12069-12095 | occupied slots and admitted inserters together fit into the capacity |
| ConcurrentLoad.AdmittedFindsRoom | external/boost_concurrent.hpp:12069-12095 | while an admitted inserter is looking for a slot some slot is free |
| ConcurrentAnswers.AnswersAreTrue | external/boost_concurrent.hpp:11673-12095 | every answer of a call is true at some moment between its start and its end: found means the key was in the map, missing that it was not, inserted and erased that the caller's own step put exactly that entry in or took exactly that key out, refused that the size had reached the maximum load |
| ConcurrentAnswers.MapChangesByCalls | external/boost_concurrent.hpp:12053-12095 | a step of a run changes the map only by an insertion it reports, an erasure it begins, or a clear |
| ConcurrentAnswers.WonEnters | external/boost_concurrent.hpp:12082-12085 | constructing the element of a won slot adds exactly its entry, whose key was absent |
| ConcurrentAnswers.DestroyLeaves | external/boost_concurrent.hpp:11283-11298 | an erasure that found its key takes out exactly that key |
| ConcurrentProgress.NeverStuck | external/boost_concurrent.hpp:12069-12090 | in every reachable state with a thread in a call some thread in a call can step, so group locks never deadlock |
| ConcurrentProgress.SharersEnter | external/boost_concurrent.hpp:11673-11712 | a lookup or insertion enters a group beside others that share it |
| ConcurrentProgress.FoundCanBeErased | external/boost_concurrent.hpp:11283-11298 | an erasure that has come to the slot of its key can take the key out |
| ConcurrentProgress.WalksEnd | external/boost_concurrent.hpp:11673-11712 | a lookup or an erasure is over after at most 42 * 2^n + 10 steps of its own in 2^n groups, whatever other threads do |
| ConcurrentProgress.AloneEnds | external/boost_concurrent.hpp:12053-12095 | a call that runs alone never starts over and is over after at most that many steps |
| ConcurrentProgress.AloneAnswers | external/boost_concurrent.hpp:12053-12095 | the answer of a call that runs alone is decided by the table it starts with: found or missing by the map, refused exactly when the key is absent and the size has reached the maximum load |
| ConcurrentMarks.MarksAreEarned | external/boost_concurrent.hpp:12069-12090 | between rehashes an overflow bit of a group is set exactly when it was set to begin with or an insertion with that bit has passed the group while it was full |
| ConcurrentMarks.LoweredExactly | external/boost_concurrent.hpp:10007-10016 | an erasure lowers the maximum load by one exactly when the bit of its key is so marked in the group it leaves |
| RwSpinlock.MutualExclusion | external/boost_concurrent.hpp:7467-7564 | in every state the word is exactly 2^31 under a writer and otherwise the number of readers plus the pending bit; writers exclude everybody; the count stays below bit 30 |
| RwSpinlock.StepKeeps | external/boost_concurrent.hpp:7467-7564 | every load and compare-exchange of every thread keeps the invariant of the word |
| RwSpinlock.NoReaderPassesPendingWriter | external/boost_concurrent.hpp:7467-7494 | no reader enters while the pending bit is set |
| RwSpinlock.PendingClearedByWriter | external/boost_concurrent.hpp:7526-7558 | the pending bit is cleared only by a writer taking a free lock |
| RwSpinlock.ReaderBlockedByLiveThread | external/boost_concurrent.hpp:7467-7494 | a word that keeps readers out is the word of a lock that somebody holds or a writer still spins for; who is turned away is RwSpinlock.TryLockSharedExactly |
| RwSpinlock.TryLockSharedExactly | external/boost_concurrent.hpp:7467-7479 | try_lock_shared succeeds exactly when the word has not changed since its load, no writer holds or is announced, and one more reader can be counted |
| RwSpinlock.TryLockExactly | external/boost_concurrent.hpp:7507-7525 | try_lock succeeds exactly when the word has not changed since its load and nobody holds the lock |
| RwSpinlock.LockSharedExactly | external/boost_concurrent.hpp:7481-7495 | an attempt of lock_shared can enter exactly when the word has not changed and nothing keeps readers out, and tries again otherwise |
| RwSpinlock.LockExactly | external/boost_concurrent.hpp:7527-7558 | an attempt of lock can enter exactly when the word has not changed and nobody holds the lock, and can announce itself exactly when only readers stand in the way |
| RwSpinlock.UnlockReleases | external/boost_concurrent.hpp:7497-7564 | an unlock takes out its own thread only and leaves the pending bit alone |
| LockOrder.ExclusiveExcludes | external/boost_concurrent.hpp:10491-10492 | a thread with exclusive access to a table excludes every other access to it, shared or exclusive |
| LockOrder.LocksExclude | external/boost_concurrent.hpp:10491-10530 | two threads hold one lock of a table or a group only if both share it |
| LockOrder.GrantedExactly | external/boost_concurrent.hpp:10491-10530 | a thread can take the lock it wants exactly when no other thread holds it exclusively, or at all if it wants it exclusively |
| LockOrder.OrdersAscend | external/boost_concurrent.hpp:10542-10555 | all locks of one or two tables, also of the same table twice, are taken in ascending order |
| LockOrder.BlockersWaitForLater | external/boost_concurrent.hpp:10542-10555 | whoever holds up a thread waits for nothing or for a strictly later lock |
| LockOrder.NoCircularWait | external/boost_concurrent.hpp:11498-11537 | no chain of waiting threads in any reachable state returns to its start |
| LockOrder.DeadlockFree | external/boost_concurrent.hpp:11498-11537 | in every reachable state with a thread in an operation, some thread can take a step, even if readers always yield to waiting writers |
| HashRange.LengthCommutes | external/boost_concurrent.hpp:13355-13359 | mixing in the length before the first word or after the last gives the same state |
| HashRange.Overlapped | external/boost_concurrent.hpp:13375-13378 | two words that overlap, one shifted and or-ed with the other, give the bytes of both once |
| HashRange.ReadTailReads | external/boost_concurrent.hpp:13372-13387 | the tail read by overlapping words or by three bytes is the little-endian value of the remaining bytes |
| HashRange.ReadShortReads | external/boost_concurrent.hpp:13220-13229 | the three reads of one to three bytes give their little-endian value |
| HashRange.RandomAccess64 | external/boost_concurrent.hpp:13342-13393 | the random-access overload computes the hash of the range |
| HashRange.RandomAccess32 | external/boost_concurrent.hpp:13186-13238 | the 32-bit random-access overload computes the hash of the range |
| HashRange.Forward | external/boost_concurrent.hpp:13395-13499 | the forward overload, which mixes in the length before the last partial word, computes the hash of the range for either word size |
| HashWords.WordLaws64 | external/boost_concurrent.hpp:13313-13328 | 64-bit or and byte shifts obey the laws used for reading; their value is HashWords.WordValue64 |
| HashWords.WordValue64 | external/boost_concurrent.hpp:13313-13328 | a word read from up to eight bytes is the number with those bytes as its digits in base 256, least significant first |
| HashWords.WordsDiffer64 | external/boost_concurrent.hpp:13313-13328 | runs of bytes of one length up to eight make one word only if they are the same |
| HashWords.WordValue32 | external/boost_concurrent.hpp:13155-13167 | the same for up to four bytes and 32-bit words |
| HashWords.WordsDiffer32 | external/boost_concurrent.hpp:13155-13167 | runs of bytes of one length up to four make one word only if they are the same |
| HashWords.ChangedWordShows64 | external/boost_concurrent.hpp:13342-13393 | if multiplying and folding sends no two words to one, ranges of one length that differ in one word have different hashes |
| HashWords.LengthShows64 | external/boost_concurrent.hpp:13355-13359 | under the same condition a short range has another hash with a zero byte added |
| HashWords.ChangedWordShows32 | external/boost_concurrent.hpp:13186-13238 | for 32-bit words, if multiplying sends no two words to one product, such ranges lead to different states before the last mix |
| HashWords.LengthShows32 | external/boost_concurrent.hpp:13199-13202 | for 32-bit words, neighbouring lengths below a word change the state differently |
| HashWords.EqualWordsStay64 | external/boost_concurrent.hpp:13358-13367 | under the condition of HashWords.ChangedWordShows64 two equal words in a row do not cancel out, because the offset moves between them |
| HashWords.EqualWordsStay32 | external/boost_concurrent.hpp:13204-13213 | the same for 32-bit words |
| HashWords.SeedShows64 | external/boost_concurrent.hpp:13352-13356 | under that condition different seeds lead to different first states |
| HashWords.SeedShows32 | external/boost_concurrent.hpp:13196-13202 | the same for 32-bit words |
| HashWords.MultipliersAreSquares | external/boost_concurrent.hpp:13352-13353 | the multipliers are the squares of the offset steps |
| HashWords.SizeCommutes64 | external/boost_concurrent.hpp:13355-13359 | exclusive or with the length commutes with absorbing a word |
| HashWords.BothOverloads64 | external/boost_concurrent.hpp:13342-13499 | the two 64-bit overloads return the same hash for every seed, range and mixing function, that of the words of HashWords.WordValue64 |
| HashWords.BothOverloads32 | external/boost_concurrent.hpp:13186-13311 | the two 32-bit overloads return the same hash for every seed, range and multiplication, that of the words of HashWords.WordValue32 |
| ThreadPool.RunKeeps | external/BS_thread_pool.hpp:2288-2333 | counting, the partition of tasks and the wake-up invariant hold in every state of every run |
| ThreadPool.CounterNeverWraps | external/BS_thread_pool.hpp:2288-2306 | tasks_running is the number of workers starting or executing, and it is at least one whenever it is decremented |
| ThreadPool.CountKeeps | external/BS_thread_pool.hpp:2082-2090 | every step, also recreating the threads in reset, keeps the counter exact |
| ThreadPool.SplitKeeps | external/BS_thread_pool.hpp:2317-2320 | every submitted task stays in exactly one of queued, running, finished and purged |
| ThreadPool.NoTaskRunsTwice | external/BS_thread_pool.hpp:2256-2265 | in no run is a task started twice |
| ThreadPool.NothingLost | external/BS_thread_pool.hpp:1782-1801 | without a purge, what was submitted is still queued, running or finished, through any pauses and resets |
| ThreadPool.StrandsNone | external/BS_thread_pool.hpp:1550-1572 | every step keeps it true that an unpaused non-empty queue has an awake worker or a caller about to notify; which states are unpaused is ThreadPoolRuns.FlagFollowsCalls |
| ThreadPool.AccountsKeep | external/BS_thread_pool.hpp:2112-2122 | workers leave only when told, and once the notification of a reset is out none is asleep |
| ThreadPool.WaitMeansDone | external/BS_thread_pool.hpp:1969-1989 | when wait returns nothing submitted before is running, and on an unpaused pool all of it is finished or purged |
| ThreadPool.WakeupLostExactly | external/BS_thread_pool.hpp:1969-1989 | a step leaves a waiter asleep for no reason exactly when it is a silent call that makes the condition true, or a woken waiter that sleeps again with the shared flag down |
| ThreadPool.WakeupLostExactlyInRun | external/BS_thread_pool.hpp:1969-1989 | no waiter ever sleeps for no reason in a run exactly when none of its events is one of those steps |
| ThreadPool.LoneWaiterIsWoken | external/BS_thread_pool.hpp:2295-2306 | a waiter whom no other wait, purge, pause or pausing reset overlaps sees its condition turn true only in a worker step, and that step wakes it, whatever happened to the pool before |
| ThreadPool.PurgeStrandsWaiter | external/BS_thread_pool.hpp:1740-1744 | a run in which purge leaves a waiter asleep with its condition true and everyone else asleep |
| ThreadPool.SharedFlagStrandsWaiter | external/BS_thread_pool.hpp:1979-1988 | a run without purge, pause or reset in which the second of two waiters is left asleep |
| ThreadPoolRuns.FlagFollowsCalls | external/BS_thread_pool.hpp:1955-1962 | after unpause the pool is not paused, and after pause it is, in every state up to the next pause, unpause or reset |
| ThreadPoolRuns.ResetRestoresFlag | external/BS_thread_pool.hpp:1782-1801 | a completed reset leaves the pause flag as it was when the reset began, whatever happened meanwhile |
| ThreadPoolRuns.UnpausedWorkIsTended | external/BS_thread_pool.hpp:1955-1962 | after unpause a non-empty queue of a pool that is up has an awake worker or a caller about to notify |
| ThreadPoolRuns.WokenTakesTask | external/BS_thread_pool.hpp:2307-2320 | after unpause the next move of a woken worker takes a task out of a non-empty queue and runs it |
| ThreadPoolRuns.WorkerGoesOn | external/BS_thread_pool.hpp:2307-2320 | a worker that takes the mutex leaves if the pool is down, runs a queued task if it is not paused and has one, and sleeps otherwise |
| ThreadPoolRuns.ResetNeverStuck | external/BS_thread_pool.hpp:2112-2122 | a reset that joins its workers always finds one that can step or all of them gone |
| ThreadPoolRuns.StartsWhenAllowed | external/BS_thread_pool.hpp:2256-2265 | tasks start only on a pool that is up and not paused, and with a priority queue none that is queued ranks higher |
| ThreadPoolRuns.FirstComeFirstServed | external/BS_thread_pool.hpp:2256-2265 | without priorities a task is no longer queued when one that was behind it starts |
| ThreadPoolRuns.SubmittedInOrder | external/BS_thread_pool.hpp:1550-1572 | a task submitted earlier, or earlier in the same batch, is ahead in the queue |
| ThreadPoolRuns.PurgedNeverStarts | external/BS_thread_pool.hpp:1740-1744 | a purge empties the queue, and nothing it found there ever starts |
| ThreadPoolRuns.FinishesAfterRunning | external/BS_thread_pool.hpp:2288-2294 | a task is finished only by the return of the worker that ran it |
| ThreadPoolRuns.WaitReturnsExactly | external/BS_thread_pool.hpp:1969-1989 | wait, or a woken waiter, returns exactly when no worker is starting or running a task and the queue is empty or paused |
| ThreadPoolRuns.ResetWaitsForRunning | external/BS_thread_pool.hpp:2274-2281 | a reset stops the workers only when none is running a task |
| ThreadPoolRuns.NotifyWakes | external/BS_thread_pool.hpp:1955-1962 | notifying all leaves no worker asleep, and notifying one wakes one if any sleeps |
| Blocks.Blocks.constructor | external/BS_thread_pool.hpp:589-608 | the number of blocks is the one asked for but at most one per index, and none for an empty range |
| Blocks.BlocksTile | external/BS_thread_pool.hpp:615-639 | blocks are non-empty and adjacent, and they start and end with the range |
| Blocks.ExactlyOneBlock | external/BS_thread_pool.hpp:615-639 | an index is in the range exactly when it is in a block, and then in only one |
| Blocks.SizesDifferByAtMostOne | external/BS_thread_pool.hpp:594-601 | block sizes differ by at most one |
| Blocks.RunLoopTask | external/BS_thread_pool.hpp:697-701 | a task calls the function on its indices once each, in order |
| Blocks.EnqueueLoop | external/BS_thread_pool.hpp:2198-2216 | the tasks in order call exactly the range's indices, with even non-empty shares; no block count means one per thread |
| Blocks.AnyOrderSameCalls | external/BS_thread_pool.hpp:2198-2216 | the order in which tasks run does not change what is called how often |
| Blocks.InterleavingKeepsCalls | external/BS_thread_pool.hpp:697-701 | any interleaving of the tasks' calls makes exactly the calls the tasks make |
| Blocks.EachIndexOnce | external/BS_thread_pool.hpp:2198-2216 | whatever the order of the tasks and the interleaving of their calls, every index of the range is called exactly once and no other is |
| RunChecks.Search | scripts/slang-lit.py:443-447 | the first matching line of a range is found, or there is none |
| RunChecks.NextLabelBound | scripts/slang-lit.py:272-286 | the region ends at the first match of the next label, or with the output |
| RunChecks.AssertNotInWindow | scripts/slang-lit.py:292-313 | the first pending pattern that is bad or matches in the window is reported |
| RunChecks.DagGroup | scripts/slang-lit.py:329-365 | a group's directives are all looked up from the same line, and the scan goes on after the furthest match; which directive a failure names is CheckFailures.DagIsBlame |
| RunChecks.PositiveDirective | scripts/slang-lit.py:367-456 | a label, next or check directive moves the scan, the region and the record of matches, or fails, as described |
| RunChecks.RunChecks | scripts/slang-lit.py:250-459 | the scanner fails or passes with the functional description, whose meaning is CheckMeaning.PassesExactly and CheckFailures.FailsExactly |
| CheckMeaning.PassesExactly | scripts/slang-lit.py:250-459 | the scan passes with an assignment of lines exactly when the assignment explains the output: every directive matches in order, CHECK-NEXT on the very next line, all others on the first line they can, CHECK and CHECK-DAG inside their region, and no CHECK-NOT matches a line it is held against |
| CheckMeaning.StepKeeps | scripts/slang-lit.py:316-456 | every step keeps the invariant: what was found so far fits, the position and the window are tight, and pending CHECK-NOTs are those after the last positive directive |
| CheckMeaning.RunFinds | scripts/slang-lit.py:316-456 | a scan of an output that some assignment explains ends with just that assignment |
| CheckFailures.FailsExactly | scripts/slang-lit.py:250-459 | the scan fails with a directive, reason and region exactly when everything before that directive is accounted for and it is the first that is not: a CHECK-NOT that is bad or matches a line it is held against; the first CHECK-DAG of a group that is bad or matches no later line of the region, all earlier ones matching one; a CHECK or label without such a line; a CHECK-NEXT with no next line or one that does not match |
| CheckFailures.StopsExactly | scripts/slang-lit.py:316-456 | a scanner stops at a directive or group with exactly the failure to blame for it |
| CheckFailures.FlushIsBlame | scripts/slang-lit.py:292-313 | the failure of pending CHECK-NOTs names the first that is bad or matches a line it is held against, and there is none exactly when all are obeyed |
| CheckFailures.DagIsBlame | scripts/slang-lit.py:329-360 | a group fails with its first member that is bad or missing from the rest of the region |
| CheckFailures.PositiveIsBlame | scripts/slang-lit.py:367-456 | a label, next or check directive fails exactly for the reason its lines give |
| CheckFailures.GetsThere | scripts/slang-lit.py:316-456 | a scanner reaches every directive up to which an assignment accounts for what comes before |
| CheckClaims.NextFollows | scripts/slang-lit.py:399-430 | on success a CHECK-NEXT matched the line right after the furthest line matched before it, or line 0 if nothing comes before |
| CheckClaims.GreedyFinds | scripts/slang-lit.py:316-456 | if the remaining CHECK and CHECK-DAG directives can be placed at or after the scan position, the scan succeeds |
| CheckClaims.GreedyIsComplete | scripts/slang-lit.py:316-456 | for lists of CHECK and CHECK-DAG, also after leading CHECK-NEXTs, the scan succeeds exactly when some ordered placement exists |
| CheckClaims.GreedyCompleteExactly | scripts/slang-lit.py:316-456 | without labels and CHECK-NOTs, the scan finds every placement for all patterns and outputs exactly when no CHECK-NEXT comes after a CHECK or CHECK-DAG |
| CheckClaims.MatchedBetweenLabels | scripts/slang-lit.py:367-397 | on success every positive directive between two labels matched strictly between their lines, and a CHECK or CHECK-DAG before any line the next label could match |
| CheckClaims.LabelStepExactly | scripts/slang-lit.py:367-397 | a step over a label matches the line where the region before it ends exactly when the scan position is not past that line |
| CheckClaims.LabelMatchesRegionEnd | scripts/slang-lit.py:272-286 | on success the next label matched where the region ends exactly when everything matched in between lies before that line |
| CheckClaims.LabelOnRegionEnd | scripts/slang-lit.py:272-286 | on success a label matched the first line after the label before it that it can match, unless a CHECK-NEXT is the last positive directive in between |
| CheckClaims.LabelOnRegionEndExactly | scripts/slang-lit.py:272-286 | that holds for all patterns and outputs exactly when the last positive directive before the label is not a CHECK-NEXT |
| CheckClaims.NotHolds | scripts/slang-lit.py:292-327 | on success a CHECK-NOT matches no line scanned for the positive directive or group before it, and if none follows no line from there to the end of the output |
| CheckClaims.NotHonouredExactly | scripts/slang-lit.py:316-327 | a successful scan keeps the documented CHECK-NOT promise for all patterns and outputs exactly when the next positive directive is a CHECK-NEXT or there is none |
| CheckClaims.ExtraBreaksPromise | scripts/slang-lit.py:324-327 | for every other list an output passes although a forbidden line stands between the surrounding matches |
| CheckClaims.LeadingNotIsEmpty | scripts/slang-lit.py:314-327 | an output that starts with a forbidden line passes, because a leading CHECK-NOT has an empty window |
| CheckClaims.SecondPassesRegionEnd | scripts/slang-lit.py:399-430 | for every list in which a CHECK-NEXT comes last before a label, an output passes on which that label is matched past the end of the region |
| CheckClaims.ScanMisses | scripts/slang-lit.py:399-456 | for every list with a CHECK-NEXT right after another directive, the scan fails on the output that repeats that directive's line |
| CheckClaims.PlacementExists | scripts/slang-lit.py:399-456 | on that output all directives can be placed, each CHECK-NEXT right after what precedes it |
| CheckClaims.NotSkipsTheGap | scripts/slang-lit.py:324-327 | an output passes with a forbidden line between the two checks around a CHECK-NOT |
| CheckClaims.NotReachesBack | scripts/slang-lit.py:324-327 | an output fails because a forbidden line comes before both checks |

## Left out

- Weak memory orders: every atomic access is sequentially consistent.
- Progress under contention: optimistic insertion may start over for ever, since losing attempts also move the counter, and the spinlocks promise no fairness. Proved are safety, the absence of deadlock, a bound on the steps of a lookup or erasure, and that a call left alone ends.
- An erasure that finds its key may decline, as erase_if does; the plain erase, which never declines, is the case in which it does not.
- Exceptions, and rolling back because of them; allocators, fancy pointers, type traits, serialization and statistics.
- SIMD variants of a group: they compute the byte layout's answers; the byte and the interleaved layout are the ones modelled.
- The maximum load factor is exactly 7/8 and rounding is that of exact arithmetic, where the code multiplies and divides floats.
- Byte order: the interleaved layout's 16-bit view of its words is the little-endian one.
- Machine limits on sizes: table sizes, block indices and lengths are unbounded; the hash is 64 bits wide, and arrays of more than 2^64 groups are given a harmless home group.
- The 32-bit insertion counter is an unbounded number, so no wrap-around during one attempt is modelled.
- The concurrent model reads tags slot by slot as in the byte layout; states between the two word updates of the interleaved layout are not modelled.
- Releasing a group lock is part of the last access made under it in the concurrent model; the lock itself is modelled in `RwSpinlock`.
- Rehash and clear appear in the concurrent model as one step taken while no thread is inside an operation, which exclusive container access guarantees; their effect is that of the sequential methods.
- Whole-table sweeps (visit_all, erase_if over all elements) and bulk visitation are not steps of the concurrent model.
- Callbacks do not change keys, call back into a table, or take locks; threads do not use a table while already inside one.
- Tables.Table.Merge: takes two tables that share no array; the case of one table on both sides is Tables.Table.MergeItself. The tables may have different hash functions.
- Assignment, swap, copy and move of tables.
- The multiply-and-fold functions under hash_range are arbitrary functions of two words, so their several implementations are not compared, and the quality of the hash is not a matter of this model; the unrolled eight or four reads of the forward overload are one inner loop.
- Thread pool: the variant with stop tokens, native extensions, timed waits, futures, init and cleanup functions, and destruction; one reset runs at a time, and a task's own calls to the pool are those of another caller.
- Tasks submitted twice are told apart: each submission is a task of its own.
- Priorities are a fixed rank per task, and any task of the highest rank may be popped.
- The parallel loop with no threads is not modelled: a pool has at least one.
- CheckClaims.GreedyCompleteExactly: lists with labels or CHECK-NOTs have no placement to compare with; for them CheckMeaning.PassesExactly describes success.
- Regular expressions are arbitrary predicates on lines, or bad; directive parsing, substitutions, subprocesses and reporting are left out.
