# Bionic cores, modelled and verified in Dafny

This project models eight cores of the Bionic C library and linker and proves
what they are for, for every input, every interleaving and every reachable
state. A 32-bit `size_t` and `long` and sequentially consistent memory are
assumed throughout. `dafny verify dfyconfig.toml` checks everything.

| file | models |
|---|---|
| `Words.dfy` | 32-bit words: shifts, masks, bits |
| `Binmap.dfy` | bin bitmaps and the size-to-treebin arithmetic of dlmalloc |
| `Rings.dfy` | circular doubly linked lists over link fields |
| `TreeBins.dfy` | the treebins: bitwise tries with same-size rings, insert, unlink, best fit |
| `SmallBins.dfy` | the smallbins |
| `Layout.dfy` | boundary tags: how chunks tile a segment |
| `Heap.dfy` | dlmalloc and dlfree: the bins, dv and top as an index over the layout |
| `NormalMutex.dfy` | the three-state futex mutex |
| `RecursiveMutex.dfy` | recursive and errorcheck mutexes in one packed word |
| `CondVar.dfy` | condition variables |
| `TlsKeys.dfy` | thread-local storage keys, destructors at thread exit |
| `Buddy.dfy` | the linker's buddy allocator for library addresses |
| `Time64.dfy` | 64-bit calendar arithmetic |
| `Inet.dfy` | IPv4 and IPv6 addresses as text, both directions |
| `Sha1.dfy` | SHA-1, streaming and unrolled, against FIPS 180-1 |
| `Sha1Vector.dfy` | the digest of "abc", the first test vector of FIPS 180-1 |
| `Arc4.dfy` | arc4random: the RC4 state and unbiased range reduction |

Code that updates memory step by step is a class or a method over arrays with
loop invariants; the threads of `pthread.c` are transition systems with a
program counter per thread, one step per atomic operation, futex call or
lock-guarded section, any number of threads, and spurious wakes.

In dlmalloc a chunk is its address; its `head` word (a size and two flag bits)
is a record, and `head`, `prev_foot`, `fd`, `bk`, `child`, `parent` and `index`
are maps from addresses, which the methods reassign. That two such fields never
share memory with each other or with the bytes handed to the user is itself
proved, in `Layout.MetadataApart`.

Where the code and its comments disagree, the code is followed:

- `inet_pton.c` says a `::` in a full address is silently ignored. It is not:
  the groups after it become zeros. `Inet.FullAddressColon` says exactly when
  the address read is still the one written, `Inet.FullAddressColonExample` is
  an input for which it is not.
- `ba.c` says merging stops at the end of the bitmap, but its loop tests only
  the block, not the buddy it is about to read. The model also tests the buddy.
  `Buddy.LibrarySpace.Free` says exactly which calls of the original read one
  past the bitmap, `Buddy.LastFreeLooksPast` that freeing the last library is
  always one of them, and `Buddy.OneEntryLooksPast` is the smallest instance.
- `sha1.c` adds the high bits of a piece's length to the count only together
  with a carry. `Sha1.CountExactIff` says exactly when the count is right, and
  `Sha1.CountLost` is a piece for which it is not. Hashing is proved for all
  pieces, with the padding of FIPS 180-1 exactly when the count is right.
- `pthread.c` says a signal is lost after exactly UINT_MAX further signals. It
  takes 2^32: `CondVar.SleepsExactly`, and the run of `CondVar.SignalsCanBeLost`.
- `pthread.c` lets the 12-bit recursion counter wrap. `RecursiveMutex.DepthIsBalance`
  says exactly which runs the depth survives, and `RecursiveMutex.NestingTooDeep`
  is a run of 4097 locks that one unlock releases.
- `time64.c`'s `seconds_between_years` adds up other years than those between
  its arguments when it steps backward, and moves a left year below 1600 the
  wrong way. `Time64.BetweenExactIff` says exactly when that does not matter,
  and `safe_year` always meets the condition.
- `mktime64` measures from the year mktime left the safe date in, not from the
  year it asked for. `Time64.SafeYearShift` says that the result is right
  exactly if mktime did not carry the date into another year.

## Model

| member | source | states |
|---|---|---|
| `Binmap.MarkSpec` | libc/bionic/dlmalloc.c:2357-2366 | marking a bin sets its bit and no other |
| `Binmap.ClearSpec` | libc/bionic/dlmalloc.c:2357-2366 | clearing a bin clears its bit and no other |
| `Binmap.BitToIndexOfPow2` | libc/bionic/dlmalloc.c:2384-2394 | the five-stage fold finds the exponent of every power of two |
| `Binmap.LeastMarked` | libc/bionic/dlmalloc.c:2399 | isolating the least bit and taking its index gives the first marked bin |
| `Binmap.LeftMarks` | libc/bionic/dlmalloc.c:2402 | masking with left_bits keeps exactly the marks above the given bin |
| `Binmap.FirstOfTwo` | libc/bionic/dlmalloc.c:4212-4216 | the two-bit test and idx += ~smallbits & 1 pick the own bin if marked, else the next |
| `Binmap.FloorLogSpec` | libc/bionic/dlmalloc.c:2321-2334 | the borrow-mask normalization computes the floor of the logarithm |
| `Binmap.ComputeTreeIndex` | libc/bionic/dlmalloc.c:2321-2337 | the macro's code gives the treebin: twice the logarithm of size / 256 plus the next bit, up to the last bin |
| `Binmap.TreeIndexSpec` | libc/bionic/dlmalloc.c:2321-2337 | below the last bin, a treebin holds the sizes with one pair of leading bits; the last holds exactly those from 3 * 2^22 on |
| `Binmap.TreeIndexMonotone` | libc/bionic/dlmalloc.c:2321-2337 | larger sizes never get a smaller treebin index |
| `Binmap.SameBinSamePrefix` | libc/bionic/dlmalloc.c:2341-2347 | sizes of one treebin agree on all bits above the first the trie branches on |
| `Binmap.TreeIndexBySize` | libc/bionic/dlmalloc.c:2350-2352 | minsize_for_tree_index bounds each size's own bin from below and, before the last, from above |
| `Binmap.TreeIndexAtLeast` | libc/bionic/dlmalloc.c:2350-2352 | a size is in bin i or above exactly if it is at least minsize_for_tree_index(i), for every i |
| `Rings.InsertOK` | libc/bionic/dlmalloc.c:2976-2995 | four link stores put one node into a ring and leave the others' order alone |
| `Rings.RemoveOK` | libc/bionic/dlmalloc.c:2998-3019 | two link stores take exactly one node out of a ring |
| `TreeBins.UniquePosition` | libc/bionic/dlmalloc.c:2705-2753 | two sizes at the same trie position are one size |
| `TreeBins.Descend` | libc/bionic/dlmalloc.c:1860-1889 | every size below a node agrees with it on the decided bits and is reached by following its own bits |
| `TreeBins.UnderRoot` | libc/bionic/dlmalloc.c:2756-2764 | every tree chunk hangs under the root of its own bin |
| `TreeBins.BranchOrder` | libc/bionic/dlmalloc.c:1860-1889 | of two sizes that part at a bit, the one with the bit clear is smaller |
| `TreeBins.Treebins.InsertLarge` | libc/bionic/dlmalloc.c:3057-3107 | insert_large_chunk keeps the trie, the rings and the bitmap sound and adds exactly the one chunk, in all three cases, ending by the count of undecided size bits |
| `TreeBins.RingInsertOK` | libc/bionic/dlmalloc.c:3090-3098 | joining the ring of an equal size leaves the trie as it is |
| `TreeBins.LeafInsertOK` | libc/bionic/dlmalloc.c:3074-3084 | hanging a new node at a null child keeps the prefix invariant and unique sizes |
| `TreeBins.RootInsertOK` | libc/bionic/dlmalloc.c:3064-3069 | a first node makes its bin's root and sets its mark |
| `TreeBins.Treebins.UnlinkLarge` | libc/bionic/dlmalloc.c:3128-3199 | unlink_large_chunk keeps the structure sound and removes exactly the one chunk |
| `TreeBins.TakeoverOK` | libc/bionic/dlmalloc.c:3131-3198 | a chunk of the same ring takes over the node's place, parent and children in the trie |
| `TreeBins.MoveLeafOK` | libc/bionic/dlmalloc.c:3144-3198 | any leaf below a node can take its place: the prefix invariant does not mind which |
| `TreeBins.UnlinkLeafOK` | libc/bionic/dlmalloc.c:3160-3171 | a node without ring or children leaves a null child, or an empty unmarked bin |
| `TreeBins.Treebins.WalkPath` | libc/bionic/dlmalloc.c:3785-3807 | following the bits of nb, the best so far and the deepest right subtree not taken together cover every chunk of the bin that fits |
| `TreeBins.ForkStep` | libc/bionic/dlmalloc.c:3797-3805 | each turn of that walk keeps the cover |
| `TreeBins.NextBin` | libc/bionic/dlmalloc.c:3809-3817 | if the own bin has nothing that fits, the least marked bin above holds only chunks that fit, all smaller than those of later bins |
| `TreeBins.Treebins.ScanLeftmost` | libc/bionic/dlmalloc.c:3819-3826 | going down by the leftmost child sees the smallest chunk of a subtree |
| `TreeBins.Treebins.BestFit` | libc/bionic/dlmalloc.c:3778-3826 | the search finds a smallest tree chunk of at least nb bytes, and nothing only if there is none |
| `TreeBins.Treebins.SmallestFit` | libc/bionic/dlmalloc.c:3851-3867 | tmalloc_small's search finds the smallest of all tree chunks |
| `SmallBins.Smallbins.InsertSmall` | libc/bionic/dlmalloc.c:2976-2995 | adds exactly the one chunk; bins are marked exactly when not empty, stale headers included |
| `SmallBins.Smallbins.UnlinkSmall` | libc/bionic/dlmalloc.c:2998-3019 | removes exactly the one chunk and unmarks its bin exactly if it was the last |
| `SmallBins.Smallbins.UnlinkFirst` | libc/bionic/dlmalloc.c:3023-3040 | takes a chunk of exactly the bin's size from a marked bin |
| `Layout.ChunksDisjoint` | libc/bionic/dlmalloc.c:2623-2655 | no two chunks overlap |
| `Layout.PrevChunk` | libc/bionic/dlmalloc.c:2668-2690 | a clear pinuse bit leads, through prev_foot, back to a free chunk of exactly that size |
| `Layout.NotBothFree` | libc/bionic/dlmalloc.c:2668-2690 | the chunk after a free chunk is in use, so no two free chunks, nor one and top, are adjacent |
| `Layout.MetadataApart` | libc/bionic/dlmalloc.c:1639-1666 | no head, foot, list or tree field overlaps the user's bytes or another chunk's fields |
| `Layout.LayoutUnique` | libc/bionic/dlmalloc.c:2820-2889 | where the segment lies and which chunks are live determine every free chunk and top: freeing undoes allocating |
| `Layout.TakePartOK` | libc/bionic/dlmalloc.c:1786-1788 | splitting a free chunk makes its front live and its rest the only new free chunk |
| `Layout.CoalescedOK` | libc/bionic/dlmalloc.c:4363-4396 | merging a run of chunks into one free chunk, or into top, keeps all tags and footers in agreement |
| `Heap.Heap.InsertChunk` | libc/bionic/dlmalloc.c:3203-3205 | a chunk goes to exactly the bins of its size |
| `Heap.Heap.UnlinkChunk` | libc/bionic/dlmalloc.c:3207-3209 | a chunk leaves the bins it is in and no other does |
| `Heap.Heap.ReplaceDv` | libc/bionic/dlmalloc.c:3043-3053 | the old dv is binned, the new chunk is dv |
| `Heap.Heap.TmallocLarge` | libc/bionic/dlmalloc.c:3778-3848 | uses a smallest tree chunk that fits; returns 0 if and only if every one that fits is no better than a fitting dv |
| `Heap.Heap.TmallocSmall` | libc/bionic/dlmalloc.c:3851-3887 | uses the smallest tree chunk; a remainder large enough to split off becomes dv |
| `Heap.Heap.MallocFromSmallbins` | libc/bionic/dlmalloc.c:4210-4252 | a smallest small chunk that fits, remainderless or else split with the remainder as dv; nothing exactly if none is remainderless and dv fits or no small chunk does |
| `Heap.Heap.FromNextBin` | libc/bionic/dlmalloc.c:4228-4252 | the next nonempty smallbin gives a smallest fit, never remainderless; the remainder becomes dv |
| `Heap.Heap.UseDv` | libc/bionic/dlmalloc.c:4270-4288 | dv is split or exhausted; the user gains that chunk alone |
| `Heap.Heap.UseTop` | libc/bionic/dlmalloc.c:4290-4300 | the front of top becomes live |
| `Heap.Heap.SysAlloc` | libc/bionic/dlmalloc.c:3602-3660 | on a grant top starts or grows by exactly what is granted, whether or not that is enough; without one nothing changes |
| `Heap.Heap.Malloc` | libc/bionic/dlmalloc.c:4180-4310 | layout, tags and index stay in agreement; success adds one new live chunk of at least bytes + 4 and less than bytes + 32; below 0xffffffc0 bytes failure means nothing free, and not even top grown by the grant, exceeds bytes + 16, and from there on every request fails; a small request takes a remainderless small chunk, else dv, else the smallest binned fit, a large one the best fit of all, and only then top; the system is asked exactly if neither a free chunk nor top is enough |
| `Heap.Request` | libc/bionic/dlmalloc.c:1733-1745 | the padded size: a multiple of 8 of at least 16 with four bytes for the head, and no larger than that needs; from 0xffffffc0 bytes on, the size that never fits |
| `Heap.Heap.PayloadWriteKeeps` | libc/bionic/dlmalloc.c:1639-1666 | in flat memory, whatever a user writes to the bytes of a live chunk, every word the allocator will read is as it was |
| `Heap.Heap.FreeMem` | libc/bionic/dlmalloc.c:4312-4410 | exactly the one chunk stops being live, and the result is valid, hence fully merged and indexed, with the segment's extent unchanged; dv is where it was, grown if it was merged, or gone into top |
| `Heap.FreedOK` | libc/bionic/dlmalloc.c:4335-4396 | which free chunks backward and forward consolidation remove and create |
| `Heap.IndexAdd` | libc/bionic/dlmalloc.c:2695-2755 | binning a new free chunk by its size keeps every free chunk in exactly one of its smallbin, its treebin and dv |
| `NormalMutex.RunInv` | libc/bionic/pthread.c:854-937 | in every run: one owner at most, the word nonzero exactly if owned, every sleeper attended to |
| `NormalMutex.MutualExclusion` | libc/bionic/pthread.c:854-937 | no run has two owners |
| `NormalMutex.NobodyOrphaned` | libc/bionic/pthread.c:914-934 | no run reaches a state where all are idle or asleep and someone sleeps |
| `NormalMutex.ReleasedIsAttended` | libc/bionic/pthread.c:914-935 | a free mutex with sleepers has a thread about to wake one or to swap in 2 |
| `NormalMutex.StepRefines` | libc/bionic/pthread.c:854-937 | every step is an acquire of a free lock, a release by its owner, or invisible; trylock included |
| `NormalMutex.SleeperCanAcquire` | libc/bionic/pthread.c:914-935 | from every reachable state the threads under way can hand a sleeper the mutex, without spurious wakes |
| `NormalMutex.LockerCanAcquire` | libc/bionic/pthread.c:854-937 | the same for a thread anywhere inside lock: about to compare, to swap or to wait, or asleep |
| `NormalMutex.LockAcquires` | libc/bionic/pthread.c:863 | in every run, a lock call that finds no owner makes its caller the owner in state 1 and moves nobody else; one that finds an owner goes on to swap |
| `NormalMutex.SwapAcquires` | libc/bionic/pthread.c:880 | a contended locker owns the mutex after its swap if and only if there was no owner; the word is 2 either way |
| `NormalMutex.SleepsIff` | libc/bionic/pthread.c:880-881 | a waiter sleeps exactly if the word is still 2, which means someone owns the mutex |
| `NormalMutex.TryLockIff` | libc/bionic/pthread.c:1077-1082 | an idle thread's trylock makes it the owner if and only if there is none, and otherwise changes nothing |
| `NormalMutex.UnlockReleases` | libc/bionic/pthread.c:889-937 | an uncontended unlock frees the mutex at once; a contended one owns it until its store, and then wakes one sleeper, if there is any |
| `NormalMutex.NewThreadLocks` | libc/bionic/pthread.c:854-863 | from every state of every run with a free mutex, a new thread's lock ends with it the owner |
| `RecursiveMutex.Fields` | libc/bionic/pthread.c:737-746 | the masks and shifts read the four fields of the word |
| `RecursiveMutex.RelockedWord` | libc/bionic/pthread.c:983-985 | the masked addition raises the counter and nothing else, if and only if the counter is not full |
| `RecursiveMutex.StepDecodes` | libc/bionic/pthread.c:956-1120 | each step moves the decoded (owner, depth) as the abstract lock moves, the wrap of a full counter to depth 1 included |
| `RecursiveMutex.RunInv` | libc/bionic/pthread.c:956-1120 | in every run, however deep it nests, the word is well formed, the owner is where an owner can be, owner-only sections are entered by the owner, sleepers are attended to |
| `RecursiveMutex.DepthIsBalance` | libc/bionic/pthread.c:956-1120 | throughout a run a thread's depth is its locks minus its unlocks, so that only the outermost unlock releases, if and only if the thread never nests more than 2^12 deep |
| `RecursiveMutex.NestingTooDeep` | libc/bionic/pthread.c:983-985 | a run of 4097 locks after which the word says depth 1 and one unlock releases |
| `RecursiveMutex.SleeperCanAcquire` | libc/bionic/pthread.c:996-1058 | from every reachable state the threads under way and the owner's unlocks can hand a sleeper the mutex, without spurious wakes |
| `RecursiveMutex.UnlockByOther` | libc/bionic/pthread.c:1043-1063 | unlock fails with EPERM and no change if and only if the caller does not hold the mutex |
| `RecursiveMutex.ErrorcheckNeverNests` | libc/bionic/pthread.c:969-976 | an errorcheck mutex is never held twice; its owner gets EDEADLK |
| `RecursiveMutex.NobodyOrphaned` | libc/bionic/pthread.c:996-1021 | while a thread sleeps the mutex is held in the contended state, or a thread is about to wake one or to acquire in that state |
| `RecursiveMutex.ReleaseWakes` | libc/bionic/pthread.c:1047-1058 | the outermost unlock with a sleeper leaves someone in charge of it, even if waiters promoted the state meanwhile |
| `RecursiveMutex.LockReturns` | libc/bionic/pthread.c:967-1024 | lock in every run: EDEADLK exactly for the owner of an errorcheck mutex, a relock for that of a recursive one; else the caller owns it at depth 1 if and only if it is free, and otherwise waits on a contended word |
| `RecursiveMutex.TrylockReturns` | libc/bionic/pthread.c:1085-1117 | trylock in every run: EDEADLK for the owner of an errorcheck mutex, a relock for that of a recursive one; else 0 and ownership if and only if it is free, and EBUSY with no change otherwise |
| `RecursiveMutex.RelockReturns` | libc/bionic/pthread.c:982-986 | a relock returns 0 one level deeper, or at depth 1 from a full counter |
| `RecursiveMutex.UnlockReturns` | libc/bionic/pthread.c:1041-1065 | unlock by the owner in every run: a level less and the same state while nested; else free, and the call ends with a wake exactly if the state was contended |
| `RecursiveMutex.WaitSleepsIff` | libc/bionic/pthread.c:1018-1020 | a waiter sleeps exactly if the word is as its section left it, and locks as contended from then on |
| `RecursiveMutex.OwnerHolds` | libc/bionic/pthread.c:969 | the owner test names exactly the thread that holds the mutex |
| `RecursiveMutex.NewThreadLocks` | libc/bionic/pthread.c:994-1010 | in every run with a free mutex, a new thread's lock ends with it the owner at depth 1 |
| `CondVar.WordRepeats` | libc/bionic/pthread.c:1123-1129 | the word returns to a sampled value exactly after a multiple of 2^32 decrements |
| `CondVar.RunInv` | libc/bionic/pthread.c:1144-1176 | the word counts the decrements modulo 2^32 in every run |
| `CondVar.SleepsExactly` | libc/bionic/pthread.c:1163-1172 | a waiter sleeps if and only if a multiple of 2^32 decrements came since it sampled |
| `CondVar.NoLateSleep` | libc/bionic/pthread.c:1163-1172 | within 2^32 signals, nobody falls asleep on a value sampled before a later decrement |
| `CondVar.BroadcastReachesAll` | libc/bionic/pthread.c:1144-1149 | once a broadcast has completed, whoever sleeps sampled after its decrement |
| `CondVar.SignalWakesOne` | libc/bionic/pthread.c:1151-1156 | the step that completes a signal moves exactly one sleeper on to retake the mutex if anyone sleeps, and no other thread |
| `CondVar.SignalCanComplete` | libc/bionic/pthread.c:1151-1156 | in every state there is such a step, for any sleeper, or without one if nobody sleeps |
| `CondVar.BroadcastWakesAll` | libc/bionic/pthread.c:1144-1149 | the step that completes a broadcast moves every sleeper on and no other thread |
| `CondVar.CallDecrements` | libc/bionic/pthread.c:1144-1156 | signal and broadcast begin by changing the word |
| `CondVar.WaitSignalReturn` | libc/bionic/pthread.c:1163-1176 | from every state of every run, a waiter gives the mutex up, sleeps, is woken by another thread's signal and returns with the mutex |
| `CondVar.NewThreadTakes` | libc/bionic/pthread.c:1163-1176 | a new thread can take a free mutex and give it back |
| `CondVar.SignalsCanBeLost` | libc/bionic/pthread.c:1123-1129 | a run of 2^32 signals after which a waiter that sampled first still sleeps |
| `TlsKeys.FindFree` | libc/bionic/pthread.c:1359-1370 | the least free key, or -1 exactly if all are taken |
| `TlsKeys.SetBit` | libc/bionic/pthread.c:1345-1349 | one key's bit set, no other changed |
| `TlsKeys.ClearBit` | libc/bionic/pthread.c:1352-1356 | one key's bit cleared, no other changed |
| `TlsKeys.RunInv` | libc/bionic/pthread.c:1339-1536 | over all runs of create, stepwise delete, set, thread start and exit: unallocated slots are null, others hold the last value stored or are already cleared by a deletion |
| `TlsKeys.UnallocatedReadsNull` | libc/bionic/pthread.c:1458-1470 | the unlocked read of an unallocated key is null at every point of every run, between the steps of a deletion too |
| `TlsKeys.ReadsLastValue` | libc/bionic/pthread.c:1441-1470 | and an allocated key reads what the thread last stored since the key was made and no destructor took, unless a deletion under way has cleared it |
| `TlsKeys.NewKeyReadsNull` | libc/bionic/pthread.c:1373-1385 | a key just created, recycled or not, is the least free one and reads null everywhere |
| `TlsKeys.SetThenGet` | libc/bionic/pthread.c:1441-1470 | setspecific on an allocated key makes getspecific give that value and changes no other slot of any thread; on any other key it changes none |
| `TlsKeys.KeyCreated` | libc/bionic/pthread.c:1359-1385 | key_create takes the least free key of 3 to 63 with its destructor, and changes nothing exactly if all are taken |
| `TlsKeys.Preallocated` | libc/bionic/pthread.c:1313-1329 | the first lock of the map allocates keys 3 and 4 and no others |
| `TlsKeys.NewThreadStarts` | libc/bionic/pthread.c:153-167 | a new thread runs with every slot null |
| `TlsKeys.DeleteCompletes` | libc/bionic/pthread.c:1397-1438 | from every state of every run, key_delete can complete by its own steps: key and destructor gone, its slot null in every thread, nothing else changed |
| `TlsKeys.DestructorCalls` | libc/bionic/pthread.c:1486-1526 | every destructor call of every run is of the function its key was made with, on what its thread last stored after that; until the call the key was neither dropped nor made again and the value neither stored over nor destroyed |
| `TlsKeys.NoValueDestroyedTwice` | libc/bionic/pthread.c:1505-1520 | between two destructor calls for one thread and key, the thread stored the second value anew |
| `TlsKeys.DestructorsBounded` | libc/bionic/pthread.c:1486-1536 | whatever destructors reset, a thread runs at most 4 * 61 of them |
| `TlsKeys.QuietExitLeavesNothing` | libc/bionic/pthread.c:1529-1534 | a thread that leaves after a round without calls has no value left that a destructor should see |
| `TlsKeys.ExitRunsDestructors` | libc/bionic/pthread.c:1486-1536 | from every state of every run, an exit whose destructors call nothing calls each destructor owed once, on the thread's value, in key order, and the thread is gone |
| `TlsKeys.RoundEnds` | libc/bionic/pthread.c:1494-1535 | another round follows exactly if this one called a destructor and was not the fourth |
| `Buddy.FlipBit` | linker/ba.c:60 | the exclusive or is the other half of the next larger block |
| `Buddy.BuddyIsHead` | linker/ba.c:92-99 | a buddy index inside the space is a block head, of no larger order |
| `Buddy.BuddyOutside` | linker/ba.c:92-106 | for a block of the space, its buddy index leaves the space exactly for a last block that is a lower half, and is then the end |
| `Buddy.LastBlockIff` | linker/ba.c:92-106 | after a free, the block around index has its buddy outside if and only if some aligned free run around index ends the space as a lower half |
| `Buddy.LastFreeLooksPast` | linker/ba.c:92-106 | in a space of a power of two entries, such as the linker's 256, freeing the last allocated block always reads past the bitmap |
| `Buddy.OneEntryLooksPast` | linker/ba.c:92-106 | the smallest instance: one entry, allocated |
| `Buddy.RunInBlock` | linker/ba.c:133-150 | in a coalesced layout every aligned free run lies inside one free block |
| `Buddy.LayoutUnique` | linker/ba.c:86-109 | the allocated blocks determine the coalesced layout, so freeing undoes allocating in any order |
| `Buddy.AllFreeIsRoot` | linker/ba.c:75-84 | with nothing allocated the blocks are the binary digits of the number of entries |
| `Buddy.AllFreeIsInitial` | linker/ba.c:75-109 | freeing everything restores the initial layout |
| `Buddy.UsedDisjoint` | linker/ba.c:58-64 | allocated blocks are aligned to their size, inside the space and disjoint |
| `Buddy.UsedBytes` | linker/ba.c:172-180 | so are the address ranges they stand for |
| `Buddy.EntryOnce` | linker/ba.c:33-36 | every entry is in exactly one block, free or allocated and not both |
| `Buddy.OrderSpec` | linker/ba.c:111-121 | the least sufficient power of two; a zero or wrapping length asks for 2^32 units, which never fit |
| `Buddy.LibrarySpace.constructor` | linker/ba.c:75-84 | a tiled, coalesced space with nothing allocated |
| `Buddy.LibrarySpace.Order` | linker/ba.c:111-121 | the loop computes that order |
| `Buddy.LibrarySpace.FindFit` | linker/ba.c:133-150 | the first free block of the least sufficient order, or proof that none suffices |
| `Buddy.LibrarySpace.Partition` | linker/ba.c:158-168 | halving keeps the tiling and coalescing, and adds one allocated block of the order asked for |
| `Buddy.LibrarySpace.Allocate` | linker/ba.c:123-170 | -1 if and only if no aligned run of 2^order free entries exists, and then nothing changes; else the best fit is allocated |
| `Buddy.LibrarySpace.Free` | linker/ba.c:86-109 | removes exactly the one block and leaves the space tiled and fully coalesced; the original reads past its bitmap if and only if, before the call, some aligned run around index of entries free or in the block ends the space as a lower half |
| `Buddy.LibrarySpace.StartAddr` | linker/ba.c:172-175 | the block's addresses lie inside the space |
| `Buddy.LibrarySpace.Len` | linker/ba.c:177-180 | at least every length that asks for that order |
| `Time64.IsLeapSpec` | libc/bionic/time64.c:155 | the macro's truncating remainders give the Gregorian rule, negative years included |
| `Time64.DaysStep` | libc/bionic/time64.c:100-105 | the closed day count adds up the lengths of the years |
| `Time64.Cycle` | libc/bionic/time64.c:102-105 | 400 years are 146097 days, wherever they start |
| `Time64.MonthTables` | libc/bionic/time64.c:81-89 | the two month tables agree with each other and with the year |
| `Time64.MonthStartRule` | libc/bionic/time64.c:86-89 | where each month starts, by a rule without a table |
| `Time64.KnownDays` | libc/bionic/time64.c:203-248 | three known days with their weekdays and seconds: 1 January 1970, 29 February 2000, 31 December 1899 |
| `Time64.CivilUnique` | libc/bionic/time64.c:203-248 | different dates are different instants |
| `Time64.Timegm64` | libc/bionic/time64.c:203-248 | the calendar's seconds from 1970 to the date, across the cycle paths on both sides |
| `Time64.SplitTime` | libc/bionic/time64.c:554-564 | truncation and wrapping give floor division, negative times included |
| `Time64.YearForward` | libc/bionic/time64.c:576-590 | the year a non-negative day count falls in, and the int cast of the cycles is exact |
| `Time64.YearBackward` | libc/bionic/time64.c:598-614 | the year a negative day count falls in |
| `Time64.Gmtime64` | libc/bionic/time64.c:521-645 | the calendar date with its weekday and day of year; EOVERFLOW if and only if the year does not fit an int |
| `Time64.DateRoundTrip` | libc/bionic/time64.c:203-248 | gmtime64_r of timegm64 of any calendar date is that date |
| `Time64.TimeRoundTrip` | libc/bionic/time64.c:521-645 | timegm64 of gmtime64_r of any time whose year fits is that time |
| `Time64.CycleOffset` | libc/bionic/time64.c:287-303 | 16 years for every exceptional century between 2000 and the year, before and after |
| `Time64.CycleKeepsCalendar` | libc/bionic/time64.c:284-321 | such a move, adjusted for a missing leap day, by any number of 28-year cycles keeps the calendar |
| `Time64.SafeYear` | libc/bionic/time64.c:322-364 | for every year: a year of 1971 to 2037 with the same length, the same weekdays of this and the next 1 January, and a predecessor of the same length |
| `Time64.SecondsBetweenYears` | libc/bionic/time64.c:466-488 | exactly which days are counted, for all years for which the loop ends, in both directions and through both cycle branches |
| `Time64.MeetsIff` | libc/bionic/time64.c:482-485 | which those are: stepping from the right year reaches the left one exactly unless the left year was moved past it |
| `Time64.BetweenExactIff` | libc/bionic/time64.c:466-488 | that is the distance of the two January firsts if and only if, forward, the left year is after 1200, and backward, it is before 2800 and the two years are of one length |
| `Time64.SafeYearShift` | libc/bionic/time64.c:502-509 | what mktime64 adds is exactly the time between the year and the safe year if and only if mktime leaves the safe date in its year; if it carries the date by some years the sum is wrong |
| `Inet.Pton4` | libc/inet/inet_pton.c:73-109 | the character loop reads exactly four dotted octets; dst is untouched otherwise |
| `Inet.Pton6` | libc/inet/inet_pton.c:124-212 | the character loop, with its tokens, embedded quad and shift by hand, reads what the token grammar reads; dst is untouched otherwise |
| `Inet.UpperCaseReads` | libc/inet/inet_pton.c:127-148 | a text in upper case reads as its lower-case copy |
| `Inet.Shift` | libc/inet/inet_pton.c:194-207 | the in-place shift puts the zeros where the double colon was, overlapping or not |
| `Inet.FullAddressColon` | libc/inet/inet_pton.c:117-118 | with a double colon in a full address, the address written is read if and only if the groups after it are zero |
| `Inet.FullAddressColonExample` | libc/inet/inet_pton.c:117-118 | 1:2:3:4:5:6:7::8 reads as 1:2:3:4:5:6:7:0 |
| `Inet.Ntop4` | libc/inet/inet_ntop.c:71-85 | the quad reads back; failure exactly for want of room |
| `Inet.ShowCanonical` | libc/inet/inet_ntop.c:173 | numbers are printed in lower case without leading zeros |
| `Inet.ReadGroups` | libc/inet/inet_ntop.c:115-117 | or-ing shifted bytes gives the eight groups |
| `Inet.FindRun` | libc/inet/inet_ntop.c:118-141 | the first of the longest runs of at least two zero groups, or proof that there is none |
| `Inet.TextFits` | libc/inet/inet_ntop.c:103 | no address needs more than 39 characters |
| `Inet.Format` | libc/inet/inet_ntop.c:146-186 | the loop writes the text with that run shortened |
| `Inet.RoundTrip6` | libc/inet/inet_ntop.c:94-197 | parsing the text of any address, wherever the run is and in both IPv4 forms, gives the address |
| `Inet.Ntop6` | libc/inet/inet_ntop.c:94-197 | the text of the best run, which reads back; always succeeds with 46 bytes of room |
| `Inet.DottedOctets` | libc/inet/inet_ntop.c:71-85 | dotted octets read back |
| `Sha1.SwapLoads` | libc/bionic/sha1.c:38-43 | a little-endian load and blk0's rotations are a big-endian load |
| `Sha1.ChooseIs` | libc/bionic/sha1.c:50-51 | the rewritten choice is that of section 5 of FIPS 180-1 |
| `Sha1.MajorityIs` | libc/bionic/sha1.c:53 | so is the rewritten majority |
| `Sha1.ScheduleBack` | libc/bionic/sha1.c:44-45 | sixteen circular words are enough for the 80-word schedule |
| `Sha1.RoundIs` | libc/bionic/sha1.c:50-54 | updating two variables in place is the five-register step |
| `Sha1.DoR01` | libc/bionic/sha1.c:158-162 | rounds 0 to 19 under rotated names |
| `Sha1.DoR2` | libc/bionic/sha1.c:163-167 | rounds 20 to 39 |
| `Sha1.DoR3` | libc/bionic/sha1.c:168-172 | rounds 40 to 59 |
| `Sha1.DoR4` | libc/bionic/sha1.c:173-177 | rounds 60 to 79 |
| `Sha1.Transform` | libc/bionic/sha1.c:123-189 | the compression of section 7 of FIPS 180-1, for every state and block |
| `Sha1.CountExactIff` | libc/bionic/sha1.c:224-226 | the 64-bit bit count is exact if and only if the low word wraps or the piece is shorter than 2^29 bytes |
| `Sha1.CountLost` | libc/bionic/sha1.c:224-226 | an instance: one piece of 2^29 bytes counts as none |
| `Sha1.Context.Update` | libc/bionic/sha1.c:214-238 | however a message is cut, the context holds its whole blocks folded and the rest buffered, and an exact count stays exact under exactly that condition |
| `Sha1.PaddedEnough` | libc/bionic/sha1.c:258-260 | the padding loop stops exactly at the fewest zeros |
| `Sha1.Context.Final` | libc/bionic/sha1.c:244-268 | the digest of the message padded with the count kept, which is the padding of section 4 of FIPS 180-1 if the count is exact |
| `Sha1.DigestReadsBack` | libc/bionic/sha1.c:263-267 | the twenty digest bytes, most significant first, are the five registers |
| `Sha1Vector.DigestOfAbc` | libc/bionic/sha1.c:9-11 | the digest of "abc" is that of the test vector, which fixes the constants, the functions and the padding |
| `Arc4.NextReversible` | libc/bionic/arc4random.c:160-172 | a step keeps the table a permutation and can be undone: no two states merge |
| `Arc4.Generator.Init` | libc/bionic/arc4random.c:72-81 | the identity table and zero indices |
| `Arc4.Generator.AddRandom` | libc/bionic/arc4random.c:83-98 | 256 keyed steps, still a permutation, the first index where it was less one and the second equal to it |
| `Arc4.Generator.GetByte` | libc/bionic/arc4random.c:160-172 | one step on the table and the indices, and the byte s[s[i] + s[j]] of the new table |
| `Arc4.Generator.GetWord` | libc/bionic/arc4random.c:187-196 | four bytes of the stream, the first most significant |
| `Arc4.Generator.Stir` | libc/bionic/arc4random.c:100-158 | the present stream, or the identity, with the entropy mixed in by 256 keyed steps and 256 bytes thrown away; still a permutation; the count restarts |
| `Arc4.Generator.Byte` | libc/bionic/arc4random.c:174-185 | the next byte of the stream, stirred first exactly if the count runs out or nothing was initialized; the count goes down by one or restarts; at most 1,600,003 bytes are drawn from one stirring |
| `Arc4.Generator.Random` | libc/bionic/arc4random.c:216-227 | the next four bytes of the stream as a word, stirred first exactly if the count runs out, nothing was initialized or the process changed; the count goes down by four or restarts |
| `Arc4.LeastAccepted` | libc/bionic/arc4random.c:265-271 | the 32-bit computation is 2^32 mod upper_bound for every bound of at least 2 |
| `Arc4.Unbiased` | libc/bionic/arc4random.c:244-253 | every residue has exactly floor(2^32 / upper_bound) accepted draws |
| `Arc4.MostAccepted` | libc/bionic/arc4random.c:274-279 | more than half of all draws are accepted |
| `Arc4.Uniform` | libc/bionic/arc4random.c:254-287 | the residue of the first accepted draw; draws before it were all below the minimum |

## Left out

- dlmalloc: sbrk and mmap calls, segment lists other than one contiguous segment, trimming, directly mapped chunks, mspaces, realloc, memalign and statistics; what the system grants is a parameter that starts or extends the one segment, or fails.
- dlmalloc: FOOTERS and the usage-error actions; freeing something that is not live is excluded, as the original leaves it undefined.
- dlmalloc: top's alignment offset in init_top, the granted space being aligned.
- Heap.Heap.FreeMem: does not trim top, because trimming calls the system.
- NormalMutex: that a thread actually runs; wake-ups are shown to be under way and sufficient, not that the scheduler is fair.
- RecursiveMutex: the steps inside the global lock's sections one by one; each section is one step, which the normal mutex guarding it justifies.
- CondVar: timeouts, which are wakes like the spurious ones.
- TlsKeys: thread creation and joining themselves; a thread is added to the list, which a deletion's list lock delays, and then starts.
- pthread_once, pthread_create, pthread_exit, pthread_join, semaphores: easier than what is modelled, or dependent on the kernel.
- Buddy.LibrarySpace.Free: the read one past the bitmap, which the bound on the buddy removes; and freeing a block that is not allocated, which no caller does.
- Buddy.LibrarySpace.Allocate: the test against BA_MAX_ORDER, since no order exceeds 32.
- Time64.Timegm64: overflow of `tm_hour * 60 * 60` for fields far outside their ranges.
- Time64.SecondsBetweenYears: years for which the loop does not end, which `Time64.MeetsIff` characterises.
- Time64.SafeYearShift: carries of more than 300 years; a 32-bit mktime leaves the date in 1901 to 2038.
- mktime64 and localtime64_r as wholes, which call the system's mktime and localtime.
- Inet: the dispatch on the address family, and errno.
- Inet: the test `val > 0xffff` in inet_pton6, which can never succeed after the test on the digit count.
- Sha1.Context.Update: pieces of the last 63 lengths below 2^32, for which the 32-bit index arithmetic of the original can wrap.
- Sha1: the big-endian variant of blk0 and the wiping of variables.
- Arc4.Generator.Stir: where the entropy comes from; it is a parameter.
- Arc4.Uniform: termination; it is given the draws it makes, and asks again if they run out.
- arc4random_buf and arc4random_addrandom, which only repeat the steps above.
- The linker beyond ba.c, the resolver, system properties, timers, logging and headers: foreign calls, thin wrappers or declarations.
